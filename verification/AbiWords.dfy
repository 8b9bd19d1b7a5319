/**
 Words, addresses and byte strings of the Contract ABI Specification ("Formal Specification of the
 Encoding"): big-endian 32-byte words, and `bytes` as a length word followed by zero-padded content.
 */
module AbiWords {
  import opened Wrappers
  import opened ByteStrings
  import opened MachineWords

  const TWO_256: nat := 0x1_0000_0000_0000_0000_0000_0000_0000_0000_0000_0000_0000_0000_0000_0000_0000_0000

  function Pow256(n: nat): (p: nat)
    ensures p >= 1
  {
    if n == 0 then 1 else 256 * Pow256(n - 1)
  }

  function Zeros(n: nat): (r: Bytes)
    ensures |r| == n && forall i :: 0 <= i < n ==> r[i] == 0
  {
    seq(n, _ => 0)
  }

  function BigEndian(v: nat, n: nat): (r: Bytes)
    ensures |r| == n
  {
    if n == 0 then [] else BigEndian(v / 256, n - 1) + [v % 256]
  }

  function FromBytes(b: Bytes): nat {
    if b == [] then 0 else FromBytes(b[..|b|-1]) * 256 + b[|b|-1]
  }

  lemma {:induction false} FromBigEndian(v: nat, n: nat)
    requires v < Pow256(n)
    ensures FromBytes(BigEndian(v, n)) == v
  {
    if n > 0 {
      FromBigEndian(v / 256, n - 1);
      assert BigEndian(v, n)[..n-1] == BigEndian(v / 256, n - 1);
    }
  }

  lemma {:induction false} ToBigEndian(b: Bytes)
    ensures FromBytes(b) < Pow256(|b|)
    ensures BigEndian(FromBytes(b), |b|) == b
  {
    if b != [] {
      var init := b[..|b|-1];
      ToBigEndian(init);
      assert FromBytes(b) / 256 == FromBytes(init) && FromBytes(b) % 256 == b[|b|-1];
      assert b == init + [b[|b|-1]];
    }
  }

  /** The first byte is the most significant. */
  lemma {:induction false} MostSignificantFirst(first: byte, rest: Bytes)
    ensures FromBytes([first] + rest) == first * Pow256(|rest|) + FromBytes(rest)
    ensures FromBytes([]) == 0
  {
    var b := [first] + rest;
    if rest != [] {
      var init, last := rest[..|rest|-1], rest[|rest|-1];
      MostSignificantFirst(first, init);
      assert b[..|b|-1] == [first] + init;
      assert FromBytes(b) == (first * Pow256(|init|) + FromBytes(init)) * 256 + last;
      assert first * Pow256(|rest|) == first * Pow256(|init|) * 256;
    } else {
      assert b[..0] == [];
    }
  }

  lemma {:induction false} LeadingZeros(k: nat, b: Bytes)
    ensures FromBytes(Zeros(k) + b) == FromBytes(b)
  {
    if b != [] {
      LeadingZeros(k, b[..|b|-1]);
      assert (Zeros(k) + b)[..k+|b|-1] == Zeros(k) + b[..|b|-1];
    } else {
      assert Zeros(k) + b == Zeros(k);
      if k > 0 {
        LeadingZeros(k - 1, []);
        assert Zeros(k)[..k-1] == Zeros(k - 1) + [];
      }
    }
  }

  // ---------- words ----------

  // A `uint256`.
  function Word(v: nat): (r: Bytes)
    ensures |r| == 32
  {
    BigEndian(v, 32)
  }

  // An `address`: twelve zero bytes and the twenty of the address.
  function AddressWord(a: Bytes): (r: Bytes)
    requires |a| == 20
    ensures |r| == 32
  {
    Zeros(12) + a
  }

  // The harness's own 64-bit word: a zeroed word with the last eight bytes overwritten.
  function WordU64(v: nat): (r: Bytes)
    ensures |r| == 32
  {
    Zeros(32)[..24] + BigEndian(v, 8)
  }

  lemma WordLimits()
    ensures Pow256(8) == TWO_64 && Pow256(32) == TWO_256
  {
    assert Pow256(4) == 0x1_0000_0000;
    assert Pow256(16) == 0x1_0000_0000_0000_0000_0000_0000_0000_0000;
    assert Pow256(24) == 0x1_0000_0000_0000_0000_0000_0000_0000_0000_0000_0000_0000_0000;
  }

  lemma WordReads(v: nat)
    requires v < TWO_256
    ensures FromBytes(Word(v)) == v
  {
    WordLimits();
    FromBigEndian(v, 32);
  }

  lemma ReadsWord(w: Bytes)
    requires |w| == 32
    ensures FromBytes(w) < TWO_256 && Word(FromBytes(w)) == w
  {
    WordLimits();
    ToBigEndian(w);
  }

  lemma WordU64IsWord(v: nat)
    requires v < TWO_64
    ensures WordU64(v) == Word(v)
  {
    WordLimits();
    FromBigEndian(v, 8);
    assert Zeros(32)[..24] == Zeros(24);
    LeadingZeros(24, BigEndian(v, 8));
    ReadsWord(WordU64(v));
  }

  // ---------- byte strings ----------

  function PadLength(n: nat): nat {
    (32 - n % 32) % 32
  }

  lemma PadsToWholeWords(n: nat)
    ensures PadLength(n) < 32 && (n + PadLength(n)) % 32 == 0 == (32 + n + PadLength(n)) % 32
    ensures (32 + n + 31) / 32 * 32 == 32 + n + PadLength(n)
  {
  }

  // The tail of a `bytes` argument.
  function BytesTail(b: Bytes): (r: Bytes)
    ensures |r| == 32 + |b| + PadLength(|b|)
  {
    Word(|b|) + b + Zeros(PadLength(|b|))
  }

  // A strict reader of a tail at `offset`: the content and where it ends.
  function ReadBytes(body: Bytes, offset: nat): Option<(Bytes, nat)> {
    if |body| < offset + 32 then None
    else
      var len := FromBytes(body[offset..offset+32]);
      var start := offset + 32;
      var end := start + len + PadLength(len);
      if |body| < end then None
      else if body[start+len..end] != Zeros(PadLength(len)) then None
      else Some((body[start..start+len], end))
  }

  lemma SubSlice(body: Bytes, offset: nat, part: Bytes, i: nat, j: nat)
    requires offset + |part| <= |body| && body[offset..offset+|part|] == part && i <= j <= |part|
    ensures body[offset+i..offset+j] == part[i..j]
  {
    var whole, slice := body[offset..offset+|part|], body[offset+i..offset+j];
    assert |slice| == |whole[i..j]|;
    forall k | 0 <= k < j - i ensures slice[k] == whole[i..j][k] {
    }
  }

  lemma TailParts(b: Bytes)
    ensures BytesTail(b)[0..32] == Word(|b|) && BytesTail(b)[32..32+|b|] == b
    ensures BytesTail(b)[32+|b|..|BytesTail(b)|] == Zeros(PadLength(|b|))
  {
  }

  lemma ReadsItsTail(body: Bytes, offset: nat, b: Bytes)
    requires |b| < TWO_256
    requires offset + |BytesTail(b)| <= |body| && body[offset..offset+|BytesTail(b)|] == BytesTail(b)
    ensures ReadBytes(body, offset) == Some((b, offset + |BytesTail(b)|))
  {
    var tail := BytesTail(b);
    TailParts(b);
    SubSlice(body, offset, tail, 0, 32);
    SubSlice(body, offset, tail, 32, 32 + |b|);
    SubSlice(body, offset, tail, 32 + |b|, |tail|);
    WordReads(|b|);
  }

  lemma ReadMeansTail(body: Bytes, offset: nat)
    requires ReadBytes(body, offset).Some?
    ensures var (b, end) := ReadBytes(body, offset).value;
            offset <= end <= |body| && body[offset..end] == BytesTail(b)
  {
    var (b, end) := ReadBytes(body, offset).value;
    var start := offset + 32;
    ReadsWord(body[offset..start]);
    assert body[offset..end] == body[offset..start] + body[start..start+|b|] + body[start+|b|..end];
  }
}
