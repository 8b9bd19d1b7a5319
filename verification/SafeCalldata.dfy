/**
 The hand-written calldata of the one-time Curvy grant: a Safe `execTransaction` around a module
 `scopeTargetToken`, a pre-validated signature, and the `tryGetTarget` pre-check. A strict reader of
 the ABI is the reference each encoder is held against.
 */
module SafeCalldata {
  import opened Wrappers
  import opened ByteStrings
  import opened MachineWords
  import opened AbiWords

  const TRY_GET_TARGET_SELECTOR: Bytes := [0xdf, 0x4e, 0x6f, 0x8a]
  const SCOPE_TARGET_TOKEN_SELECTOR: Bytes := [0xa7, 0x6c, 0x9a, 0x2f]
  const EXEC_TRANSACTION_SELECTOR: Bytes := [0x6a, 0x76, 0x12, 0x02]
  const HEAD_LEN: nat := 320

  type Address = a: Bytes | |a| == 20 witness Zeros(20)

  datatype ExecArgs = ExecArgs(
    to: Address, value: nat, data: Bytes, operation: nat,
    safeTxGas: nat, baseGas: nat, gasPrice: nat,
    gasToken: Address, refundReceiver: Address, signatures: Bytes)

  // ---------- the ABI, strictly ----------

  function UintAt(body: Bytes, i: nat): nat
    requires 32 * (i + 1) <= |body|
  {
    FromBytes(body[32*i..32*i+32])
  }

  function AddressAt(body: Bytes, i: nat): Option<Address>
    requires 32 * (i + 1) <= |body|
  {
    if body[32*i..32*i+12] == Zeros(12) then Some(body[32*i+12..32*i+32]) else None
  }

  /** Reads `execTransaction` calldata, accepting only the canonical layout: clean address and uint8
      words, each offset pointing right behind what precedes it, zero padding, nothing left over. */
  function DecodeExec(calldata: Bytes): Option<ExecArgs> {
    if |calldata| < 4 + HEAD_LEN || calldata[..4] != EXEC_TRANSACTION_SELECTOR then None
    else DecodeBody(calldata[4..])
  }

  function DecodeBody(body: Bytes): Option<ExecArgs>
    requires |body| >= HEAD_LEN
  {
    var to, gasToken, refund := AddressAt(body, 0), AddressAt(body, 7), AddressAt(body, 8);
    if to.None? || gasToken.None? || refund.None? || UintAt(body, 3) >= 256 || UintAt(body, 2) != HEAD_LEN then None
    else
      var data := ReadBytes(body, HEAD_LEN);
      if data.None? || UintAt(body, 9) != data.value.1 then None
      else
        var signatures := ReadBytes(body, data.value.1);
        if signatures.None? || signatures.value.1 != |body| then None
        else Some(ExecArgs(to.value, UintAt(body, 1), data.value.0, UintAt(body, 3), UintAt(body, 4),
                           UintAt(body, 5), UintAt(body, 6), gasToken.value, refund.value, signatures.value.0))
  }

  // The canonical head: ten words, the two dynamic arguments given by their offsets.
  function HeadWords(args: ExecArgs): (r: seq<Bytes>)
    ensures |r| == 10 && forall i :: 0 <= i < 10 ==> |r[i]| == 32
  {
    [AddressWord(args.to), Word(args.value), Word(HEAD_LEN), Word(args.operation), Word(args.safeTxGas),
     Word(args.baseGas), Word(args.gasPrice), AddressWord(args.gasToken), AddressWord(args.refundReceiver),
     Word(HEAD_LEN + |BytesTail(args.data)|)]
  }

  predicate WordIs(body: Bytes, i: nat, w: Bytes) {
    32 * (i + 1) <= |body| && body[32*i..32*i+32] == w
  }

  function Flatten(words: seq<Bytes>): Bytes {
    if words == [] then [] else Flatten(words[..|words|-1]) + words[|words|-1]
  }

  function Body(args: ExecArgs): Bytes {
    Flatten(HeadWords(args)) + BytesTail(args.data) + BytesTail(args.signatures)
  }

  function Calldata(args: ExecArgs): Bytes {
    EXEC_TRANSACTION_SELECTOR + Body(args)
  }

  // Every argument fits its type.
  predicate Fits(args: ExecArgs) {
    && args.value < TWO_256 && args.operation < 256
    && args.safeTxGas < TWO_256 && args.baseGas < TWO_256 && args.gasPrice < TWO_256
    && HEAD_LEN + 32 + |args.data| + PadLength(|args.data|) < TWO_256 && |args.signatures| < TWO_256
  }

  lemma {:induction false} FlattenWords(words: seq<Bytes>)
    requires forall i :: 0 <= i < |words| ==> |words[i]| == 32
    ensures |Flatten(words)| == 32 * |words|
    ensures forall i | 0 <= i < |words| :: WordIs(Flatten(words), i, words[i])
  {
    if words != [] {
      var n := |words| - 1;
      FlattenWords(words[..n]);
      var init := Flatten(words[..n]);
      forall i | 0 <= i < |words| ensures WordIs(Flatten(words), i, words[i]) {
        if i < n {
          assert WordIs(init, i, words[..n][i]);
          assert (init + words[n])[32*i..32*i+32] == init[32*i..32*i+32];
        } else {
          assert (init + words[n])[|init|..|init|+32] == words[n];
        }
      }
    }
  }

  lemma {:induction false} FlattenIs(body: Bytes, words: seq<Bytes>)
    requires |body| == 32 * |words| && forall i | 0 <= i < |words| :: WordIs(body, i, words[i])
    ensures Flatten(words) == body
  {
    if words != [] {
      var n := |words| - 1;
      var init := body[..32*n];
      forall i | 0 <= i < n ensures WordIs(init, i, words[..n][i]) {
        assert WordIs(body, i, words[i]);
        assert init[32*i..32*i+32] == body[32*i..32*i+32];
      }
      FlattenIs(init, words[..n]);
      assert WordIs(body, n, words[n]);
      assert body == init + body[32*n..32*n+32];
    }
  }

  lemma AddressWordReads(body: Bytes, i: nat, a: Address)
    requires WordIs(body, i, AddressWord(a))
    ensures AddressAt(body, i) == Some(a)
  {
    assert body[32*i..32*i+12] == body[32*i..32*i+32][..12];
    assert body[32*i+12..32*i+32] == body[32*i..32*i+32][12..];
  }

  lemma UintReads(body: Bytes, i: nat, v: nat)
    requires WordIs(body, i, Word(v)) && v < TWO_256
    ensures UintAt(body, i) == v
  {
    WordReads(v);
  }

  // A body that starts with the canonical head reads its ten words back.
  ghost predicate StartsWith(body: Bytes, words: seq<Bytes>) {
    forall i | 0 <= i < |words| :: WordIs(body, i, words[i])
  }

  lemma HeadWordsAreThere(body: Bytes, words: seq<Bytes>)
    requires forall i :: 0 <= i < |words| ==> |words[i]| == 32
    requires |Flatten(words)| <= |body| && body[..|Flatten(words)|] == Flatten(words)
    ensures StartsWith(body, words)
  {
    FlattenWords(words);
    var head := Flatten(words);
    forall i | 0 <= i < |words| ensures WordIs(body, i, words[i]) {
      assert WordIs(head, i, words[i]);
      assert body[0..|head|] == head;
      SubSlice(body, 0, head, 32 * i, 32 * i + 32);
    }
  }

  lemma HeadAddressesRead(args: ExecArgs, body: Bytes)
    requires StartsWith(body, HeadWords(args)) && |body| >= HEAD_LEN
    ensures AddressAt(body, 0) == Some(args.to)
    ensures AddressAt(body, 7) == Some(args.gasToken) && AddressAt(body, 8) == Some(args.refundReceiver)
  {
    var words := HeadWords(args);
    assert WordIs(body, 0, words[0]) && WordIs(body, 7, words[7]) && WordIs(body, 8, words[8]);
    AddressWordReads(body, 0, args.to);
    AddressWordReads(body, 7, args.gasToken);
    AddressWordReads(body, 8, args.refundReceiver);
  }

  // Which head word carries which number.
  predicate UintWord(args: ExecArgs, i: nat, v: nat) {
    || (i == 1 && v == args.value) || (i == 2 && v == HEAD_LEN) || (i == 3 && v == args.operation)
    || (i == 4 && v == args.safeTxGas) || (i == 5 && v == args.baseGas) || (i == 6 && v == args.gasPrice)
    || (i == 9 && v == HEAD_LEN + |BytesTail(args.data)|)
  }

  lemma UintWordIs(args: ExecArgs, i: nat, v: nat)
    requires UintWord(args, i, v)
    ensures i < 10 && HeadWords(args)[i] == Word(v)
  {
  }

  lemma HeadUintReads(args: ExecArgs, body: Bytes, i: nat, v: nat)
    requires StartsWith(body, HeadWords(args)) && |body| >= HEAD_LEN && UintWord(args, i, v) && v < TWO_256
    ensures UintAt(body, i) == v
  {
    UintWordIs(args, i, v);
    assert WordIs(body, i, HeadWords(args)[i]);
    UintReads(body, i, v);
  }

  lemma HeadUintsRead(args: ExecArgs, body: Bytes)
    requires Fits(args) && StartsWith(body, HeadWords(args)) && |body| >= HEAD_LEN
    ensures UintAt(body, 1) == args.value && UintAt(body, 2) == HEAD_LEN && UintAt(body, 3) == args.operation
    ensures UintAt(body, 4) == args.safeTxGas && UintAt(body, 5) == args.baseGas && UintAt(body, 6) == args.gasPrice
    ensures UintAt(body, 9) == HEAD_LEN + |BytesTail(args.data)|
  {
    forall i, v | UintWord(args, i, v) ensures UintAt(body, i) == v {
      HeadUintReads(args, body, i, v);
    }
    assert UintWord(args, 1, args.value) && UintWord(args, 2, HEAD_LEN) && UintWord(args, 3, args.operation);
    assert UintWord(args, 4, args.safeTxGas) && UintWord(args, 5, args.baseGas) && UintWord(args, 6, args.gasPrice);
    assert UintWord(args, 9, HEAD_LEN + |BytesTail(args.data)|);
  }

  lemma Parts(a: Bytes, b: Bytes, c: Bytes)
    ensures (a + b + c)[..|a|] == a
    ensures (a + b + c)[|a|..|a|+|b|] == b
    ensures (a + b + c)[|a|+|b|..|a|+|b|+|c|] == c
  {
  }

  lemma Prefixed(selector: Bytes, body: Bytes)
    requires |selector| == 4
    ensures (selector + body)[..4] == selector && (selector + body)[4..] == body
  {
  }

  lemma DecodesAfterSelector(calldata: Bytes, body: Bytes)
    requires calldata == EXEC_TRANSACTION_SELECTOR + body && |body| >= HEAD_LEN
    ensures DecodeExec(calldata) == DecodeBody(body)
  {
    Prefixed(EXEC_TRANSACTION_SELECTOR, body);
  }

  lemma WholeWords(a: nat, b: nat)
    requires a % 32 == 0 && b % 32 == 0
    ensures (4 + HEAD_LEN + a + b) % 32 == 4
  {
  }

  lemma TailIsWholeWords(b: Bytes)
    ensures |BytesTail(b)| % 32 == 0
  {
    PadsToWholeWords(|b|);
  }

  // A selector and whole words.
  lemma CalldataLength(args: ExecArgs)
    ensures |Calldata(args)| == 4 + HEAD_LEN + |BytesTail(args.data)| + |BytesTail(args.signatures)|
    ensures |Calldata(args)| % 32 == 4
  {
    FlattenWords(HeadWords(args));
    TailIsWholeWords(args.data);
    TailIsWholeWords(args.signatures);
    WholeWords(|BytesTail(args.data)|, |BytesTail(args.signatures)|);
  }

  function WordAt(calldata: Bytes, i: nat): Bytes
    requires 4 + 32 * (i + 1) <= |calldata|
  {
    calldata[4 + 32*i..36 + 32*i]
  }

  /** Where everything stands in the calldata: the selector, the ten head words in the order of the
      signature, and behind them the two byte strings, each with its length, padded with zeros. */
  lemma CalldataLayout(args: ExecArgs)
    ensures var c, end := Calldata(args), 320 + |BytesTail(args.data)|;
            && |c| == 4 + end + |BytesTail(args.signatures)| && c[..4] == [0x6a, 0x76, 0x12, 0x02]
            && WordAt(c, 0) == Zeros(12) + args.to && WordAt(c, 1) == Word(args.value) && WordAt(c, 2) == Word(320)
            && WordAt(c, 3) == Word(args.operation) && WordAt(c, 4) == Word(args.safeTxGas)
            && WordAt(c, 5) == Word(args.baseGas) && WordAt(c, 6) == Word(args.gasPrice)
            && WordAt(c, 7) == Zeros(12) + args.gasToken && WordAt(c, 8) == Zeros(12) + args.refundReceiver
            && WordAt(c, 9) == Word(end)
            && c[324..4 + end] == Word(|args.data|) + args.data + Zeros((32 - |args.data| % 32) % 32)
            && c[4 + end..] == Word(|args.signatures|) + args.signatures + Zeros((32 - |args.signatures| % 32) % 32)
  {
    var body, words := Body(args), HeadWords(args);
    BodyShape(args);
    FlattenWords(words);
    HeadWordsAreThere(body, words);
    Prefixed(EXEC_TRANSACTION_SELECTOR, body);
    forall i | 0 <= i < 10 ensures WordAt(Calldata(args), i) == words[i] {
      assert WordIs(body, i, words[i]);
      WordBehindSelector(body, i);
    }
    var end := 320 + |BytesTail(args.data)|;
    assert Calldata(args)[324..4 + end] == body[320..end];
    assert Calldata(args)[4 + end..] == body[end..|body|];
  }

  lemma WordBehindSelector(body: Bytes, i: nat)
    requires 32 * (i + 1) <= |body|
    ensures WordAt(EXEC_TRANSACTION_SELECTOR + body, i) == body[32*i..32*i+32]
  {
  }

  /** Reading the canonical calldata gives back the arguments, whatever they are. */
  lemma DecodesWhatWasEncoded(args: ExecArgs)
    requires Fits(args)
    ensures DecodeExec(Calldata(args)) == Some(args)
  {
    BodyDecodes(args);
    DecodesAfterSelector(Calldata(args), Body(args));
  }

  lemma BodyShape(args: ExecArgs)
    ensures var body, dataEnd := Body(args), HEAD_LEN + |BytesTail(args.data)|;
            && |body| == dataEnd + |BytesTail(args.signatures)|
            && body[..HEAD_LEN] == Flatten(HeadWords(args))
            && body[HEAD_LEN..dataEnd] == BytesTail(args.data)
            && body[dataEnd..|body|] == BytesTail(args.signatures)
  {
    FlattenWords(HeadWords(args));
    Parts(Flatten(HeadWords(args)), BytesTail(args.data), BytesTail(args.signatures));
  }

  lemma BodyHead(args: ExecArgs)
    ensures StartsWith(Body(args), HeadWords(args))
  {
    BodyShape(args);
    FlattenWords(HeadWords(args));
    HeadWordsAreThere(Body(args), HeadWords(args));
  }

  lemma DataReads(args: ExecArgs)
    requires Fits(args)
    ensures |Body(args)| >= HEAD_LEN
    ensures ReadBytes(Body(args), HEAD_LEN) == Some((args.data, HEAD_LEN + |BytesTail(args.data)|))
  {
    BodyShape(args);
    ReadsItsTail(Body(args), HEAD_LEN, args.data);
  }

  lemma SignaturesRead(args: ExecArgs)
    requires Fits(args)
    ensures ReadBytes(Body(args), HEAD_LEN + |BytesTail(args.data)|) == Some((args.signatures, |Body(args)|))
  {
    BodyShape(args);
    ReadsItsTail(Body(args), HEAD_LEN + |BytesTail(args.data)|, args.signatures);
  }

  lemma BodyDecodes(args: ExecArgs)
    requires Fits(args)
    ensures |Body(args)| == HEAD_LEN + |BytesTail(args.data)| + |BytesTail(args.signatures)|
    ensures DecodeBody(Body(args)) == Some(args)
  {
    BodyShape(args);
    BodyHead(args);
    DataReads(args);
    SignaturesRead(args);
    HeadAddressesRead(args, Body(args));
    HeadUintsRead(args, Body(args));
  }

  lemma AddressReads(body: Bytes, i: nat)
    requires 32 * (i + 1) <= |body| && AddressAt(body, i).Some?
    ensures body[32*i..32*i+32] == AddressWord(AddressAt(body, i).value)
  {
    assert body[32*i..32*i+32] == body[32*i..32*i+12] + body[32*i+12..32*i+32];
  }

  // The head words of accepted calldata are the canonical words of what was read.
  lemma AddressesAreCanonical(body: Bytes)
    requires |body| >= HEAD_LEN && DecodeBody(body).Some?
    ensures var words := HeadWords(DecodeBody(body).value);
            WordIs(body, 0, words[0]) && WordIs(body, 7, words[7]) && WordIs(body, 8, words[8])
  {
    AddressReads(body, 0);
    AddressReads(body, 7);
    AddressReads(body, 8);
  }

  lemma UintIsCanonical(body: Bytes, i: nat)
    requires 32 * (i + 1) <= |body|
    ensures WordIs(body, i, Word(UintAt(body, i)))
  {
    ReadsWord(body[32*i..32*i+32]);
  }

  lemma ReadUintWord(body: Bytes, i: nat)
    requires |body| >= HEAD_LEN && DecodeBody(body).Some? && i in {1, 2, 3, 4, 5, 6, 9}
    ensures UintWord(DecodeBody(body).value, i, UintAt(body, i))
  {
    ReadMeansTail(body, HEAD_LEN);
  }

  lemma UintsAreCanonical(body: Bytes, i: nat)
    requires |body| >= HEAD_LEN && DecodeBody(body).Some? && i in {1, 2, 3, 4, 5, 6, 9}
    ensures WordIs(body, i, HeadWords(DecodeBody(body).value)[i])
  {
    ReadUintWord(body, i);
    UintWordIs(DecodeBody(body).value, i, UintAt(body, i));
    UintIsCanonical(body, i);
  }

  lemma HeadIsCanonical(body: Bytes)
    requires |body| >= HEAD_LEN && DecodeBody(body).Some?
    ensures body[..HEAD_LEN] == Flatten(HeadWords(DecodeBody(body).value))
  {
    var words, head := HeadWords(DecodeBody(body).value), body[..HEAD_LEN];
    AddressesAreCanonical(body);
    forall i | 0 <= i < 10 ensures WordIs(head, i, words[i]) {
      if i in {1, 2, 3, 4, 5, 6, 9} {
        UintsAreCanonical(body, i);
      }
      assert head[32*i..32*i+32] == body[32*i..32*i+32];
    }
    FlattenIs(head, words);
  }

  lemma DecodedTails(body: Bytes)
    requires |body| >= HEAD_LEN && DecodeBody(body).Some?
    ensures var args := DecodeBody(body).value;
            var dataEnd := HEAD_LEN + |BytesTail(args.data)|;
            && dataEnd <= |body| && body[HEAD_LEN..dataEnd] == BytesTail(args.data)
            && body[dataEnd..] == BytesTail(args.signatures)
  {
    var dataEnd := ReadBytes(body, HEAD_LEN).value.1;
    ReadMeansTail(body, HEAD_LEN);
    ReadMeansTail(body, dataEnd);
    assert body[dataEnd..] == body[dataEnd..|body|];
  }

  lemma ThreeParts(body: Bytes, i: nat, j: nat)
    requires i <= j <= |body|
    ensures body == body[..i] + body[i..j] + body[j..]
  {
  }

  lemma BodyOfDecoded(body: Bytes)
    requires |body| >= HEAD_LEN && DecodeBody(body).Some?
    ensures Body(DecodeBody(body).value) == body
  {
    HeadIsCanonical(body);
    DecodedTails(body);
    ThreeParts(body, HEAD_LEN, HEAD_LEN + |BytesTail(DecodeBody(body).value.data)|);
  }

  /** Calldata the strict reader accepts is the canonical calldata of what it read: one encoding each. */
  lemma EncodesWhatWasDecoded(calldata: Bytes)
    requires DecodeExec(calldata).Some?
    ensures Calldata(DecodeExec(calldata).value) == calldata
  {
    BodyOfDecoded(calldata[4..]);
    assert calldata == calldata[..4] + calldata[4..];
  }

  // ---------- the encoders ----------

  // Length word, content, then zeros up to a multiple of 32.
  method Padded(bytes: Bytes) returns (out: Bytes)
    requires |bytes| < TWO_64
    ensures out == BytesTail(bytes)
  {
    out := WordU64(|bytes|);
    WordU64IsWord(|bytes|);
    out := out + bytes;
    PadsToWholeWords(|bytes|);
    var size := (|out| + 31) / 32 * 32;
    out := out + Zeros(size - |out|);
  }

  function ExecArgsOf(to: Address, data: Bytes, signatures: Bytes): ExecArgs {
    ExecArgs(to, 0, data, 0, 0, 0, 0, Zeros(20), Zeros(20), signatures)
  }

  // The ten head words; the two `bytes` arguments are offsets into the tail.
  method EncodeHead(to: Address, signaturesOffset: nat) returns (out: Bytes)
    requires signaturesOffset < TWO_64
    ensures out == Flatten([AddressWord(to), Word(0), Word(HEAD_LEN), Word(0), Word(0), Word(0), Word(0),
                            AddressWord(Zeros(20)), AddressWord(Zeros(20)), Word(signaturesOffset)])
  {
    WordU64IsWord(0);
    WordU64IsWord(HEAD_LEN);
    WordU64IsWord(signaturesOffset);
    assert Zeros(32) == AddressWord(Zeros(20));
    out := [];
    out := out + AddressWord(to);
    out := out + WordU64(0);
    out := out + WordU64(HEAD_LEN);
    out := out + WordU64(0);
    out := out + WordU64(0);
    out := out + WordU64(0);
    out := out + WordU64(0);
    out := out + Zeros(32);
    out := out + Zeros(32);
    out := out + WordU64(signaturesOffset);
    FlattenTen([AddressWord(to), Word(0), Word(HEAD_LEN), Word(0), Word(0), Word(0), Word(0),
                AddressWord(Zeros(20)), AddressWord(Zeros(20)), Word(signaturesOffset)]);
  }

  /** Lengths and offsets are written as 64-bit words, so both must fit; they do for any Rust slice. */
  method EncodeExecTransaction(to: Address, data: Bytes, signatures: Bytes) returns (out: Bytes)
    requires HEAD_LEN + |BytesTail(data)| < TWO_64 && |signatures| < TWO_64
    ensures DecodeExec(out) == Some(ExecArgs(to, 0, data, 0, 0, 0, 0, Zeros(20), Zeros(20), signatures))
    ensures out == Calldata(ExecArgsOf(to, data, signatures))
    ensures |out| % 32 == 4
  {
    ghost var args := ExecArgsOf(to, data, signatures);
    var dataTail := Padded(data);
    var head := EncodeHead(to, HEAD_LEN + |dataTail|);
    out := EXEC_TRANSACTION_SELECTOR + head;
    out := out + dataTail;
    var signaturesTail := Padded(signatures);
    out := out + signaturesTail;
    AssembledIsCalldata(to, data, signatures, head);
    CalldataLength(args);
    DecodesWhatWasEncoded(args);
  }

  lemma AssembledIsCalldata(to: Address, data: Bytes, signatures: Bytes, head: Bytes)
    requires head == Flatten([AddressWord(to), Word(0), Word(HEAD_LEN), Word(0), Word(0), Word(0), Word(0),
                              AddressWord(Zeros(20)), AddressWord(Zeros(20)), Word(HEAD_LEN + |BytesTail(data)|)])
    ensures EXEC_TRANSACTION_SELECTOR + head + BytesTail(data) + BytesTail(signatures)
         == Calldata(ExecArgsOf(to, data, signatures))
  {
    Associates(EXEC_TRANSACTION_SELECTOR, head, BytesTail(data), BytesTail(signatures));
  }

  lemma Associates(a: Bytes, b: Bytes, c: Bytes, d: Bytes)
    ensures a + b + c + d == a + (b + c + d)
  {
  }

  lemma FlattenTen(w: seq<Bytes>)
    requires |w| == 10
    ensures Flatten(w) == [] + w[0] + w[1] + w[2] + w[3] + w[4] + w[5] + w[6] + w[7] + w[8] + w[9]
  {
    assert Flatten(w[..0]) == [];
    forall i | 0 <= i < 10 ensures Flatten(w[..i+1]) == Flatten(w[..i]) + w[i] {
      assert w[..i+1][..i] == w[..i];
    }
    assert w[..10] == w;
    assert w[..9+1] == w && w[..8+1] == w[..9] && w[..7+1] == w[..8] && w[..6+1] == w[..7] && w[..5+1] == w[..6];
    assert w[..4+1] == w[..5] && w[..3+1] == w[..4] && w[..2+1] == w[..3] && w[..1+1] == w[..2] && w[..0+1] == w[..1];
  }

  // ---------- the inner call and its signature ----------

  // The module's packed target: address, clearance FUNCTION, type TOKEN, permission ALLOW_ALL.
  function EncodeTarget(a: Address): (word: Bytes)
    ensures |word| == 32
  {
    a + [0x01, 0x00, 0x03] + Zeros(9)
  }

  function DecodeTarget(word: Bytes): Option<Address> {
    if |word| == 32 && word[20..] == [0x01, 0x00, 0x03] + Zeros(9) then Some(word[..20]) else None
  }

  function EncodeScopeTargetToken(target: Bytes): (calldata: Bytes)
    requires |target| == 32
    ensures |calldata| == 36
  {
    SCOPE_TARGET_TOKEN_SELECTOR + target
  }

  function DecodeScopeTargetToken(calldata: Bytes): Option<Bytes> {
    if |calldata| == 36 && calldata[..4] == SCOPE_TARGET_TOKEN_SELECTOR then Some(calldata[4..]) else None
  }

  // `r` = owner, `s` = 0, `v` = 1, written into a zeroed buffer.
  method PrevalidatedSignature(owner: Address) returns (signature: Bytes)
    ensures |signature| == 65 && DecodePrevalidated(signature) == Some(owner)
    ensures signature == Zeros(12) + owner + Zeros(32) + [0x01]
  {
    signature := Zeros(65);
    signature := signature[..12] + owner + signature[32..];
    signature := signature[64 := 0x01];
    assert signature[12..32] == owner;
    assert signature[..12] == Zeros(12);
    assert forall i | 32 <= i < 64 :: signature[i] == 0;
  }

  // The owner a pre-validated signature names.
  function DecodePrevalidated(signature: Bytes): Option<Address> {
    if |signature| == 65 && signature[..12] == Zeros(12) && signature[32..64] == Zeros(32) && signature[64] == 1
    then Some(signature[12..32]) else None
  }

  // The inner call names the aggregator.
  lemma ScopesTheAggregator(aggregator: Address)
    ensures DecodeScopeTargetToken(EncodeScopeTargetToken(EncodeTarget(aggregator))) == Some(EncodeTarget(aggregator))
    ensures DecodeTarget(EncodeTarget(aggregator)) == Some(aggregator)
  {
    var target := EncodeTarget(aggregator);
    assert EncodeScopeTargetToken(target)[4..] == target;
    assert target[20..] == [0x01, 0x00, 0x03] + Zeros(9) && target[..20] == aggregator;
  }

  /** The whole grant: who is called, what is scoped and who signs can all be read back. */
  method GrantCalldata(safeModule: Address, aggregator: Address, owner: Address) returns (out: Bytes)
    ensures DecodeExec(out).Some?
    ensures var args := DecodeExec(out).value;
            && args == ExecArgsOf(safeModule, args.data, args.signatures)
            && args.data == EncodeScopeTargetToken(EncodeTarget(aggregator))
            && args.data == [0xa7, 0x6c, 0x9a, 0x2f] + (aggregator + [0x01, 0x00, 0x03] + Zeros(9))
            && args.signatures == Zeros(12) + owner + Zeros(32) + [0x01]
            && DecodeScopeTargetToken(args.data).Some?
            && DecodeTarget(DecodeScopeTargetToken(args.data).value) == Some(aggregator)
            && DecodePrevalidated(args.signatures) == Some(owner)
  {
    var scope := EncodeScopeTargetToken(EncodeTarget(aggregator));
    var signature := PrevalidatedSignature(owner);
    out := EncodeExecTransaction(safeModule, scope, signature);
    ScopesTheAggregator(aggregator);
  }

  // ---------- the pre-check ----------

  method EncodeTryGetTarget(target: Address) returns (data: Bytes)
    ensures |data| == 36 && data[..4] == TRY_GET_TARGET_SELECTOR
    ensures data == [0xdf, 0x4e, 0x6f, 0x8a] + (Zeros(12) + target)
    ensures AddressAt(data[4..], 0) == Some(target)
  {
    data := TRY_GET_TARGET_SELECTOR;
    data := data + Zeros(12);
    data := data + target;
    assert data[4..] == Zeros(12) + target;
    assert data[4..][0..12] == Zeros(12) && data[4..][12..32] == target;
  }

  // How decoding ends; slicing a string inside a multi-byte character panics.
  datatype Answer = Scoped(yes: bool) | Malformed | Panic

  function HexDigit(c: byte): Option<nat> {
    if 0x30 <= c <= 0x39 then Some(c - 0x30)
    else if 0x41 <= c <= 0x46 then Some(c - 0x37)
    else if 0x61 <= c <= 0x66 then Some(c - 0x57)
    else None
  }

  /** Digits, and letters in either case. */
  lemma HexDigitsAre(c: byte, d: nat)
    ensures HexDigit(c) == Some(d)
            <==> (d < 10 && c == 0x30 + d) || (10 <= d < 16 && (c == 0x41 + (d - 10) || c == 0x61 + (d - 10)))
  {
  }

  predicate AllHex(s: Bytes) {
    forall i | 0 <= i < |s| :: HexDigit(s[i]).Some?
  }

  function TrimZeroDigits(s: Bytes): Bytes {
    if s != [] && s[0] == 0x30 then TrimZeroDigits(s[1..]) else s
  }

  function StripHexPrefix(s: Bytes): Bytes {
    if |s| >= 2 && s[0] == 0x30 && s[1] == 0x78 then s[2..] else s
  }

  // The bool of a returned `(bool, uint256)`, given as the UTF-8 bytes of a hex string.
  function DecodeTryGetTarget(returned: Bytes): Answer {
    var hex := StripHexPrefix(returned);
    if |hex| < 128 then Malformed
    else if IsContinuation(hex[64]) then Panic
    else if !AllHex(hex[..64]) then Malformed
    else Scoped(TrimZeroDigits(hex[..64]) == [0x31])
  }

  function Pow16(n: nat): (p: nat)
    ensures p >= 1 && (n > 0 ==> p >= 16)
  {
    if n == 0 then 1 else 16 * Pow16(n - 1)
  }

  function HexNumber(s: Bytes): nat
    requires AllHex(s)
  {
    if s == [] then 0 else HexDigit(s[0]).value * Pow16(|s| - 1) + HexNumber(s[1..])
  }

  lemma LeadingDigit(d: nat, k: nat)
    requires d >= 1
    ensures d * Pow16(k) >= Pow16(k) >= 1 && (k >= 1 ==> Pow16(k) >= 16)
  {
  }

  lemma {:induction false} TrimmedToOneIffOne(s: Bytes)
    requires AllHex(s)
    ensures TrimZeroDigits(s) == [0x31] <==> HexNumber(s) == 1
  {
    if s != [] {
      if s[0] == 0x30 {
        TrimmedToOneIffOne(s[1..]);
      } else {
        LeadingDigit(HexDigit(s[0]).value, |s| - 1);
        if |s| == 1 {
          assert s == [s[0]] && HexNumber(s[1..]) == 0;
        }
      }
    }
  }

  predicate IsContinuation(c: byte) {
    0x80 <= c < 0xC0
  }

  // What every string guarantees of its bytes: a continuation byte is not at the start nor after ASCII.
  predicate IsUtf8(s: Bytes) {
    forall i | 0 <= i < |s| && IsContinuation(s[i]) :: i > 0 && s[i-1] >= 0x80
  }

  /** For every string: it answers exactly when there are two words of which the first is hex, and then
      by its value; it panics exactly when there are two words and a character straddles the cut. */
  lemma AnswersByTheFirstWord(returned: Bytes)
    requires IsUtf8(returned)
    ensures var hex, answer := StripHexPrefix(returned), DecodeTryGetTarget(returned);
            && (answer.Scoped? <==> |hex| >= 128 && AllHex(hex[..64]))
            && (answer.Scoped? ==> (answer.yes <==> HexNumber(hex[..64]) == 1))
            && (answer.Panic? <==> |hex| >= 128 && IsContinuation(hex[64]))
  {
    var hex := StripHexPrefix(returned);
    if |hex| >= 128 && AllHex(hex[..64]) {
      assert HexDigit(hex[..64][63]).Some?;
      TrimmedToOneIffOne(hex[..64]);
    }
  }

  function HexChar(d: nat): (c: byte)
    requires d < 16
    ensures HexDigit(c) == Some(d)
  {
    if d < 10 then 0x30 + d else 0x57 + d
  }

  function HexString(b: Bytes): (r: Bytes)
    ensures |r| == 2 * |b| && AllHex(r)
  {
    if b == [] then [] else [HexChar(b[0] / 16), HexChar(b[0] % 16)] + HexString(b[1..])
  }

  lemma {:induction false} HexNumberOfZeros(k: nat, last: byte)
    requires last < 16
    ensures HexNumber(HexString(Zeros(k) + [last])) == last
  {
    var b := Zeros(k) + [last];
    var s := HexString(b);
    assert s[1..][1..] == HexString(b[1..]);
    if k > 0 {
      assert b[1..] == Zeros(k - 1) + [last];
      HexNumberOfZeros(k - 1, last);
      assert HexNumber(s) == HexNumber(s[1..]) == HexNumber(s[1..][1..]);
    } else {
      assert b[1..] == [];
      assert HexNumber(s[1..]) == last by {
        assert Pow16(0) == 1;
      }
    }
  }

  /** Every well-formed answer `(scoped, word)` is read back, with or without the 0x prefix. */
  lemma ReadsEveryAnswer(scoped: bool, word: Bytes, prefixed: bool)
    requires |word| == 32
    ensures var answer := HexString(Zeros(31) + [if scoped then 1 else 0]) + HexString(word);
            DecodeTryGetTarget((if prefixed then [0x30, 0x78] else []) + answer) == Scoped(scoped)
  {
    var flag := Zeros(31) + [if scoped then 1 else 0];
    var answer := HexString(flag) + HexString(word);
    var returned := (if prefixed then [0x30, 0x78] else []) + answer;
    assert HexString(flag)[1] == 0x30 by {
      assert flag[0] == 0;
      assert HexString(flag)[1] == HexChar(0);
    }
    assert StripHexPrefix(returned) == answer;
    assert answer[..64] == HexString(flag);
    assert answer[64] == HexString(word)[0];
    HexNumberOfZeros(31, if scoped then 1 else 0);
    TrimmedToOneIffOne(HexString(flag));
  }
}
