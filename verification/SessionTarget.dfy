/**
 The textual form of a session target: plain text, `$$` and padded URL-safe base64 (section 5 of
 RFC 4648), or `#` and a service number.
 */
module SessionTarget {
  import opened Wrappers
  import opened ByteStrings
  import opened Text

  // ---------- base64 ----------

  // A-Z, a-z, 0-9, minus and underscore, in this order.
  function SextetChar(d: nat): char
    requires d < 64
  {
    if d < 26 then ('A' as int + d) as char
    else if d < 52 then ('a' as int + d - 26) as char
    else if d < 62 then ('0' as int + d - 52) as char
    else if d == 62 then '-' else '_'
  }

  function Sextet(c: char): (r: Option<nat>)
    ensures r.Some? ==> r.value < 64
  {
    if 'A' <= c <= 'Z' then Some(c as int - 'A' as int)
    else if 'a' <= c <= 'z' then Some(c as int - 'a' as int + 26)
    else if '0' <= c <= '9' then Some(c as int - '0' as int + 52)
    else if c == '-' then Some(62)
    else if c == '_' then Some(63)
    else None
  }

  lemma SextetsCorrespond(d: nat, c: char)
    requires d < 64
    ensures Sextet(SextetChar(d)) == Some(d)
    ensures Sextet(c).Some? ==> SextetChar(Sextet(c).value) == c
  {
  }

  lemma LettersAre(d: nat)
    requires d < 26
    ensures "ABCDEFGHIJKLMNOPQRSTUVWXYZ"[d] == ('A' as int + d) as char
    ensures "abcdefghijklmnopqrstuvwxyz"[d] == ('a' as int + d) as char
  {
    assert d == 0 || d == 1 || d == 2 || d == 3 || d == 4 || d == 5 || d == 6 || d == 7 || d == 8 || d == 9 ||
        d == 10 || d == 11 || d == 12 || d == 13 || d == 14 || d == 15 || d == 16 || d == 17 || d == 18 || d
        == 19 || d == 20 || d == 21 || d == 22 || d == 23 || d == 24 || d == 25;
  }

  lemma DigitsAre(d: nat)
    requires d < 10
    ensures "0123456789"[d] == ('0' as int + d) as char
  {
    assert d == 0 || d == 1 || d == 2 || d == 3 || d == 4 || d == 5 || d == 6 || d == 7 || d == 8 || d == 9;
  }

  /** The alphabet of section 5 of RFC 4648, and nothing outside it. */
  lemma AlphabetIs(d: nat, c: char)
    requires d < 64
    ensures var alphabet := "ABCDEFGHIJKLMNOPQRSTUVWXYZ" + "abcdefghijklmnopqrstuvwxyz" + "0123456789" + "-_";
            && |alphabet| == 64 && SextetChar(d) == alphabet[d]
            && (Sextet(c) == Some(d) <==> c == alphabet[d])
  {
    SextetsCorrespond(d, c);
    if d < 26 {
      LettersAre(d);
    } else if d < 52 {
      LettersAre(d - 26);
    } else if d < 62 {
      DigitsAre(d - 52);
    }
  }

  function EncodeGroup(b: Bytes): string
    requires 1 <= |b| <= 3
  {
    if |b| == 1 then [SextetChar(b[0] / 4), SextetChar(b[0] % 4 * 16), '=', '=']
    else if |b| == 2 then
      [SextetChar(b[0] / 4), SextetChar(b[0] % 4 * 16 + b[1] / 16), SextetChar(b[1] % 16 * 4), '=']
    else
      [SextetChar(b[0] / 4), SextetChar(b[0] % 4 * 16 + b[1] / 16),
       SextetChar(b[1] % 16 * 4 + b[2] / 64), SextetChar(b[2] % 64)]
  }

  // The strict inverse: only canonical padding, and no bits left over.
  function DecodeGroup(s: string): Option<Bytes>
    requires |s| == 4
  {
    var v0, v1, v2, v3 := Sextet(s[0]), Sextet(s[1]), Sextet(s[2]), Sextet(s[3]);
    if v0.None? || v1.None? then None
    else if s[2] == '=' then
      if s[3] == '=' && v1.value % 16 == 0 then Some([v0.value * 4 + v1.value / 16]) else None
    else if v2.None? then None
    else if s[3] == '=' then
      if v2.value % 4 == 0
      then Some([v0.value * 4 + v1.value / 16, v1.value % 16 * 16 + v2.value / 4]) else None
    else if v3.None? then None
    else Some([v0.value * 4 + v1.value / 16, v1.value % 16 * 16 + v2.value / 4, v2.value % 4 * 64 + v3.value])
  }

  function EncodeBase64(b: Bytes): string {
    if b == [] then ""
    else if |b| <= 3 then EncodeGroup(b)
    else EncodeGroup(b[..3]) + EncodeBase64(b[3..])
  }

  // Only the last group may be padded.
  function DecodeBase64(s: string): Option<Bytes> {
    if s == "" then Some([])
    else if |s| < 4 then None
    else
      var first := DecodeGroup(s[..4]);
      if first.None? then None
      else if |s| == 4 then first
      else
        var rest := DecodeBase64(s[4..]);
        if |first.value| < 3 || rest.None? then None else Some(first.value + rest.value)
  }

  // Three bytes cut into four sextets and put together again.
  lemma BytesBack(b0: byte, b1: byte, b2: byte)
    ensures var d0, d1, d2, d3 := b0 / 4, b0 % 4 * 16 + b1 / 16, b1 % 16 * 4 + b2 / 64, b2 % 64;
            && d0 < 64 && d1 < 64 && d2 < 64
            && d0 * 4 + d1 / 16 == b0 && d1 % 16 * 16 + d2 / 4 == b1 && d2 % 4 * 64 + d3 == b2
  {
    assert (b0 % 4 * 16 + b1 / 16) / 16 == b0 % 4 && (b0 % 4 * 16 + b1 / 16) % 16 == b1 / 16;
    assert (b1 % 16 * 4 + b2 / 64) / 4 == b1 % 16 && (b1 % 16 * 4 + b2 / 64) % 4 == b2 / 64;
  }

  lemma SextetsBack(v0: nat, v1: nat, v2: nat, v3: nat)
    requires v0 < 64 && v1 < 64 && v2 < 64 && v3 < 64
    ensures var b0, b1, b2 := v0 * 4 + v1 / 16, v1 % 16 * 16 + v2 / 4, v2 % 4 * 64 + v3;
            && b0 < 256 && b1 < 256 && b2 < 256
            && b0 / 4 == v0 && b0 % 4 * 16 + b1 / 16 == v1 && b1 % 16 * 4 + b2 / 64 == v2 && b2 % 64 == v3
  {
    assert (v0 * 4 + v1 / 16) / 4 == v0 && (v0 * 4 + v1 / 16) % 4 == v1 / 16;
    assert (v1 % 16 * 16 + v2 / 4) / 16 == v1 % 16 && (v1 % 16 * 16 + v2 / 4) % 16 == v2 / 4;
    assert (v2 % 4 * 64 + v3) / 64 == v2 % 4;
  }

  lemma GroupDecodes(b: Bytes)
    requires 1 <= |b| <= 3
    ensures DecodeGroup(EncodeGroup(b)) == Some(b)
  {
    var b1, b2 := if |b| >= 2 then b[1] else 0, if |b| == 3 then b[2] else 0;
    var d0, d1, d2, d3 := b[0] / 4, b[0] % 4 * 16 + b1 / 16, b1 % 16 * 4 + b2 / 64, b2 % 64;
    var s := EncodeGroup(b);
    BytesBack(b[0], b1, b2);
    SextetsCorrespond(d0, ' ');
    SextetsCorrespond(d1, ' ');
    SextetsCorrespond(d2, ' ');
    SextetsCorrespond(d3, ' ');
    if |b| == 1 {
      assert s == [SextetChar(d0), SextetChar(d1), '=', '='] && b == [b[0]];
    } else if |b| == 2 {
      assert s == [SextetChar(d0), SextetChar(d1), SextetChar(d2), '='] && b == [b[0], b[1]];
    } else {
      assert s == [SextetChar(d0), SextetChar(d1), SextetChar(d2), SextetChar(d3)] && b == [b[0], b[1], b[2]];
    }
  }

  lemma OneByteEncodes(s: string)
    requires |s| == 4 && DecodeGroup(s).Some? && s[2] == '='
    ensures |DecodeGroup(s).value| == 1 && EncodeGroup(DecodeGroup(s).value) == s
  {
    var v0, v1 := Sextet(s[0]).value, Sextet(s[1]).value;
    SextetsBack(v0, v1, 0, 0);
    SextetsCorrespond(0, s[0]);
    SextetsCorrespond(0, s[1]);
    assert EncodeGroup([v0 * 4 + v1 / 16]) == [SextetChar(v0), SextetChar(v1), '=', '='];
  }

  lemma TwoBytesEncode(s: string)
    requires |s| == 4 && DecodeGroup(s).Some? && s[2] != '=' && s[3] == '='
    ensures |DecodeGroup(s).value| == 2 && EncodeGroup(DecodeGroup(s).value) == s
  {
    var v0, v1, v2 := Sextet(s[0]).value, Sextet(s[1]).value, Sextet(s[2]).value;
    SextetsBack(v0, v1, v2, 0);
    SextetsCorrespond(0, s[0]);
    SextetsCorrespond(0, s[1]);
    SextetsCorrespond(0, s[2]);
    assert EncodeGroup([v0 * 4 + v1 / 16, v1 % 16 * 16 + v2 / 4])
        == [SextetChar(v0), SextetChar(v1), SextetChar(v2), '='];
  }

  lemma ThreeBytesEncode(s: string)
    requires |s| == 4 && DecodeGroup(s).Some? && s[2] != '=' && s[3] != '='
    ensures |DecodeGroup(s).value| == 3 && EncodeGroup(DecodeGroup(s).value) == s
  {
    var v0, v1, v2, v3 := Sextet(s[0]).value, Sextet(s[1]).value, Sextet(s[2]).value, Sextet(s[3]).value;
    SextetsBack(v0, v1, v2, v3);
    SextetsCorrespond(0, s[0]);
    SextetsCorrespond(0, s[1]);
    SextetsCorrespond(0, s[2]);
    SextetsCorrespond(0, s[3]);
    assert EncodeGroup([v0 * 4 + v1 / 16, v1 % 16 * 16 + v2 / 4, v2 % 4 * 64 + v3])
        == [SextetChar(v0), SextetChar(v1), SextetChar(v2), SextetChar(v3)];
  }

  lemma GroupEncodes(s: string)
    requires |s| == 4 && DecodeGroup(s).Some?
    ensures 1 <= |DecodeGroup(s).value| <= 3 && EncodeGroup(DecodeGroup(s).value) == s
  {
    if s[2] == '=' {
      OneByteEncodes(s);
    } else if s[3] == '=' {
      TwoBytesEncode(s);
    } else {
      ThreeBytesEncode(s);
    }
  }

  // What a sextet character stands for.
  function Bits(c: char): int {
    if Sextet(c).Some? then Sextet(c).value else 0
  }

  /** The bits of a group, most significant first, cut into sextets. */
  lemma ThreeBytesBits(b: Bytes)
    requires |b| == 3
    ensures var s := EncodeGroup(b);
            && |s| == 4 && (forall i | 0 <= i < 4 :: Sextet(s[i]).Some?)
            && b[0] as int * 65536 + b[1] as int * 256 + b[2] as int
               == Bits(s[0]) * 262144 + Bits(s[1]) * 4096 + Bits(s[2]) * 64 + Bits(s[3])
  {
    BytesBack(b[0], b[1], b[2]);
    SextetsCorrespond(b[0] / 4, ' ');
    SextetsCorrespond(b[0] % 4 * 16 + b[1] / 16, ' ');
    SextetsCorrespond(b[1] % 16 * 4 + b[2] / 64, ' ');
    SextetsCorrespond(b[2] % 64, ' ');
  }

  /** A short group is that of its bytes and zeros, with what is missing written as padding. */
  lemma ShortGroups(b0: byte, b1: byte)
    ensures EncodeGroup([b0]) == EncodeGroup([b0, 0, 0])[..2] + "=="
    ensures EncodeGroup([b0, b1]) == EncodeGroup([b0, b1, 0])[..3] + "="
  {
  }

  /** Groups of three bytes are encoded one after the other; only the last may be shorter. */
  lemma GroupsFollow(a: Bytes, b: Bytes)
    requires |a| == 3
    ensures EncodeBase64(a + b) == EncodeGroup(a) + EncodeBase64(b)
    ensures 1 <= |b| <= 3 ==> EncodeBase64(b) == EncodeGroup(b)
  {
    assert (a + b)[..3] == a && (a + b)[3..] == b;
    if b == [] {
      assert a + b == a;
    }
  }

  /** Every byte string is decoded back. */
  lemma {:induction false} Base64Decodes(b: Bytes)
    ensures DecodeBase64(EncodeBase64(b)) == Some(b)
  {
    if 1 <= |b| <= 3 {
      GroupDecodes(b);
      var s := EncodeGroup(b);
      assert s[..4] == s;
    } else if |b| > 3 {
      var s := EncodeBase64(b);
      GroupDecodes(b[..3]);
      Base64Decodes(b[3..]);
      assert s[..4] == EncodeGroup(b[..3]) && s[4..] == EncodeBase64(b[3..]);
      assert EncodeBase64(b[3..]) != "" by {
        assert b[3..] != [];
      }
      assert b[..3] + b[3..] == b;
    }
  }

  /** What decodes is the encoding of what it decodes to: no second spelling is accepted. */
  lemma {:induction false} Base64IsCanonical(s: string)
    requires DecodeBase64(s).Some?
    ensures EncodeBase64(DecodeBase64(s).value) == s
  {
    if s != "" {
      GroupEncodes(s[..4]);
      if |s| == 4 {
        assert s[..4] == s;
      } else {
        Base64IsCanonical(s[4..]);
        var first, rest := DecodeGroup(s[..4]).value, DecodeBase64(s[4..]).value;
        var b := first + rest;
        assert b[..3] == first && b[3..] == rest;
        assert rest != [];
        assert s == s[..4] + s[4..];
      }
    }
  }

  // ---------- the target ----------

  const SERVICE_MAX: nat := 0xFFFF_FFFF

  type ServiceId = n: nat | n <= SERVICE_MAX

  datatype Target = Plain(text: string) | Sealed(bytes: Bytes) | Service(id: ServiceId)

  datatype ParseError = BadBase64 | BadServiceId

  function ToText(t: Target): string {
    match t
    case Plain(text) => text
    case Sealed(bytes) => "$$" + EncodeBase64(bytes)
    case Service(id) => "#" + Decimal(id)
  }

  function FromText(s: string): Result<Target, ParseError> {
    if "$$" <= s then
      match DecodeBase64(s[2..])
      case Some(bytes) => Ok(Sealed(bytes))
      case None => Err(BadBase64)
    else if "#" <= s then
      match ParseUnsigned(s[1..], SERVICE_MAX)
      case Some(id) => Ok(Service(id))
      case None => Err(BadServiceId)
    else Ok(Plain(s))
  }

  /** Printing and parsing returns the target exactly when it is not a plain text that starts like
      one of the other two. */
  lemma RoundTripsIff(t: Target)
    ensures FromText(ToText(t)) == Ok(t) <==> (t.Plain? ==> !("$$" <= t.text) && !("#" <= t.text))
  {
    match t
    case Plain(_) =>
    case Sealed(bytes) =>
      Base64Decodes(bytes);
      assert ToText(t)[2..] == EncodeBase64(bytes);
    case Service(id) =>
      ParsesDecimal(id, SERVICE_MAX);
      assert ToText(t)[1..] == Decimal(id);
      assert ToText(t)[0] == '#';
  }

  /** Parsing and printing returns the text, except that a service number may have been spelled with a
      plus sign or leading zeros. */
  lemma ReprintsWhatItParsed(s: string)
    requires FromText(s).Ok?
    ensures !FromText(s).value.Service? ==> ToText(FromText(s).value) == s
    ensures FromText(s).value.Service? ==>
              s[0] == '#' && (ToText(FromText(s).value) == s <==> s[1..] == Decimal(FromText(s).value.id))
  {
    if "$$" <= s {
      Base64IsCanonical(s[2..]);
      assert s == "$$" + s[2..];
    } else if "#" <= s {
      assert s == "#" + s[1..];
      assert ToText(FromText(s).value)[1..] == Decimal(FromText(s).value.id);
    }
  }

  /** A sealed text is rejected exactly when it is no byte string's encoding. */
  lemma RejectsOnlyNonEncodings(rest: string)
    ensures FromText("$$" + rest) == Err(BadBase64) <==> !exists b :: EncodeBase64(b) == rest
  {
    assert ("$$" + rest)[2..] == rest;
    if DecodeBase64(rest).Some? {
      Base64IsCanonical(rest);
    }
    forall b | EncodeBase64(b) == rest ensures DecodeBase64(rest).Some? {
      Base64Decodes(b);
    }
  }
}
