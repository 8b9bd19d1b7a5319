/** String operations of the standard library that the modelled parsers rely on. */
module Text {
  import opened Wrappers

  // ---------- trimming ----------

  // Unicode White_Space.
  predicate IsSpace(c: char) {
    || '\U{9}' <= c <= '\U{d}' || c == ' ' || c == '\U{85}' || c == '\U{a0}' || c == '\U{1680}'
    || '\U{2000}' <= c <= '\U{200a}' || c == '\U{2028}' || c == '\U{2029}' || c == '\U{202f}'
    || c == '\U{205f}' || c == '\U{3000}'
  }

  function TrimStart(s: string): string {
    if s != "" && IsSpace(s[0]) then TrimStart(s[1..]) else s
  }

  function TrimEnd(s: string): string {
    if s != "" && IsSpace(s[|s|-1]) then TrimEnd(s[..|s|-1]) else s
  }

  function Trim(s: string): string {
    TrimEnd(TrimStart(s))
  }

  predicate AllSpace(s: string) {
    forall i | 0 <= i < |s| :: IsSpace(s[i])
  }

  // No white space at either end.
  predicate Trimmed(s: string) {
    s == "" || (!IsSpace(s[0]) && !IsSpace(s[|s|-1]))
  }

  lemma {:induction false} TrimsStart(pad: string, s: string)
    requires AllSpace(pad) && (s == "" || !IsSpace(s[0]))
    ensures TrimStart(pad + s) == s
  {
    if pad == "" {
      assert pad + s == s;
    } else {
      assert (pad + s)[1..] == pad[1..] + s;
      TrimsStart(pad[1..], s);
    }
  }

  lemma {:induction false} TrimsEnd(s: string, pad: string)
    requires AllSpace(pad) && (s == "" || !IsSpace(s[|s|-1]))
    ensures TrimEnd(s + pad) == s
  {
    if pad == "" {
      assert s + pad == s;
    } else {
      assert (s + pad)[..|s+pad|-1] == s + pad[..|pad|-1];
      TrimsEnd(s, pad[..|pad|-1]);
    }
  }

  /** Trimming takes the white space around a text and nothing else. */
  lemma TrimsPads(before: string, s: string, after: string)
    requires AllSpace(before) && AllSpace(after) && Trimmed(s)
    ensures Trim(before + s + after) == s
  {
    assert before + s + after == before + (s + after);
    if s == "" {
      assert before + s + after == (before + after) + "";
      TrimsStart(before + after, "");
    } else {
      TrimsStart(before, s + after);
      TrimsEnd(s, after);
    }
  }

  // ---------- searching ----------

  // Where the first `c` is, or the length.
  function IndexOf(s: string, c: char): (i: nat)
    ensures i <= |s| && (i < |s| ==> s[i] == c) && forall j | 0 <= j < i :: s[j] != c
  {
    if s == "" || s[0] == c then 0 else 1 + IndexOf(s[1..], c)
  }

  // ---------- decimal numbers ----------

  function Digit(c: char): Option<nat> {
    if '0' <= c <= '9' then Some(c as int - '0' as int) else None
  }

  function DigitChar(d: nat): (c: char)
    requires d < 10
    ensures Digit(c) == Some(d)
  {
    ('0' as int + d) as char
  }

  // The value of a string of digits; None for anything else, and for the empty string.
  function Digits(s: string): Option<nat>
    decreases |s|
  {
    if s == "" || Digit(s[|s|-1]).None? then None
    else if |s| == 1 then Digit(s[0])
    else
      var init := Digits(s[..|s|-1]);
      if init.None? then None else Some(init.value * 10 + Digit(s[|s|-1]).value)
  }

  // `str::parse` for an unsigned type: digits after an optional plus sign, at most `max`.
  function ParseUnsigned(s: string, max: nat): Option<nat> {
    var n := Digits(if s != "" && s[0] == '+' then s[1..] else s);
    if n.Some? && n.value <= max then n else None
  }

  function Decimal(n: nat): (s: string)
    ensures s != ""
  {
    if n < 10 then [DigitChar(n)] else Decimal(n / 10) + [DigitChar(n % 10)]
  }

  lemma {:induction false} DigitsOfDecimal(n: nat)
    ensures Digits(Decimal(n)) == Some(n)
    ensures forall i | 0 <= i < |Decimal(n)| :: '0' <= Decimal(n)[i] <= '9'
  {
    if n >= 10 {
      DigitsOfDecimal(n / 10);
      var s := Decimal(n);
      assert s[..|s|-1] == Decimal(n / 10);
    }
  }

  /** Every number is parsed back from its decimal form. */
  lemma ParsesDecimal(n: nat, max: nat)
    requires n <= max
    ensures ParseUnsigned(Decimal(n), max) == Some(n)
  {
    DigitsOfDecimal(n);
  }

  /** A plus sign may stand before it; a number above the maximum is refused. */
  lemma ParsesSigned(n: nat, max: nat)
    ensures ParseUnsigned("+" + Decimal(n), max) == if n <= max then Some(n) else None
    ensures ParseUnsigned(Decimal(n), max) == if n <= max then Some(n) else None
  {
    DigitsOfDecimal(n);
    assert ("+" + Decimal(n))[1..] == Decimal(n);
  }
}
