/**
 The names and labels of a Prometheus series: the label splitter, which honours quotes and escapes,
 held against the renderer of the text exposition format, and names compared without their
 `_total` suffixes.
 */
module MetricLabels {
  import opened Text

  // ---------- the splitter ----------

  function TrimStartMatches(s: string, c: char): string {
    if s != "" && s[0] == c then TrimStartMatches(s[1..], c) else s
  }

  function TrimEndMatches(s: string, c: char): string {
    if s != "" && s[|s|-1] == c then TrimEndMatches(s[..|s|-1], c) else s
  }

  function Inner(labels: string): string {
    TrimEndMatches(TrimStartMatches(Trim(labels), '{'), '}')
  }

  // What is left to split: `rest`, inside quotes or not, right after a backslash or not, with
  // `current` read since the last separator.
  function Pairs(rest: string, inQuotes: bool, escaped: bool, current: string): seq<string>
    decreases |rest|
  {
    if rest == "" then [Trim(current)]
    else
      var c, tail := rest[0], rest[1..];
      if escaped then Pairs(tail, inQuotes, false, current + [c])
      else if c == '\\' && inQuotes then Pairs(tail, inQuotes, true, current + [c])
      else if c == '"' then Pairs(tail, !inQuotes, false, current + [c])
      else if c == ',' && !inQuotes then [Trim(current)] + Pairs(tail, inQuotes, false, "")
      else Pairs(tail, inQuotes, false, current + [c])
  }

  function NonEmpty(pairs: seq<string>): seq<string> {
    if pairs == [] then []
    else (if pairs[0] == "" then [] else [pairs[0]]) + NonEmpty(pairs[1..])
  }

  function Split(labels: string): seq<string> {
    NonEmpty(Pairs(Inner(labels), false, false, ""))
  }

  /** The scanner: one pass over the block, remembering where the current pair starts. */
  method SplitLabels(labels: string) returns (result: seq<string>)
    ensures result == Split(labels)
  {
    var inner := Inner(labels);
    var pairs: seq<string> := [];
    var inQuotes, escaped, start := false, false, 0;
    for i := 0 to |inner|
      invariant start <= i
      invariant pairs + Pairs(inner[i..], inQuotes, escaped, inner[start..i]) == Pairs(inner, false, false, "")
    {
      ghost var before := Pairs(inner[i..], inQuotes, escaped, inner[start..i]);
      var c := inner[i];
      assert inner[i..][1..] == inner[i+1..];
      assert inner[start..i] + [c] == inner[start..i+1];
      if escaped {
        escaped := false;
      } else if c == '\\' && inQuotes {
        escaped := true;
      } else if c == '"' {
        inQuotes := !inQuotes;
      } else if c == ',' && !inQuotes {
        assert before == [Trim(inner[start..i])] + Pairs(inner[i+1..], inQuotes, false, "");
        pairs := pairs + [Trim(inner[start..i])];
        start := i + 1;
        assert inner[start..i+1] == "";
      }
    }
    assert inner[start..|inner|] == inner[start..];
    pairs := pairs + [Trim(inner[start..])];
    result := NonEmpty(pairs);
  }

  predicate HasLabel(labels: string, filter: string) {
    filter == "" || filter in Split(labels)
  }

  // ---------- the exposition format ----------

  datatype Label = Label(name: string, value: string)

  predicate IsNameChar(c: char) {
    'a' <= c <= 'z' || 'A' <= c <= 'Z' || '0' <= c <= '9' || c == '_'
  }

  predicate IsName(s: string) {
    s != "" && !('0' <= s[0] <= '9') && forall i | 0 <= i < |s| :: IsNameChar(s[i])
  }

  predicate WellNamed(labels: seq<Label>) {
    forall i | 0 <= i < |labels| :: IsName(labels[i].name)
  }

  // Backslash, quote and line feed are escaped in values.
  function EscapeChar(c: char): string {
    if c == '\\' then "\\\\" else if c == '"' then "\\\"" else if c == '\n' then "\\n" else [c]
  }

  function Escape(v: string): string {
    if v == "" then "" else EscapeChar(v[0]) + Escape(v[1..])
  }

  function Unescape(s: string): string
    decreases |s|
  {
    if s == "" then ""
    else if s[0] == '\\' && |s| >= 2 then [if s[1] == 'n' then '\n' else s[1]] + Unescape(s[2..])
    else [s[0]] + Unescape(s[1..])
  }

  function RenderPair(l: Label): string {
    l.name + "=\"" + Escape(l.value) + "\""
  }

  function RenderPairs(labels: seq<Label>): (r: seq<string>)
    ensures |r| == |labels|
  {
    seq(|labels|, i requires 0 <= i < |labels| => RenderPair(labels[i]))
  }

  function Joined(labels: seq<Label>): string {
    if labels == [] then ""
    else if |labels| == 1 then RenderPair(labels[0])
    else RenderPair(labels[0]) + "," + Joined(labels[1..])
  }

  function RenderBlock(labels: seq<Label>): string {
    "{" + Joined(labels) + "}"
  }

  // ---------- the splitter inverts it ----------

  lemma {:induction false} ReadsName(name: string, rest: string, current: string)
    requires forall i | 0 <= i < |name| :: IsNameChar(name[i])
    ensures Pairs(name + rest, false, false, current) == Pairs(rest, false, false, current + name)
  {
    if name == "" {
      assert name + rest == rest && current + name == current;
    } else {
      assert (name + rest)[1..] == name[1..] + rest;
      ReadsName(name[1..], rest, current + [name[0]]);
      assert current + [name[0]] + name[1..] == current + name;
    }
  }

  lemma ReadsChar(c: char, rest: string, current: string)
    ensures Pairs(EscapeChar(c) + rest, true, false, current) == Pairs(rest, true, false, current + EscapeChar(c))
  {
    var first := EscapeChar(c);
    var all := first + rest;
    if |first| == 1 {
      assert all[1..] == rest;
    } else {
      assert all[0] == first[0] && all[1..][0] == first[1] && all[1..][1..] == rest;
      assert current + [first[0]] + [first[1]] == current + first;
    }
  }

  lemma {:induction false} ReadsValue(v: string, rest: string, current: string)
    ensures Pairs(Escape(v) + rest, true, false, current) == Pairs(rest, true, false, current + Escape(v))
  {
    if v == "" {
      assert Escape(v) + rest == rest && current + Escape(v) == current;
    } else {
      var first, others := EscapeChar(v[0]), Escape(v[1..]);
      assert Escape(v) + rest == first + (others + rest);
      ReadsChar(v[0], others + rest, current);
      ReadsValue(v[1..], rest, current + first);
      assert current + first + others == current + Escape(v);
    }
  }

  lemma ReadsEquals(rest: string, current: string)
    ensures Pairs("=" + rest, false, false, current) == Pairs(rest, false, false, current + "=")
  {
    assert ("=" + rest)[1..] == rest;
  }

  lemma ReadsQuote(rest: string, inQuotes: bool, current: string)
    ensures Pairs("\"" + rest, inQuotes, false, current) == Pairs(rest, !inQuotes, false, current + "\"")
  {
    assert ("\"" + rest)[1..] == rest;
  }

  lemma PairInSteps(l: Label, rest: string)
    ensures RenderPair(l) + rest == l.name + ("=" + ("\"" + (Escape(l.value) + ("\"" + rest))))
    ensures l.name + "=" + "\"" + Escape(l.value) + "\"" == RenderPair(l)
  {
    var v := Escape(l.value);
    assert l.name + "=" + "\"" == l.name + "=\"";
    var left := l.name + "=\"" + v + "\"" + rest;
    var right := l.name + ("=" + ("\"" + (v + ("\"" + rest))));
    assert |left| == |right|;
    forall i | 0 <= i < |left| ensures left[i] == right[i] {
    }
  }

  lemma ReadsPair(l: Label, rest: string)
    requires IsName(l.name)
    ensures Pairs(RenderPair(l) + rest, false, false, "") == Pairs(rest, false, false, RenderPair(l))
  {
    ReadsPairAfter(l, rest, "");
    assert "" + RenderPair(l) == RenderPair(l);
  }

  lemma UnescapesChar(c: char, rest: string)
    ensures Unescape(EscapeChar(c) + rest) == [c] + Unescape(rest)
  {
    var first := EscapeChar(c);
    var all := first + rest;
    assert all[|first|..] == rest;
  }

  lemma {:induction false} UnescapesValue(v: string)
    ensures Unescape(Escape(v)) == v
  {
    if v != "" {
      UnescapesValue(v[1..]);
      UnescapesChar(v[0], Escape(v[1..]));
    }
  }

  lemma PairIsTrimmed(l: Label)
    requires IsName(l.name)
    ensures Trim(RenderPair(l)) == RenderPair(l) != ""
  {
    var s := RenderPair(l);
    assert s[0] == l.name[0] && s[|s|-1] == '"';
  }

  lemma {:induction false} ReadsJoined(labels: seq<Label>)
    requires WellNamed(labels) && labels != []
    ensures Pairs(Joined(labels), false, false, "") == RenderPairs(labels)
  {
    var l := labels[0];
    PairIsTrimmed(l);
    if |labels| == 1 {
      assert RenderPair(l) + "" == RenderPair(l);
      ReadsPair(l, "");
    } else {
      var rest := "," + Joined(labels[1..]);
      assert Joined(labels) == RenderPair(l) + rest;
      ReadsPair(l, rest);
      assert rest[1..] == Joined(labels[1..]);
      ReadsJoined(labels[1..]);
      assert RenderPairs(labels) == [RenderPair(l)] + RenderPairs(labels[1..]);
    }
  }

  lemma {:induction false} JoinedEnds(labels: seq<Label>)
    requires WellNamed(labels) && labels != []
    ensures Joined(labels) != "" && IsNameChar(Joined(labels)[0]) && Joined(labels)[|Joined(labels)|-1] == '"'
  {
    assert RenderPair(labels[0])[0] == labels[0].name[0];
    if |labels| > 1 {
      JoinedEnds(labels[1..]);
    }
  }

  lemma StripsBraces(inside: string)
    requires inside != "" ==> inside[0] != '{' && inside[|inside|-1] != '}'
    ensures Inner("{" + inside + "}") == inside
  {
    var block, fromOpening := "{" + inside + "}", inside + "}";
    assert Trim(block) == block;
    assert block[1..] == fromOpening && fromOpening[0] != '{';
    assert TrimStartMatches(block, '{') == TrimStartMatches(fromOpening, '{') == fromOpening;
    assert fromOpening[..|fromOpening|-1] == inside;
    assert TrimEndMatches(fromOpening, '}') == TrimEndMatches(inside, '}') == inside;
  }

  lemma InnerOfBlock(labels: seq<Label>)
    requires WellNamed(labels)
    ensures Inner(RenderBlock(labels)) == Joined(labels)
  {
    if labels != [] {
      JoinedEnds(labels);
    }
    StripsBraces(Joined(labels));
  }

  lemma {:induction false} NoneEmpty(labels: seq<Label>)
    requires WellNamed(labels)
    ensures NonEmpty(RenderPairs(labels)) == RenderPairs(labels)
  {
    if labels != [] {
      PairIsTrimmed(labels[0]);
      assert RenderPairs(labels)[1..] == RenderPairs(labels[1..]);
      NoneEmpty(labels[1..]);
    }
  }

  /** Splitting a rendered block gives exactly its pairs, in order, whatever the values contain. */
  lemma SplitsRenderedBlock(labels: seq<Label>)
    requires WellNamed(labels)
    ensures Split(RenderBlock(labels)) == RenderPairs(labels)
  {
    InnerOfBlock(labels);
    if labels == [] {
      assert NonEmpty([""]) == [];
    } else {
      ReadsJoined(labels);
      NoneEmpty(labels);
    }
  }

  // ---------- what is written more loosely ----------

  // The pairs of a block with white space around each of them.
  function Loose(labels: seq<Label>, before: seq<string>, after: seq<string>): string
    requires |labels| == |before| == |after|
  {
    if labels == [] then ""
    else
      before[0] + RenderPair(labels[0]) + after[0]
      + (if |labels| == 1 then "" else "," + Loose(labels[1..], before[1..], after[1..]))
  }

  ghost predicate Spaces(pads: seq<string>) {
    forall i | 0 <= i < |pads| :: AllSpace(pads[i])
  }

  lemma {:induction false} ReadsPad(pad: string, rest: string, current: string)
    requires AllSpace(pad)
    ensures Pairs(pad + rest, false, false, current) == Pairs(rest, false, false, current + pad)
  {
    if pad == "" {
      assert pad + rest == rest && current + pad == current;
    } else {
      assert (pad + rest)[1..] == pad[1..] + rest;
      ReadsPad(pad[1..], rest, current + [pad[0]]);
      assert current + [pad[0]] + pad[1..] == current + pad;
    }
  }

  lemma ReadsPairAfter(l: Label, rest: string, pad: string)
    requires IsName(l.name)
    ensures Pairs(RenderPair(l) + rest, false, false, pad) == Pairs(rest, false, false, pad + RenderPair(l))
  {
    var closing := "\"" + rest;
    var value := Escape(l.value) + closing;
    var opening := "\"" + value;
    var read := pad + l.name + "=" + "\"";
    PairInSteps(l, rest);
    ReadsName(l.name, "=" + opening, pad);
    ReadsEquals(opening, pad + l.name);
    ReadsQuote(value, false, pad + l.name + "=");
    ReadsValue(l.value, closing, read);
    ReadsQuote(rest, true, read + Escape(l.value));
    assert read + Escape(l.value) + "\"" == pad + RenderPair(l);
  }

  // One pair with white space around it, up to what follows.
  lemma ReadsLoosePair(l: Label, before: string, after: string, rest: string)
    requires IsName(l.name) && AllSpace(before) && AllSpace(after)
    ensures Pairs(before + RenderPair(l) + after + rest, false, false, "")
         == Pairs(rest, false, false, before + RenderPair(l) + after)
    ensures Trim(before + RenderPair(l) + after) == RenderPair(l)
  {
    assert before + RenderPair(l) + after + rest == before + (RenderPair(l) + (after + rest));
    ReadsPad(before, RenderPair(l) + (after + rest), "");
    assert "" + before == before;
    ReadsPairAfter(l, after + rest, before);
    ReadsPad(after, rest, before + RenderPair(l));
    assert RenderPair(l)[0] == l.name[0];
    TrimsPads(before, RenderPair(l), after);
  }

  lemma {:induction false} ReadsLoose(labels: seq<Label>, before: seq<string>, after: seq<string>, end: string)
    requires |labels| == |before| == |after| && labels != [] && WellNamed(labels)
    requires Spaces(before) && Spaces(after)
    requires end == "" || (end[0] == ',' && AllSpace(end[1..]))
    ensures Pairs(Loose(labels, before, after) + end, false, false, "")
         == RenderPairs(labels) + if end == "" then [] else [""]
  {
    var pair := before[0] + RenderPair(labels[0]) + after[0];
    var tail := if |labels| == 1 then end else "," + (Loose(labels[1..], before[1..], after[1..]) + end);
    assert Loose(labels, before, after) + end == pair + tail;
    ReadsLoosePair(labels[0], before[0], after[0], tail);
    if |labels| > 1 {
      assert tail[1..] == Loose(labels[1..], before[1..], after[1..]) + end;
      ReadsLoose(labels[1..], before[1..], after[1..], end);
      assert RenderPairs(labels) == [RenderPair(labels[0])] + RenderPairs(labels[1..]);
    } else if end != "" {
      ReadsPad(end[1..], "", "");
      assert end[1..] + "" == end[1..] && "" + end[1..] == end[1..];
      TrimsPads(end[1..], "", "");
      assert end[1..] + "" + "" == end[1..];
      assert RenderPairs(labels) == [RenderPair(labels[0])];
    }
  }

  lemma {:induction false} EmptyDropped(pairs: seq<string>)
    ensures NonEmpty(pairs + [""]) == NonEmpty(pairs)
  {
    if pairs == [] {
      assert pairs + [""] == [""];
      assert NonEmpty([""]) == NonEmpty([""][1..]);
    } else {
      assert (pairs + [""])[1..] == pairs[1..] + [""];
      EmptyDropped(pairs[1..]);
    }
  }

  lemma LooseEnds(labels: seq<Label>, before: seq<string>, after: seq<string>, end: string)
    requires |labels| == |before| == |after| && labels != [] && WellNamed(labels)
    requires Spaces(before) && Spaces(after)
    requires end == "" || (end[0] == ',' && AllSpace(end[1..]))
    ensures var s := Loose(labels, before, after) + end; s != "" && s[0] != '{' && s[|s|-1] != '}'
  {
    LooseLast(labels, before, after);
    var l := Loose(labels, before, after);
    assert l[0] == (before[0] + RenderPair(labels[0]))[0];
    assert RenderPair(labels[0])[0] == labels[0].name[0];
    if end != "" {
      assert (l + end)[|l + end|-1] == end[|end|-1];
      assert |end| > 1 ==> end[|end|-1] == end[1..][|end|-2];
    }
  }

  lemma {:induction false} LooseLast(labels: seq<Label>, before: seq<string>, after: seq<string>)
    requires |labels| == |before| == |after| && labels != [] && Spaces(after)
    ensures var l := Loose(labels, before, after); l != "" && l[|l|-1] != '}'
  {
    if |labels| == 1 {
      var l := before[0] + RenderPair(labels[0]) + after[0];
      assert l[|l|-1] == if after[0] == "" then '"' else after[0][|after[0]|-1];
    } else {
      LooseLast(labels[1..], before[1..], after[1..]);
    }
  }

  /** White space around the pairs, and a comma after the last, make no difference. */
  lemma SplitsLooseBlock(labels: seq<Label>, before: seq<string>, after: seq<string>, end: string)
    requires |labels| == |before| == |after| && labels != [] && WellNamed(labels)
    requires Spaces(before) && Spaces(after)
    requires end == "" || (end[0] == ',' && AllSpace(end[1..]))
    ensures Split("{" + (Loose(labels, before, after) + end) + "}") == RenderPairs(labels)
  {
    LooseEnds(labels, before, after, end);
    StripsBraces(Loose(labels, before, after) + end);
    ReadsLoose(labels, before, after, end);
    NoneEmpty(labels);
    EmptyDropped(RenderPairs(labels));
    assert RenderPairs(labels) + [] == RenderPairs(labels);
  }

  lemma RenderPairIsInjective(a: Label, b: Label)
    requires IsName(a.name) && IsName(b.name) && RenderPair(a) == RenderPair(b)
    ensures a == b
  {
    var s, t := RenderPair(a), RenderPair(b);
    assert s[|a.name|] == '=' && t[|b.name|] == '=';
    assert forall i | 0 <= i < |a.name| :: s[i] == a.name[i];
    assert forall i | 0 <= i < |b.name| :: t[i] == b.name[i];
    assert |a.name| == |b.name|;
    assert a.name == s[..|a.name|] == t[..|b.name|] == b.name;
    assert Escape(a.value) == s[|a.name|+2..|s|-1] == t[|b.name|+2..|t|-1] == Escape(b.value);
    UnescapesValue(a.value);
    UnescapesValue(b.value);
  }

  /** A rendered pair used as a filter selects exactly the blocks that carry that label with that value. */
  lemma FilterIsExact(labels: seq<Label>, wanted: Label)
    requires WellNamed(labels) && IsName(wanted.name)
    ensures HasLabel(RenderBlock(labels), RenderPair(wanted)) <==> wanted in labels
  {
    SplitsRenderedBlock(labels);
    PairIsTrimmed(wanted);
    if wanted in labels {
      var i :| 0 <= i < |labels| && labels[i] == wanted;
      assert RenderPairs(labels)[i] == RenderPair(wanted);
    }
    if RenderPair(wanted) in RenderPairs(labels) {
      var i :| 0 <= i < |labels| && RenderPairs(labels)[i] == RenderPair(wanted);
      RenderPairIsInjective(labels[i], wanted);
    }
  }

  // ---------- names ----------

  const TOTAL := "_total"

  predicate EndsInTotal(name: string) {
    |name| >= |TOTAL| && name[|name| - |TOTAL|..] == TOTAL
  }

  function Stripped(name: string): string
    decreases |name|
  {
    if EndsInTotal(name) then Stripped(name[..|name| - |TOTAL|]) else name
  }

  method StripTotalSuffixes(original: string) returns (name: string)
    ensures name == Stripped(original)
  {
    name := original;
    while EndsInTotal(name)
      invariant Stripped(name) == Stripped(original)
      decreases |name|
    {
      name := name[..|name| - |TOTAL|];
    }
  }

  function Totals(n: nat): string {
    if n == 0 then "" else Totals(n - 1) + TOTAL
  }

  lemma {:induction false} StrippedIs(name: string) returns (n: nat)
    ensures name == Stripped(name) + Totals(n) && !EndsInTotal(Stripped(name))
    decreases |name|
  {
    if EndsInTotal(name) {
      var shorter := name[..|name| - |TOTAL|];
      var m := StrippedIs(shorter);
      n := m + 1;
      assert name == shorter + TOTAL;
    } else {
      n := 0;
    }
  }

  /** One `_total` at the end is taken off. */
  lemma StripsOneTotal(name: string)
    ensures Stripped(name + "_total") == Stripped(name)
  {
    var longer := name + TOTAL;
    assert longer[|longer| - |TOTAL|..] == TOTAL;
    assert longer[..|longer| - |TOTAL|] == name;
  }

  /** A name that does not end in it is left alone. */
  lemma KeepsOtherNames(name: string)
    ensures Stripped(name) == name || exists base :: name == base + "_total"
  {
    if EndsInTotal(name) {
      var base := name[..|name| - |TOTAL|];
      assert name == base + "_total";
    }
  }

  lemma {:induction false} StripsTotals(base: string, n: nat)
    requires !EndsInTotal(base)
    ensures Stripped(base + Totals(n)) == base
  {
    if n == 0 {
      assert base + Totals(0) == base;
    } else {
      var shorter := base + Totals(n - 1);
      calc {
        Stripped(base + Totals(n));
        { assert base + Totals(n) == shorter + TOTAL; }
        Stripped(shorter + TOTAL);
        { StripsOneTotal(shorter); }
        Stripped(shorter);
        { StripsTotals(base, n - 1); }
        base;
      }
    }
  }

  /** Two names are taken for the same series exactly when they differ only in how often `_total` was appended. */
  lemma SameSeriesIff(a: string, b: string)
    ensures Stripped(a) == Stripped(b)
            <==> exists base, i, j :: !EndsInTotal(base) && a == base + Totals(i) && b == base + Totals(j)
  {
    var i := StrippedIs(a);
    var j := StrippedIs(b);
    if Stripped(a) == Stripped(b) {
      assert a == Stripped(a) + Totals(i) && b == Stripped(a) + Totals(j);
    }
    forall base, i, j | !EndsInTotal(base) && a == base + Totals(i) && b == base + Totals(j)
      ensures Stripped(a) == Stripped(b)
    {
      StripsTotals(base, i);
      StripsTotals(base, j);
    }
  }
}
