/**
 Reading a whole Prometheus scrape: lines are cut at white space, series and values are kept, and
 readings are summed. Held against a renderer of the text exposition format; `number` is the parser
 of floating-point values.
 */
module MetricScrape {
  import opened Wrappers
  import opened Text
  import opened MetricLabels

  datatype Sample = Sample(name: string, labels: string, value: real)

  type NumberParser = string -> Option<real>

  // ---------- parsing ----------

  function StripReturn(line: string): string {
    if line != "" && line[|line|-1] == '\r' then line[..|line|-1] else line
  }

  // `str::lines`: each line feed, with a carriage return before it, ends a line.
  function Lines(body: string): seq<string>
    decreases |body|
  {
    var i := IndexOf(body, '\n');
    if body == "" then []
    else if i == |body| then [body]
    else [StripReturn(body[..i])] + Lines(body[i+1..])
  }

  function TokenLength(s: string): (n: nat)
    ensures n <= |s| && (s != "" && !IsSpace(s[0]) ==> n > 0)
    ensures forall i | 0 <= i < n :: !IsSpace(s[i])
  {
    if s == "" || IsSpace(s[0]) then 0 else 1 + TokenLength(s[1..])
  }

  function SkipSpace(s: string): (r: string)
    ensures |r| <= |s| && (r != "" ==> !IsSpace(r[0]))
  {
    if s != "" && IsSpace(s[0]) then SkipSpace(s[1..]) else s
  }

  // `str::split_whitespace`.
  function Tokens(s: string): seq<string>
    decreases |s|
  {
    var t := SkipSpace(s);
    if t == "" then []
    else
      var n := TokenLength(t);
      [t[..n]] + Tokens(t[n..])
  }

  // A series token: the name, and the label block from its opening brace on.
  function ParseSeries(series: string): (string, string) {
    var i := IndexOf(series, '{');
    (series[..i], series[i..])
  }

  // Comments, blank lines and lines without a numeric second token yield nothing.
  function ParseLine(line: string, number: NumberParser): Option<Sample> {
    if "#" <= line then None
    else
      var tokens := Tokens(line);
      if |tokens| < 2 || number(tokens[1]).None? then None
      else
        var (name, labels) := ParseSeries(tokens[0]);
        Some(Sample(name, labels, number(tokens[1]).value))
  }

  function Samples(lines: seq<string>, number: NumberParser): seq<Sample> {
    if lines == [] then []
    else
      var sample := ParseLine(lines[0], number);
      (if sample.Some? then [sample.value] else []) + Samples(lines[1..], number)
  }

  function Parse(body: string, number: NumberParser): seq<Sample> {
    Samples(Lines(body), number)
  }

  function SumWhere(samples: seq<Sample>, name: string, filter: string): real {
    if samples == [] then 0.0
    else (if Stripped(samples[0].name) == Stripped(name) && HasLabel(samples[0].labels, filter)
          then samples[0].value else 0.0)
         + SumWhere(samples[1..], name, filter)
  }

  // ---------- what an exporter publishes ----------

  // One sample: a metric, how often `_total` is appended, its labels, its value and timestamp as printed.
  datatype Exported = Exported(
    base: string, suffixes: nat, labels: seq<Label>, value: string, timestamp: Option<string>)

  datatype Item = Comment(text: string) | Blank(space: string) | Series(e: Exported)

  predicate Spaceless(s: string) {
    forall i | 0 <= i < |s| :: !IsSpace(s[i])
  }

  predicate IsToken(s: string) {
    s != "" && Spaceless(s)
  }

  predicate IsMetricName(s: string) {
    s != "" && forall i | 0 <= i < |s| :: IsNameChar(s[i]) || s[i] == ':'
  }

  predicate WellFormed(e: Exported, number: NumberParser) {
    && IsMetricName(e.base) && !EndsInTotal(e.base) && WellNamed(e.labels)
    && IsToken(e.value) && number(e.value).Some?
    && (e.timestamp.Some? ==> IsToken(e.timestamp.value))
  }

  predicate WellFormedItem(item: Item, number: NumberParser) {
    match item
    case Comment(text) => '\n' !in text
    case Blank(space) => '\n' !in space && forall i | 0 <= i < |space| :: IsSpace(space[i])
    case Series(e) => WellFormed(e, number)
  }

  function BlockOf(labels: seq<Label>): string {
    if labels == [] then "" else RenderBlock(labels)
  }

  function SeriesOf(e: Exported): string {
    e.base + Totals(e.suffixes) + BlockOf(e.labels)
  }

  // What follows the series on its line.
  function TailOf(e: Exported): string {
    " " + (e.value + if e.timestamp.Some? then " " + e.timestamp.value else "")
  }

  function RenderLine(item: Item): string {
    match item
    case Comment(text) => "#" + text
    case Blank(space) => space
    case Series(e) => SeriesOf(e) + TailOf(e)
  }

  function Body(items: seq<Item>): string {
    if items == [] then "" else RenderLine(items[0]) + "\n" + Body(items[1..])
  }

  // The sample a line stands for.
  function SampleOf(e: Exported, number: NumberParser): Sample
    requires number(e.value).Some?
  {
    Sample(e.base + Totals(e.suffixes), BlockOf(e.labels), number(e.value).value)
  }

  // No label value contains white space, except the line feeds that the format escapes.
  predicate ValuesSpaceless(labels: seq<Label>) {
    forall i, j | 0 <= i < |labels| && 0 <= j < |labels[i].value| ::
      IsSpace(labels[i].value[j]) ==> labels[i].value[j] == '\n'
  }

  // ---------- white space in a rendered series ----------

  lemma SpacelessParts(a: string, b: string)
    ensures Spaceless(a + b) <==> Spaceless(a) && Spaceless(b)
  {
    if Spaceless(a + b) {
      assert forall i | 0 <= i < |a| :: (a + b)[i] == a[i];
      assert forall i | 0 <= i < |b| :: (a + b)[|a| + i] == b[i];
    }
  }

  lemma {:induction false} EscapeSpaceless(v: string)
    ensures Spaceless(Escape(v)) <==> forall j | 0 <= j < |v| :: IsSpace(v[j]) ==> v[j] == '\n'
  {
    if v != "" {
      EscapeSpaceless(v[1..]);
      SpacelessParts(EscapeChar(v[0]), Escape(v[1..]));
      assert Spaceless(EscapeChar(v[0])) <==> (IsSpace(v[0]) ==> v[0] == '\n') by {
        assert EscapeChar(v[0])[0] == v[0] || !IsSpace(EscapeChar(v[0])[0]);
      }
      assert forall j | 0 < j < |v| :: v[j] == v[1..][j-1];
      assert forall j | 0 <= j < |v[1..]| :: v[1..][j] == v[j+1];
    }
  }

  lemma PairSpaceless(l: Label)
    requires IsName(l.name)
    ensures Spaceless(RenderPair(l)) <==> forall j | 0 <= j < |l.value| :: IsSpace(l.value[j]) ==> l.value[j] == '\n'
  {
    EscapeSpaceless(l.value);
    assert Spaceless(l.name);
    SpacelessParts(l.name, "=\"");
    SpacelessParts(l.name + "=\"", Escape(l.value));
    SpacelessParts(l.name + "=\"" + Escape(l.value), "\"");
  }

  lemma {:induction false} JoinedSpaceless(labels: seq<Label>)
    requires WellNamed(labels)
    ensures Spaceless(Joined(labels)) <==> ValuesSpaceless(labels)
  {
    if labels != [] {
      PairSpaceless(labels[0]);
      if |labels| > 1 {
        var rest := labels[1..];
        JoinedSpaceless(rest);
        SpacelessParts(RenderPair(labels[0]), ",");
        SpacelessParts(RenderPair(labels[0]) + ",", Joined(rest));
        assert ValuesSpaceless(labels) <==> ValuesSpaceless(labels[..1]) && ValuesSpaceless(rest) by {
          assert forall i | 0 < i < |labels| :: labels[i] == rest[i-1];
          assert forall i | 0 <= i < |rest| :: rest[i] == labels[i+1];
        }
      }
    }
  }

  lemma {:induction false} TotalsPlain(n: nat)
    ensures forall i | 0 <= i < |Totals(n)| :: IsNameChar(Totals(n)[i])
  {
    if n > 0 {
      TotalsPlain(n - 1);
    }
  }

  lemma SeriesSpaceless(e: Exported)
    requires IsMetricName(e.base) && WellNamed(e.labels)
    ensures SeriesOf(e) != "" && SeriesOf(e)[0] == e.base[0]
    ensures Spaceless(SeriesOf(e)) <==> ValuesSpaceless(e.labels)
  {
    var name := e.base + Totals(e.suffixes);
    TotalsPlain(e.suffixes);
    assert Spaceless(name);
    SpacelessParts(name, BlockOf(e.labels));
    if e.labels != [] {
      JoinedSpaceless(e.labels);
      SpacelessParts("{", Joined(e.labels));
      SpacelessParts("{" + Joined(e.labels), "}");
    }
  }

  // ---------- cutting a line into tokens ----------

  lemma {:induction false} TokenEnds(token: string, rest: string)
    requires Spaceless(token) && (rest == "" || IsSpace(rest[0]))
    ensures TokenLength(token + rest) == |token|
  {
    if token == "" {
      assert token + rest == rest;
    } else {
      assert (token + rest)[1..] == token[1..] + rest;
      TokenEnds(token[1..], rest);
    }
  }

  lemma FirstToken(token: string, rest: string)
    requires IsToken(token) && (rest == "" || IsSpace(rest[0]))
    ensures Tokens(token + rest) == [token] + Tokens(rest)
  {
    var s := token + rest;
    TokenEnds(token, rest);
    assert s[0] == token[0];
    assert SkipSpace(s) == s;
    assert s[..|token|] == token && s[|token|..] == rest;
  }

  lemma SpaceSkipped(s: string)
    ensures Tokens(" " + s) == Tokens(s)
  {
    assert (" " + s)[1..] == s;
    assert SkipSpace(" " + s) == SkipSpace(s);
  }

  lemma TailTokens(e: Exported)
    requires IsToken(e.value) && (e.timestamp.Some? ==> IsToken(e.timestamp.value))
    ensures |Tokens(TailOf(e))| >= 1 && Tokens(TailOf(e))[0] == e.value
  {
    var rest := if e.timestamp.Some? then " " + e.timestamp.value else "";
    SpaceSkipped(e.value + rest);
    FirstToken(e.value, rest);
  }

  lemma SeriesInTwo(series: string)
    ensures ParseSeries(series).0 + ParseSeries(series).1 == series
  {
  }

  lemma {:induction false} FirstBrace(s: string, k: nat)
    requires k <= |s| && (forall j | 0 <= j < k :: s[j] != '{') && (k < |s| ==> s[k] == '{')
    ensures IndexOf(s, '{') == k
  {
  }

  lemma ParsesSeries(e: Exported)
    requires IsMetricName(e.base)
    ensures ParseSeries(SeriesOf(e)) == (e.base + Totals(e.suffixes), BlockOf(e.labels))
  {
    var name := e.base + Totals(e.suffixes);
    TotalsPlain(e.suffixes);
    FirstBrace(SeriesOf(e), |name|);
    assert SeriesOf(e)[..|name|] == name && SeriesOf(e)[|name|..] == BlockOf(e.labels);
  }

  // Name and labels of a parsed line are together its first token.
  lemma ParsedIsFirstToken(line: string, number: NumberParser)
    requires line != "" && !IsSpace(line[0]) && ParseLine(line, number).Some?
    ensures var sample := ParseLine(line, number).value;
            sample.name + sample.labels == line[..TokenLength(line)]
  {
    assert SkipSpace(line) == line;
    SeriesInTwo(Tokens(line)[0]);
  }

  lemma LineStartsWithName(e: Exported, number: NumberParser)
    requires WellFormed(e, number)
    ensures var line := RenderLine(Series(e)); line != "" && !IsSpace(line[0]) && !("#" <= line)
  {
    SeriesSpaceless(e);
    assert RenderLine(Series(e))[0] == SeriesOf(e)[0] == e.base[0] != '#';
  }

  lemma SpacelessLineReads(e: Exported, number: NumberParser)
    requires WellFormed(e, number) && ValuesSpaceless(e.labels)
    ensures ParseLine(RenderLine(Series(e)), number) == Some(SampleOf(e, number))
  {
    LineStartsWithName(e, number);
    SeriesSpaceless(e);
    ParsesSeries(e);
    FirstToken(SeriesOf(e), TailOf(e));
    TailTokens(e);
  }

  lemma ReadLineIsSpaceless(e: Exported, number: NumberParser)
    requires WellFormed(e, number) && ParseLine(RenderLine(Series(e)), number) == Some(SampleOf(e, number))
    ensures ValuesSpaceless(e.labels)
  {
    LineStartsWithName(e, number);
    ParsedIsFirstToken(RenderLine(Series(e)), number);
    assert Spaceless(SeriesOf(e));
    SeriesSpaceless(e);
  }

  /** A rendered line is read back as its sample exactly when no label value contains white space that
      the format leaves as it is. */
  lemma LineReadsBackIff(e: Exported, number: NumberParser)
    requires WellFormed(e, number)
    ensures ParseLine(RenderLine(Series(e)), number) == Some(SampleOf(e, number)) <==> ValuesSpaceless(e.labels)
  {
    if ValuesSpaceless(e.labels) {
      SpacelessLineReads(e, number);
    } else if ParseLine(RenderLine(Series(e)), number) == Some(SampleOf(e, number)) {
      ReadLineIsSpaceless(e, number);
    }
  }

  lemma {:induction false} SkipsPad(pad: string, s: string)
    requires AllSpace(pad)
    ensures Tokens(pad + s) == Tokens(s) && SkipSpace(pad + s) == SkipSpace(s)
  {
    if pad == "" {
      assert pad + s == s;
    } else {
      assert (pad + s)[1..] == pad[1..] + s;
      SkipsPad(pad[1..], s);
    }
  }

  lemma TwoTokens(pad: string, series: string, gap: string, value: string, rest: string)
    requires AllSpace(pad) && AllSpace(gap) && gap != "" && IsToken(series) && IsToken(value)
    requires rest == "" || IsSpace(rest[0])
    ensures var line := pad + (series + (gap + (value + rest)));
            && line[0] == (if pad == "" then series[0] else pad[0])
            && |Tokens(line)| >= 2 && Tokens(line)[0] == series && Tokens(line)[1] == value
  {
    SkipsPad(pad, series + (gap + (value + rest)));
    FirstToken(series, gap + (value + rest));
    SkipsPad(gap, value + rest);
    FirstToken(value, rest);
  }

  /** What any line yields: nothing if it starts with `#` or its second token is no number; otherwise the
      first token, split at its first brace, with the second as its value. Further tokens and white space
      do not matter. */
  lemma LineYields(pad: string, series: string, gap: string, value: string, rest: string, number: NumberParser)
    requires AllSpace(pad) && AllSpace(gap) && gap != "" && IsToken(series) && IsToken(value)
    requires rest == "" || IsSpace(rest[0])
    ensures var line, i := pad + (series + (gap + (value + rest))), IndexOf(series, '{');
            ParseLine(line, number)
            == if (pad == "" && series[0] == '#') || number(value).None? then None
               else Some(Sample(series[..i], series[i..], number(value).value))
  {
    var line := pad + (series + (gap + (value + rest)));
    TwoTokens(pad, series, gap, value, rest);
    assert "#" <= line <==> line[0] == '#';
    assert pad != "" ==> pad[0] != '#';
  }

  /** A line with fewer than two tokens yields nothing. */
  lemma ShortLineYieldsNothing(pad: string, series: string, gap: string, number: NumberParser)
    requires AllSpace(pad) && AllSpace(gap) && IsToken(series)
    ensures ParseLine(pad + (series + gap), number).None? && ParseLine(pad, number).None?
  {
    SkipsPad(pad, series + gap);
    FirstToken(series, gap);
    SkipsPad(gap, "");
    assert gap + "" == gap;
    SkipsPad(pad, "");
    assert pad + "" == pad;
  }

  // ---------- lines of the body ----------

  lemma {:induction false} EscapeHasNoFeed(v: string)
    ensures '\n' !in Escape(v)
  {
    if v != "" {
      EscapeHasNoFeed(v[1..]);
    }
  }

  lemma {:induction false} JoinedHasNoFeed(labels: seq<Label>)
    requires WellNamed(labels)
    ensures '\n' !in Joined(labels)
  {
    if labels != [] {
      EscapeHasNoFeed(labels[0].value);
      assert '\n' !in RenderPair(labels[0]);
      JoinedHasNoFeed(labels[1..]);
    }
  }

  lemma SeriesHasNoFeed(e: Exported)
    requires IsMetricName(e.base) && WellNamed(e.labels)
    ensures '\n' !in SeriesOf(e)
  {
    TotalsPlain(e.suffixes);
    assert '\n' !in Totals(e.suffixes);
    JoinedHasNoFeed(e.labels);
  }

  lemma LineHasNoFeed(item: Item, number: NumberParser)
    requires WellFormedItem(item, number)
    ensures '\n' !in RenderLine(item)
    ensures item.Series? ==> StripReturn(RenderLine(item)) == RenderLine(item)
  {
    if item.Series? {
      var e, line := item.e, RenderLine(item);
      SeriesHasNoFeed(e);
      assert '\n' !in TailOf(e);
      var last := if e.timestamp.Some? then e.timestamp.value else e.value;
      assert line[|line|-1] == last[|last|-1];
    }
  }

  function RenderedLines(items: seq<Item>): (r: seq<string>)
    ensures |r| == |items|
  {
    seq(|items|, i requires 0 <= i < |items| => StripReturn(RenderLine(items[i])))
  }

  /** A line ends at a line feed, with or without a carriage return before it; the last needs none. */
  lemma FirstLine(line: string, rest: string)
    requires '\n' !in line && (line == "" || line[|line|-1] != '\r')
    ensures Lines(line + "\n" + rest) == [line] + Lines(rest)
    ensures Lines(line + "\r" + "\n" + rest) == [line] + Lines(rest)
    ensures line != "" ==> Lines(line) == [line]
  {
    FeedAfter(line, rest);
    FeedAfter(line + "\r", rest);
    assert StripReturn(line + "\r") == line;
    assert IndexOf(line, '\n') == |line|;
  }

  lemma FeedAfter(line: string, rest: string)
    requires '\n' !in line
    ensures Lines(line + "\n" + rest) == [StripReturn(line)] + Lines(rest)
  {
    var body := line + "\n" + rest;
    var i := IndexOf(body, '\n');
    assert body[|line|] == '\n';
    assert forall j | 0 <= j < |line| :: body[j] == line[j];
    assert body[..i] == line && body[i+1..] == rest;
  }

  lemma FirstRendered(items: seq<Item>)
    requires items != []
    ensures RenderedLines(items) == [StripReturn(RenderLine(items[0]))] + RenderedLines(items[1..])
  {
  }

  lemma {:induction false} LinesOfItems(items: seq<Item>)
    requires forall i | 0 <= i < |items| :: '\n' !in RenderLine(items[i])
    ensures Lines(Body(items)) == RenderedLines(items)
  {
    if items != [] {
      FirstRendered(items);
      FeedAfter(RenderLine(items[0]), Body(items[1..]));
      LinesOfItems(items[1..]);
    }
  }

  /** The lines of a rendered scrape are the lines written. */
  lemma LinesOfBody(items: seq<Item>, number: NumberParser)
    requires forall i | 0 <= i < |items| :: WellFormedItem(items[i], number)
    ensures Lines(Body(items)) == RenderedLines(items)
  {
    forall i | 0 <= i < |items| ensures '\n' !in RenderLine(items[i]) {
      LineHasNoFeed(items[i], number);
    }
    LinesOfItems(items);
  }

  lemma {:induction false} BlankSkips(s: string)
    requires forall i | 0 <= i < |s| :: IsSpace(s[i])
    ensures SkipSpace(s) == ""
  {
    if s != "" {
      BlankSkips(s[1..]);
    }
  }

  lemma OtherLinesYieldNothing(item: Item, number: NumberParser)
    requires WellFormedItem(item, number) && !item.Series?
    ensures ParseLine(StripReturn(RenderLine(item)), number).None?
  {
    if item.Comment? {
      assert "#" <= StripReturn(RenderLine(item));
    } else {
      BlankSkips(StripReturn(RenderLine(item)));
    }
  }

  // ---------- sums ----------

  // The filter a caller passes: one rendered pair, or nothing.
  function FilterFor(wanted: seq<Label>): string {
    if wanted == [] then "" else RenderPair(wanted[0])
  }

  // What one line adds to the intended reading.
  function Share(item: Item, base: string, wanted: seq<Label>, number: NumberParser): real
    requires |wanted| <= 1 && WellFormedItem(item, number)
  {
    if item.Series? && item.e.base == base && (wanted == [] || wanted[0] in item.e.labels)
    then number(item.e.value).value else 0.0
  }

  // The intended reading: the metric named `base`, restricted to one label if given.
  function Reading(items: seq<Item>, base: string, wanted: seq<Label>, number: NumberParser): real
    requires |wanted| <= 1 && forall i | 0 <= i < |items| :: WellFormedItem(items[i], number)
  {
    if items == [] then 0.0
    else Share(items[0], base, wanted, number) + Reading(items[1..], base, wanted, number)
  }

  // Whether one sample is summed.
  lemma SampleIsCounted(e: Exported, number: NumberParser, base: string, suffixes: nat, wanted: seq<Label>)
    requires WellFormed(e, number) && !EndsInTotal(base) && |wanted| <= 1 && WellNamed(wanted)
    ensures var sample := SampleOf(e, number);
            Stripped(sample.name) == Stripped(base + Totals(suffixes))
            && HasLabel(sample.labels, FilterFor(wanted))
            <==> e.base == base && (wanted == [] || wanted[0] in e.labels)
  {
    StripsTotals(base, suffixes);
    StripsTotals(e.base, e.suffixes);
    if wanted != [] {
      PairIsTrimmed(wanted[0]);
      FilterIsExact(e.labels, wanted[0]);
      assert Split("") == [] by {
        assert NonEmpty([""]) == [];
      }
    }
  }

  // What one line adds to the sum.
  lemma LineIsCounted(item: Item, number: NumberParser, base: string, suffixes: nat, wanted: seq<Label>)
    requires WellFormedItem(item, number) && (item.Series? ==> ValuesSpaceless(item.e.labels))
    requires !EndsInTotal(base) && |wanted| <= 1 && WellNamed(wanted)
    ensures SumWhere(Samples([StripReturn(RenderLine(item))], number), base + Totals(suffixes),
                     FilterFor(wanted))
         == Share(item, base, wanted, number)
  {
    var line := StripReturn(RenderLine(item));
    assert [line][1..] == [];
    if item.Series? {
      LineHasNoFeed(item, number);
      LineReadsBackIff(item.e, number);
      SampleIsCounted(item.e, number, base, suffixes, wanted);
      assert Samples([line], number) == [SampleOf(item.e, number)];
    } else {
      OtherLinesYieldNothing(item, number);
      assert Samples([line], number) == [];
    }
  }

  lemma SumOfFirst(lines: seq<string>, number: NumberParser, name: string, filter: string)
    requires lines != []
    ensures SumWhere(Samples(lines, number), name, filter)
         == SumWhere(Samples([lines[0]], number), name, filter) + SumWhere(Samples(lines[1..], number), name, filter)
  {
    assert [lines[0]][1..] == [];
    if ParseLine(lines[0], number).Some? {
      var sample := ParseLine(lines[0], number).value;
      assert Samples([lines[0]], number) == [sample];
      assert Samples(lines, number)[1..] == Samples(lines[1..], number);
    } else {
      assert Samples([lines[0]], number) == [];
      assert Samples(lines, number) == Samples(lines[1..], number);
    }
  }

  lemma {:induction false} SamplesSum(
      items: seq<Item>, number: NumberParser, base: string, suffixes: nat, wanted: seq<Label>)
    requires forall i | 0 <= i < |items| :: WellFormedItem(items[i], number)
    requires forall i | 0 <= i < |items| :: items[i].Series? ==> ValuesSpaceless(items[i].e.labels)
    requires !EndsInTotal(base) && |wanted| <= 1 && WellNamed(wanted)
    ensures SumWhere(Samples(RenderedLines(items), number), base + Totals(suffixes), FilterFor(wanted))
         == Reading(items, base, wanted, number)
  {
    if items != [] {
      var lines := RenderedLines(items);
      assert WellFormedItem(items[0], number);
      SumOfFirst(lines, number, base + Totals(suffixes), FilterFor(wanted));
      LineIsCounted(items[0], number, base, suffixes, wanted);
      SamplesSum(items[1..], number, base, suffixes, wanted);
      assert lines[1..] == RenderedLines(items[1..]);
    }
  }

  /** From the text of a scrape to the sum: however many `_total` suffixes the exporter and the caller
      use, and whatever comments, commas, braces, quotes and escapes it contains, the sum is the
      intended reading, provided no label value contains white space that the format leaves as it is. */
  lemma SumIsExact(items: seq<Item>, number: NumberParser, base: string, suffixes: nat, wanted: seq<Label>)
    requires forall i | 0 <= i < |items| :: WellFormedItem(items[i], number)
    requires forall i | 0 <= i < |items| :: items[i].Series? ==> ValuesSpaceless(items[i].e.labels)
    requires !EndsInTotal(base) && |wanted| <= 1 && WellNamed(wanted)
    ensures SumWhere(Parse(Body(items), number), base + Totals(suffixes), FilterFor(wanted))
         == Reading(items, base, wanted, number)
  {
    LinesOfBody(items, number);
    SamplesSum(items, number, base, suffixes, wanted);
  }

  lemma {:induction false} EscapeJoins(a: string, b: string)
    ensures Escape(a + b) == Escape(a) + Escape(b)
  {
    if a == "" {
      assert a + b == b;
    } else {
      assert (a + b)[1..] == a[1..] + b;
      EscapeJoins(a[1..], b);
    }
  }

  predicate Unescaped(s: string) {
    Escape(s) == s
  }

  // A label value with a number standing free in it.
  ghost predicate NumberInValue(e: Exported, before: string, digits: string, after: string) {
    && |e.labels| == 1 && e.labels[0].value == before + (" " + (digits + (" " + after)))
    && Spaceless(before) && Unescaped(before) && IsToken(digits) && Unescaped(digits)
  }

  lemma EscapedValue(before: string, digits: string, after: string)
    requires Unescaped(before) && Unescaped(digits)
    ensures Escape(before + (" " + (digits + (" " + after)))) == before + (" " + (digits + (" " + Escape(after))))
  {
    assert Escape(" ") == " " by {
      assert " "[1..] == "";
    }
    EscapeJoins(before, " " + (digits + (" " + after)));
    EscapeJoins(" ", digits + (" " + after));
    EscapeJoins(digits, " " + after);
    EscapeJoins(" ", after);
  }

  lemma Regroup(name: string, opening: string, before: string, middle: string, tail: string)
    ensures name + ("{" + (opening + (before + middle) + "\"") + "}") + tail
         == (name + ("{" + (opening + before))) + (middle + ("\"" + "}" + tail))
  {
    var inner := opening + before;
    assert opening + (before + middle) == inner + middle;
    assert "{" + (inner + middle + "\"") + "}" == ("{" + inner) + (middle + ("\"" + "}"));
    assert name + (("{" + inner) + (middle + ("\"" + "}"))) == (name + ("{" + inner)) + (middle + ("\"" + "}"));
    assert (middle + ("\"" + "}")) + tail == middle + ("\"" + "}" + tail);
  }

  lemma TailOfMiddle(digits: string, after: string, tail: string)
    ensures (" " + (digits + (" " + after))) + tail == " " + (digits + (" " + (after + tail)))
  {
    assert (" " + after) + tail == " " + (after + tail);
    assert (digits + (" " + after)) + tail == digits + ((" " + after) + tail);
  }

  lemma NumberedLine(e: Exported, before: string, digits: string, after: string) returns (rest: string)
    requires NumberInValue(e, before, digits, after)
    ensures var name, opening := e.base + Totals(e.suffixes), e.labels[0].name + "=\"";
            RenderLine(Series(e)) == (name + ("{" + (opening + before))) + (" " + (digits + (" " + rest)))
  {
    var name, l := e.base + Totals(e.suffixes), e.labels[0];
    var opening, middle := l.name + "=\"", " " + (digits + (" " + Escape(after)));
    var end := "\"" + "}" + TailOf(e);
    EscapedValue(before, digits, after);
    assert Joined(e.labels) == RenderPair(l) == opening + (before + middle) + "\"";
    Regroup(name, opening, before, middle, TailOf(e));
    TailOfMiddle(digits, Escape(after), end);
    rest := Escape(after) + end;
  }

  lemma CutLine(name: string, opening: string, digits: string, rest: string, number: NumberParser)
    requires IsToken(name) && '{' !in name && name[0] != '#' && Spaceless(opening) && "{" <= opening
    requires IsToken(digits) && number(digits).Some?
    ensures ParseLine((name + opening) + (" " + (digits + (" " + rest))), number)
         == Some(Sample(name, opening, number(digits).value))
  {
    var token := name + opening;
    assert IsToken(token);
    FirstToken(token, " " + (digits + (" " + rest)));
    SpaceSkipped(digits + (" " + rest));
    FirstToken(digits, " " + rest);
    FirstBrace(token, |name|);
    assert token[..|name|] == name && token[|name|..] == opening;
  }

  /** White space in a label value does mislead: a number standing free in it is read as the value. */
  lemma SpaceMisleads(e: Exported, before: string, digits: string, after: string, number: NumberParser)
    requires WellFormed(e, number) && NumberInValue(e, before, digits, after) && number(digits).Some?
    ensures ParseLine(RenderLine(Series(e)), number)
         == Some(Sample(e.base + Totals(e.suffixes), "{" + (e.labels[0].name + "=\"" + before), number(digits).value))
  {
    var name, opening := e.base + Totals(e.suffixes), "{" + (e.labels[0].name + "=\"" + before);
    var rest := NumberedLine(e, before, digits, after);
    TotalsPlain(e.suffixes);
    assert name[0] == e.base[0];
    CutLine(name, opening, digits, rest, number);
  }

  /** ... so a sum over such a line is the number in the label, not the value. */
  lemma SumIsMisled(e: Exported, before: string, digits: string, after: string, number: NumberParser)
    requires WellFormed(e, number) && NumberInValue(e, before, digits, after) && number(digits).Some?
    ensures SumWhere(Parse(Body([Series(e)]), number), e.base, "") == number(digits).value
    ensures Reading([Series(e)], e.base, [], number) == number(e.value).value
  {
    var items, line := [Series(e)], RenderLine(Series(e));
    SpaceMisleads(e, before, digits, after, number);
    LinesOfBody(items, number);
    LineHasNoFeed(items[0], number);
    assert Lines(Body(items)) == [line];
    var sample := ParseLine(line, number).value;
    assert [line][1..] == [] && items[1..] == [];
    assert Samples([line], number) == [sample] && [sample][1..] == [];
    StripsTotals(e.base, e.suffixes);
  }

  lemma PlainExample(number: NumberParser)
    requires number("1").Some?
    ensures var e := Exported("m", 0, [Label("k", "x 5 y")], "1", None);
            WellFormed(e, number) && NumberInValue(e, "x", "5", "y")
  {
    EscapesNothing("x");
    EscapesNothing("5");
    assert "x 5 y" == "x" + (" " + ("5" + (" " + "y")));
  }

  /** For example, the line `m{k="x 5 y"} 1` makes the sum of `m` 5. */
  lemma FiveForOne(number: NumberParser)
    requires number("5") == Some(5.0) && number("1") == Some(1.0)
    ensures var items := [Series(Exported("m", 0, [Label("k", "x 5 y")], "1", None))];
            && WellFormedItem(items[0], number)
            && Reading(items, "m", [], number) == 1.0
            && SumWhere(Parse(Body(items), number), "m", "") == 5.0
  {
    PlainExample(number);
    SumIsMisled(Exported("m", 0, [Label("k", "x 5 y")], "1", None), "x", "5", "y", number);
  }

  lemma {:induction false} EscapesNothing(v: string)
    requires forall i | 0 <= i < |v| :: v[i] != '\\' && v[i] != '"' && v[i] != '\n'
    ensures Escape(v) == v
  {
    if v != "" {
      EscapesNothing(v[1..]);
    }
  }
}
