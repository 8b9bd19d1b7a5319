/**
 The metric export interval setting: a comma-separated list of `<duration>` and `<prefix>=<duration>`
 entries in which the last valid entry wins. Intervals are milliseconds.
 */
module MetricIntervals {
  import opened Wrappers
  import opened MachineWords
  import opened Text

  const U64_MAX: nat := TWO_64 - 1

  // ---------- one duration ----------

  function AsciiLower(s: string): (r: string)
    ensures |r| == |s|
  {
    seq(|s|, i requires 0 <= i < |s| => if 'A' <= s[i] <= 'Z' then (s[i] as int + 32) as char else s[i])
  }

  // The number in front of a unit.
  function Quantity(s: string, unit: string): Option<nat> {
    if |s| >= |unit| && s[|s| - |unit|..] == unit then ParseUnsigned(Trim(s[..|s| - |unit|]), U64_MAX) else None
  }

  function Positive(ms: nat): (r: Option<nat>)
    ensures r == Some(ms) || (r == None && ms == 0)
  {
    if ms == 0 then None else Some(ms)
  }

  function Saturating(n: nat): nat {
    if n <= U64_MAX then n else U64_MAX
  }

  function ParseInterval(value: string): (r: Option<nat>)
    ensures r.Some? ==> r.value > 0
  {
    ParseTrimmed(Trim(value))
  }

  function ParseTrimmed(trimmed: string): (r: Option<nat>)
    ensures r.Some? ==> r.value > 0
  {
    var bare := ParseUnsigned(trimmed, U64_MAX);
    var lower := AsciiLower(trimmed);
    if trimmed == "" then None
    else if bare.Some? then Positive(bare.value)
    else if Quantity(lower, "ms").Some? then Positive(Quantity(lower, "ms").value)
    else if Quantity(lower, "s").Some? then Positive(Quantity(lower, "s").value * 1000)
    else if Quantity(lower, "m").Some? then
      if Quantity(lower, "m").value == 0 then None else Positive(Saturating(Quantity(lower, "m").value * 60) * 1000)
    else None
  }

  lemma DecimalIsPlain(n: nat)
    ensures Trim(Decimal(n)) == Decimal(n) && AsciiLower(Decimal(n)) == Decimal(n)
  {
    DigitsOfDecimal(n);
    var d := Decimal(n);
    assert !IsSpace(d[0]) && !IsSpace(d[|d|-1]);
    assert AsciiLower(d) == d;
  }

  lemma LowerJoins(a: string, b: string)
    ensures AsciiLower(a + b) == AsciiLower(a) + AsciiLower(b)
  {
  }

  // A number, some space and a unit in either case.
  ghost predicate NumberWithUnit(n: nat, gap: string, unit: string) {
    n <= U64_MAX && AllSpace(gap) && AsciiLower(unit) in {"ms", "s", "m"}
  }

  // It is trimmed, no bare number, and in lower case the unit's letters follow the number.
  lemma WithUnit(n: nat, gap: string, unit: string)
    requires NumberWithUnit(n, gap, unit)
    ensures var text := Decimal(n) + gap + unit;
            && text != "" && Trimmed(text) && ParseUnsigned(text, U64_MAX) == None
            && AsciiLower(text) == Decimal(n) + gap + AsciiLower(unit)
  {
    DigitsOfDecimal(n);
    DecimalIsPlain(n);
    var d, text := Decimal(n), Decimal(n) + gap + unit;
    assert text[0] == d[0] && text[|text|-1] == unit[|unit|-1];
    assert AsciiLower(unit)[|unit|-1] in {'s', 'm'};
    LowerJoins(d + gap, unit);
    LowerJoins(d, gap);
    assert AsciiLower(gap) == gap;
  }

  lemma QuantityOf(x: string, unit: string)
    ensures Quantity(x + unit, unit) == ParseUnsigned(Trim(x), U64_MAX)
  {
    CutsUnit(x, unit);
  }

  lemma NumberBeforeGap(n: nat, gap: string)
    requires AllSpace(gap)
    ensures Trim(Decimal(n) + gap) == Decimal(n)
  {
    DigitsOfDecimal(n);
    var d := Decimal(n);
    assert !IsSpace(d[0]) && !IsSpace(d[|d|-1]);
    TrimsPads("", d, gap);
    assert "" + d + gap == d + gap;
  }

  lemma OwnUnit(n: nat, gap: string, unit: string)
    requires n <= U64_MAX && AllSpace(gap)
    ensures Quantity(Decimal(n) + gap + unit, unit) == Some(n)
  {
    QuantityOf(Decimal(n) + gap, unit);
    NumberBeforeGap(n, gap);
    ParsesDecimal(n, U64_MAX);
  }

  lemma CutsUnit(x: string, unit: string)
    ensures (x + unit)[|x + unit| - |unit|..] == unit && (x + unit)[..|x + unit| - |unit|] == x
  {
  }

  // The last character before the unit is a digit or white space.
  lemma OtherUnits(n: nat, gap: string)
    requires AllSpace(gap)
    ensures Quantity(Decimal(n) + gap + "s", "ms") == None
    ensures Quantity(Decimal(n) + gap + "m", "ms") == None && Quantity(Decimal(n) + gap + "m", "s") == None
  {
    DigitsOfDecimal(n);
    var d := Decimal(n) + gap;
    var s, m := d + "s", d + "m";
    assert d[|d|-1] != 'm';
    assert s[|s|-2..][0] == d[|d|-1];
    assert m[|m|-2..][1] == 'm' && m[|m|-1..][0] == 'm';
  }

  /** A number means milliseconds on its own or with `ms`, seconds with `s`, minutes with `m`, in either
      case and with any white space around it; zero means nothing. Minutes saturate at 64 bits of seconds. */
  lemma Units(n: nat, before: string, gap: string, unit: string, after: string)
    requires n <= U64_MAX && AllSpace(before) && AllSpace(gap) && AllSpace(after)
    ensures ParseInterval(before + Decimal(n) + after) == if n == 0 then None else Some(n)
    ensures AsciiLower(unit) == "ms" ==>
              ParseInterval(before + (Decimal(n) + gap + unit) + after) == if n == 0 then None else Some(n)
    ensures AsciiLower(unit) == "s" ==>
              ParseInterval(before + (Decimal(n) + gap + unit) + after) == if n == 0 then None else Some(n * 1000)
    ensures AsciiLower(unit) == "m" ==>
              ParseInterval(before + (Decimal(n) + gap + unit) + after)
              == if n == 0 then None
                 else if n * 60 < TWO_64 then Some(n * 60 * 1000) else Some((TWO_64 - 1) * 1000)
  {
    DigitsOfDecimal(n);
    ParsesDecimal(n, U64_MAX);
    TrimsPads(before, Decimal(n), after);
    if AsciiLower(unit) in {"ms", "s", "m"} {
      WithUnit(n, gap, unit);
      TrimsPads(before, Decimal(n) + gap + unit, after);
      OwnUnit(n, gap, AsciiLower(unit));
      OtherUnits(n, gap);
    }
  }

  // ---------- entries ----------

  datatype Entry = Skipped | Default(interval: nat) | Prefixed(prefix: string, interval: nat)

  // `str::split(',')`.
  function SplitCommas(s: string): seq<string>
    decreases |s|
  {
    var i := IndexOf(s, ',');
    if i == |s| then [s] else [s[..i]] + SplitCommas(s[i+1..])
  }

  // Blank and malformed tokens are skipped.
  function EntryOf(raw: string): Entry {
    var token := Trim(raw);
    var eq := IndexOf(token, '=');
    if eq < |token| then
      var prefix := Trim(token[..eq]);
      var interval := ParseInterval(token[eq+1..]);
      if prefix == "" || interval.None? then Skipped else Prefixed(prefix, interval.value)
    else
      var interval := ParseInterval(token);
      if interval.None? then Skipped else Default(interval.value)
  }

  function EntriesOf(tokens: seq<string>): (r: seq<Entry>)
    ensures |r| == |tokens|
  {
    seq(|tokens|, i requires 0 <= i < |tokens| => EntryOf(tokens[i]))
  }

  // ---------- what the list means ----------

  function LastDefault(es: seq<Entry>): Option<nat> {
    if es == [] then None
    else if es[|es|-1].Default? then Some(es[|es|-1].interval)
    else LastDefault(es[..|es|-1])
  }

  predicate Sets(e: Entry, prefix: string) {
    e.Prefixed? && e.prefix == prefix
  }

  function LastFor(es: seq<Entry>, prefix: string): Option<nat> {
    if es == [] then None
    else if Sets(es[|es|-1], prefix) then Some(es[|es|-1].interval)
    else LastFor(es[..|es|-1], prefix)
  }

  // The prefixes in the order in which they first occur.
  function Prefixes(es: seq<Entry>): seq<string> {
    if es == [] then []
    else
      var init := Prefixes(es[..|es|-1]);
      var last := es[|es|-1];
      if last.Prefixed? && last.prefix !in init then init + [last.prefix] else init
  }

  function FirstUse(es: seq<Entry>, prefix: string): nat {
    if es == [] || Sets(es[0], prefix) then 0 else 1 + FirstUse(es[1..], prefix)
  }

  datatype Config = Config(defaultInterval: Option<nat>, prefixIntervals: seq<(string, nat)>)

  // The configuration means `es` when it holds the last value of everything set, in first-use order.
  ghost predicate Means(config: Config, es: seq<Entry>) {
    && config.defaultInterval == LastDefault(es)
    && |config.prefixIntervals| == |Prefixes(es)|
    && forall k :: 0 <= k < |Prefixes(es)| ==>
         config.prefixIntervals[k].0 == Prefixes(es)[k]
         && LastFor(es, Prefixes(es)[k]) == Some(config.prefixIntervals[k].1)
  }

  lemma {:induction false} PrefixesAreDistinct(es: seq<Entry>)
    ensures forall i, j :: 0 <= i < j < |Prefixes(es)| ==> Prefixes(es)[i] != Prefixes(es)[j]
  {
    if es != [] {
      PrefixesAreDistinct(es[..|es|-1]);
    }
  }

  lemma {:induction false} PrefixesAreThoseSet(es: seq<Entry>, prefix: string)
    ensures prefix in Prefixes(es) <==> LastFor(es, prefix).Some?
    ensures prefix in Prefixes(es) <==> exists i :: 0 <= i < |es| && Sets(es[i], prefix)
  {
    if es != [] {
      var n := |es| - 1;
      PrefixesAreThoseSet(es[..n], prefix);
      if Sets(es[n], prefix) {
      } else if exists i :: 0 <= i < |es| && Sets(es[i], prefix) {
        var i :| 0 <= i < |es| && Sets(es[i], prefix);
        assert Sets(es[..n][i], prefix);
      }
      if prefix in Prefixes(es[..n]) {
        var i :| 0 <= i < n && Sets(es[..n][i], prefix);
        assert Sets(es[i], prefix);
      }
    }
  }

  lemma {:induction false} FirstUseWithin(es: seq<Entry>, more: seq<Entry>, prefix: string)
    ensures FirstUse(es, prefix) <= |es|
    ensures (exists i :: 0 <= i < |es| && Sets(es[i], prefix)) ==>
              FirstUse(es, prefix) < |es| && FirstUse(es + more, prefix) == FirstUse(es, prefix)
    ensures !(exists i :: 0 <= i < |es| && Sets(es[i], prefix)) ==> FirstUse(es + more, prefix) >= |es|
  {
    if es != [] {
      FirstUseWithin(es[1..], more, prefix);
      assert (es + more)[1..] == es[1..] + more;
      if !Sets(es[0], prefix) && exists i :: 0 <= i < |es| && Sets(es[i], prefix) {
        var i :| 0 <= i < |es| && Sets(es[i], prefix);
        assert Sets(es[1..][i-1], prefix);
      }
    }
  }

  /** The kept prefixes stand in the order in which they were first validly set. */
  lemma {:induction false} InOrderOfFirstUse(es: seq<Entry>, i: nat, j: nat)
    requires i < j < |Prefixes(es)|
    ensures FirstUse(es, Prefixes(es)[i]) < FirstUse(es, Prefixes(es)[j]) < |es|
  {
    var n := |es| - 1;
    var init := es[..n];
    assert es == init + [es[n]];
    var a, b := Prefixes(es)[i], Prefixes(es)[j];
    PrefixesAreThoseSet(init, a);
    PrefixesAreThoseSet(init, b);
    FirstUseWithin(init, [es[n]], a);
    FirstUseWithin(init, [es[n]], b);
    if j < |Prefixes(init)| {
      InOrderOfFirstUse(init, i, j);
      assert b in Prefixes(init);
    } else {
      assert Sets(es[n], b);
      FirstUseWithin(es, [], b);
    }
    assert a in Prefixes(init);
  }

  // ---------- what the text means ----------

  function JoinCommas(tokens: seq<string>): string
    requires tokens != []
  {
    if |tokens| == 1 then tokens[0] else tokens[0] + "," + JoinCommas(tokens[1..])
  }

  // The first `c` after a text without one.
  lemma FirstAt(left: string, c: char, right: string)
    requires c !in left
    ensures IndexOf(left + [c] + right, c) == |left|
    ensures (left + [c] + right)[..|left|] == left && (left + [c] + right)[|left|+1..] == right
  {
    var s := left + [c] + right;
    assert s[|left|] == c;
    assert forall j | 0 <= j < |left| :: s[j] == left[j];
  }

  lemma SplitsFirst(token: string, text: string)
    requires ',' !in token
    ensures SplitCommas(token + "," + text) == [token] + SplitCommas(text)
  {
    FirstAt(token, ',', text);
  }

  /** Tokens without commas, joined by commas, are split apart again. */
  lemma {:induction false} SplitsJoined(tokens: seq<string>)
    requires tokens != [] && forall i | 0 <= i < |tokens| :: ',' !in tokens[i]
    ensures SplitCommas(JoinCommas(tokens)) == tokens
  {
    if |tokens| == 1 {
      assert IndexOf(tokens[0], ',') == |tokens[0]|;
    } else {
      SplitsFirst(tokens[0], JoinCommas(tokens[1..]));
      SplitsJoined(tokens[1..]);
    }
  }

  lemma SpaceAround(before: string, text: string)
    requires AllSpace(before) && Trimmed(text)
    ensures ParseInterval(before + text) == ParseInterval(text)
  {
    assert Trim(before + text) == text by {
      TrimsPads(before, text, "");
      assert before + text + "" == before + text;
    }
    assert Trim(text) == text by {
      TrimsPads("", text, "");
      assert "" + text + "" == text;
    }
  }

  /** `prefix=duration`, with any white space around the parts, sets that prefix to that duration; a bad
      duration or an empty prefix makes the token count for nothing. */
  lemma PrefixedTokenMeans(p1: string, prefix: string, p2: string, p3: string, text: string, p4: string)
    requires AllSpace(p1) && AllSpace(p2) && AllSpace(p3) && AllSpace(p4)
    requires Trimmed(prefix) && '=' !in prefix && Trimmed(text) && text != ""
    requires prefix == "" ==> p2 == ""
    ensures EntryOf(p1 + ((prefix + p2) + "=" + (p3 + text)) + p4)
         == if prefix == "" || ParseInterval(text).None? then Skipped
            else Prefixed(prefix, ParseInterval(text).value)
  {
    var token := (prefix + p2) + "=" + (p3 + text);
    assert token[0] == if prefix == "" then '=' else prefix[0];
    assert token[|token|-1] == text[|text|-1];
    TrimsPads(p1, token, p4);
    assert '=' !in p2;
    FirstAt(prefix + p2, '=', p3 + text);
    TrimsPads("", prefix, p2);
    assert "" + prefix + p2 == prefix + p2;
    SpaceAround(p3, text);
  }

  /** A duration on its own sets the default; anything else without `=` counts for nothing. */
  lemma BareTokenMeans(p1: string, text: string, p2: string)
    requires AllSpace(p1) && AllSpace(p2) && Trimmed(text) && '=' !in text
    ensures EntryOf(p1 + text + p2)
         == if ParseInterval(text).Some? then Default(ParseInterval(text).value) else Skipped
  {
    TrimsPads(p1, text, p2);
    assert IndexOf(text, '=') == |text|;
  }

  /** What is kept for a prefix is its last valid entry. */
  lemma {:induction false} LastEntryWins(es: seq<Entry>, prefix: string, i: nat)
    requires i < |es| && es[i].Prefixed? && es[i].prefix == prefix
    requires forall j | i < j < |es| :: !(es[j].Prefixed? && es[j].prefix == prefix)
    ensures LastFor(es, prefix) == Some(es[i].interval)
  {
    var n := |es| - 1;
    if i < n {
      assert es[..n][i] == es[i] && forall j | i < j < n :: es[..n][j] == es[j];
      LastEntryWins(es[..n], prefix, i);
    }
  }

  lemma {:induction false} NoEntryNoInterval(es: seq<Entry>, prefix: string)
    requires forall j | 0 <= j < |es| :: !(es[j].Prefixed? && es[j].prefix == prefix)
    ensures LastFor(es, prefix) == None
  {
    if es != [] {
      NoEntryNoInterval(es[..|es|-1], prefix);
    }
  }

  /** What is kept as the default is the last valid default. */
  lemma {:induction false} LastDefaultWins(es: seq<Entry>, i: nat)
    requires i < |es| && es[i].Default? && forall j | i < j < |es| :: !es[j].Default?
    ensures LastDefault(es) == Some(es[i].interval)
  {
    var n := |es| - 1;
    if i < n {
      assert es[..n][i] == es[i] && forall j | i < j < n :: es[..n][j] == es[j];
      LastDefaultWins(es[..n], i);
    }
  }

  // ---------- the loop ----------

  // `r` is the list with the interval of a known prefix replaced, or a new prefix at its end.
  ghost predicate UpdatedFor(intervals: seq<(string, nat)>, prefix: string, interval: nat, r: seq<(string, nat)>) {
    if exists k :: 0 <= k < |intervals| && intervals[k].0 == prefix then
      exists k :: 0 <= k < |intervals| && intervals[k].0 == prefix && r == intervals[k := (prefix, interval)]
    else r == intervals + [(prefix, interval)]
  }

  method SetPrefix(intervals: seq<(string, nat)>, prefix: string, interval: nat) returns (r: seq<(string, nat)>)
    ensures UpdatedFor(intervals, prefix, interval, r)
  {
    for i := 0 to |intervals|
      invariant forall k | 0 <= k < i :: intervals[k].0 != prefix
    {
      if intervals[i].0 == prefix {
        r := intervals[i := (prefix, interval)];
        return;
      }
    }
    r := intervals + [(prefix, interval)];
  }

  // One more entry for `prefix`.
  lemma PrefixStep(config: Config, es: seq<Entry>, prefix: string, interval: nat, updated: seq<(string, nat)>)
    requires Means(config, es)
    requires UpdatedFor(config.prefixIntervals, prefix, interval, updated)
    ensures Means(config.(prefixIntervals := updated), es + [Prefixed(prefix, interval)])
  {
    var longer := es + [Prefixed(prefix, interval)];
    assert longer[..|longer|-1] == es;
    PrefixesAreDistinct(es);
    if exists k :: 0 <= k < |config.prefixIntervals| && config.prefixIntervals[k].0 == prefix {
      var k :| 0 <= k < |config.prefixIntervals| && config.prefixIntervals[k].0 == prefix
               && updated == config.prefixIntervals[k := (prefix, interval)];
      assert Prefixes(es)[k] == prefix;
      assert Prefixes(longer) == Prefixes(es);
      forall m | 0 <= m < |Prefixes(es)|
        ensures updated[m].0 == Prefixes(es)[m] && LastFor(longer, Prefixes(es)[m]) == Some(updated[m].1)
      {
      }
    } else {
      assert prefix !in Prefixes(es) by {
        forall k | 0 <= k < |Prefixes(es)| ensures Prefixes(es)[k] != prefix {
          assert config.prefixIntervals[k].0 == Prefixes(es)[k];
        }
      }
      assert Prefixes(longer) == Prefixes(es) + [prefix];
    }
  }

  lemma OtherStep(config: Config, es: seq<Entry>, e: Entry)
    requires Means(config, es) && !e.Prefixed?
    ensures Means(if e.Default? then config.(defaultInterval := Some(e.interval)) else config, es + [e])
  {
    var longer := es + [e];
    assert longer[..|longer|-1] == es;
    assert Prefixes(longer) == Prefixes(es);
  }

  // The configuration after one more token.
  method Record(config: Config, tokens: seq<string>, i: nat) returns (r: Config)
    requires i < |tokens| && Means(config, EntriesOf(tokens)[..i])
    ensures Means(r, EntriesOf(tokens)[..i+1])
  {
    ghost var es := EntriesOf(tokens)[..i];
    var entry := EntryOf(tokens[i]);
    assert EntriesOf(tokens)[..i+1] == es + [entry];
    match entry {
      case Prefixed(prefix, interval) =>
        var updated := SetPrefix(config.prefixIntervals, prefix, interval);
        PrefixStep(config, es, prefix, interval, updated);
        r := config.(prefixIntervals := updated);
      case Default(interval) =>
        OtherStep(config, es, entry);
        r := config.(defaultInterval := Some(interval));
      case Skipped =>
        OtherStep(config, es, entry);
        r := config;
    }
  }

  /** Reads the whole setting: the last valid entry for each prefix and for the default, or None when
      no entry is valid. */
  method ParseConfig(raw: string) returns (result: Option<Config>)
    ensures result.None? <==> forall e | e in EntriesOf(SplitCommas(raw)) :: e.Skipped?
    ensures result.Some? ==> Means(result.value, EntriesOf(SplitCommas(raw)))
  {
    var tokens := SplitCommas(raw);
    ghost var es := EntriesOf(tokens);
    var config := Config(None, []);
    for i := 0 to |tokens|
      invariant Means(config, es[..i])
    {
      config := Record(config, tokens, i);
    }
    assert es[..|tokens|] == es;
    NothingKeptIff(config, es);
    if config.defaultInterval.None? && config.prefixIntervals == [] {
      return None;
    }
    return Some(config);
  }

  lemma NothingKeptIff(config: Config, es: seq<Entry>)
    requires Means(config, es)
    ensures config.defaultInterval.None? && config.prefixIntervals == [] <==> forall e | e in es :: e.Skipped?
  {
    EmptyIff(es);
  }

  lemma {:induction false} EmptyIff(es: seq<Entry>)
    ensures LastDefault(es).None? && Prefixes(es) == [] <==> forall e | e in es :: e.Skipped?
  {
    if es != [] {
      var n := |es| - 1;
      EmptyIff(es[..n]);
      assert es == es[..n] + [es[n]];
      assert es[n] in es;
      assert forall e | e in es[..n] :: e in es;
      assert Prefixes(es) == [] <==> Prefixes(es[..n]) == [] && !es[n].Prefixed?;
    }
  }

  lemma {:induction false} LastForIsParsed(tokens: seq<string>, prefix: string)
    ensures LastFor(EntriesOf(tokens), prefix).Some? ==> LastFor(EntriesOf(tokens), prefix).value > 0
    ensures LastDefault(EntriesOf(tokens)).Some? ==> LastDefault(EntriesOf(tokens)).value > 0
  {
    if tokens != [] {
      LastForIsParsed(tokens[..|tokens|-1], prefix);
      assert EntriesOf(tokens)[..|tokens|-1] == EntriesOf(tokens[..|tokens|-1]);
    }
  }

  /** Whatever the setting says, no prefix is listed twice and every interval is positive. */
  lemma ConfigIsSane(raw: string, config: Config)
    requires Means(config, EntriesOf(SplitCommas(raw)))
    ensures forall i, j :: 0 <= i < j < |config.prefixIntervals| ==>
              config.prefixIntervals[i].0 != config.prefixIntervals[j].0
    ensures forall i :: 0 <= i < |config.prefixIntervals| ==> config.prefixIntervals[i].1 > 0
    ensures config.defaultInterval.Some? ==> config.defaultInterval.value > 0
  {
    var es := EntriesOf(SplitCommas(raw));
    PrefixesAreDistinct(es);
    LastForIsParsed(SplitCommas(raw), "");
    forall i | 0 <= i < |config.prefixIntervals| ensures config.prefixIntervals[i].1 > 0 {
      LastForIsParsed(SplitCommas(raw), Prefixes(es)[i]);
    }
  }
}
