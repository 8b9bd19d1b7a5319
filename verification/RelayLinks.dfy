/**
 Runtime link control of the relays: the tables of cut and stalled links, rebuilt from the lines of
 a file, and the share of time a stalled link holds datagrams back. A line is the list of its
 whitespace-separated tokens, each already parsed as a number where it is one.
 */
module RelayLinks {
  import opened Wrappers

  type Token = Option<nat>
  type Line = seq<Token>

  datatype Stall = Stall(period: nat, stall: nat, delay: nat)

  // ---------- lines ----------

  // A cut names its two nodes first; what follows on the line is ignored.
  function CutPair(line: Line): Option<(nat, nat)> {
    if |line| >= 2 && line[0].Some? && line[1].Some? then Some((line[0].value, line[1].value)) else None
  }

  function Numbers(line: Line): seq<nat> {
    if line == [] then []
    else (if line[0].Some? then [line[0].value] else []) + Numbers(line[1..])
  }

  // A stall has exactly five numbers; other tokens are skipped.
  function StallEntry(line: Line): Option<((nat, nat), Stall)> {
    var v := Numbers(line);
    if |v| == 5 then Some(((v[0], v[1]), Stall(v[2], v[3], v[4]))) else None
  }

  predicate SamePair(p: (nat, nat), a: nat, b: nat) {
    p == (a, b) || p == (b, a)
  }

  predicate Cuts(line: Line, a: nat, b: nat) {
    CutPair(line).Some? && SamePair(CutPair(line).value, a, b)
  }

  predicate Stalls(line: Line, a: nat, b: nat) {
    StallEntry(line).Some? && SamePair(StallEntry(line).value.0, a, b)
  }

  // The stall named by the last valid line for the unordered pair {a, b}.
  function LastStall(lines: seq<Line>, a: nat, b: nat): Option<Stall> {
    if lines == [] then None
    else
      var last := lines[|lines| - 1];
      if Stalls(last, a, b) then Some(StallEntry(last).value.1)
      else LastStall(lines[..|lines| - 1], a, b)
  }

  // ---------- when a link stalls ----------

  function Period(s: Stall): nat {
    if s.period == 0 then 1 else s.period
  }

  predicate Stalled(s: Stall, ms: nat) {
    ms % Period(s) < s.stall
  }

  // What a link with this entry adds, in milliseconds.
  function Hold(entry: Option<Stall>, ms: nat): nat {
    if entry.Some? && Stalled(entry.value, ms) then entry.value.delay else 0
  }

  // ---------- the shared tables ----------

  class LinkTables {
    var blocked: set<(nat, nat)>
    var stalled: map<(nat, nat), Stall>

    constructor ()
      ensures blocked == {} && stalled == map[]
    {
      blocked, stalled := {}, map[];
    }

    /** One poll of the blocked-links file. */
    method ReloadBlocked(lines: seq<Line>)
      modifies this`blocked
      ensures forall a: nat, b: nat :: (a, b) in blocked <==> exists k :: 0 <= k < |lines| && Cuts(lines[k], a, b)
      ensures forall a: nat, b: nat :: (a, b) in blocked <==> (b, a) in blocked
      ensures forall a: nat, b: nat ::
                (a, b) in blocked <==> exists k :: 0 <= k < |lines| && NamesFirst(lines[k], a, b)
    {
      var links: set<(nat, nat)> := {};
      for i := 0 to |lines|
        invariant forall a: nat, b: nat :: (a, b) in links <==> exists k :: 0 <= k < i && Cuts(lines[k], a, b)
      {
        var pair := CutPair(lines[i]);
        if pair.Some? {
          links := links + {pair.value, (pair.value.1, pair.value.0)};
        }
      }
      assert forall k, a: nat, b: nat | 0 <= k < |lines| :: Cuts(lines[k], a, b) <==> Cuts(lines[k], b, a);
      forall k, a: nat, b: nat | 0 <= k < |lines| ensures Cuts(lines[k], a, b) <==> NamesFirst(lines[k], a, b) {
        CutsNamed(lines[k], a, b);
      }
      if blocked != links {
        blocked := links;
      }
    }

    /** One poll of the stalled-links file: the last valid line for a pair wins, both ways. */
    method ReloadStalled(lines: seq<Line>)
      modifies this`stalled
      ensures forall a: nat, b: nat :: (a, b) in stalled <==> LastStall(lines, a, b).Some?
      ensures forall a: nat, b: nat :: (a, b) in stalled ==> Some(stalled[(a, b)]) == LastStall(lines, a, b)
      ensures forall a: nat, b: nat :: (a, b) in stalled ==> (b, a) in stalled && stalled[(b, a)] == stalled[(a, b)]
      ensures forall i | 0 <= i < |lines| && |Numbers(lines[i])| == 5 && NotNamedAfter(lines, i) ::
                var v := Numbers(lines[i]);
                && (v[0], v[1]) in stalled && stalled[(v[0], v[1])] == Stall(v[2], v[3], v[4])
                && (v[1], v[0]) in stalled && stalled[(v[1], v[0])] == Stall(v[2], v[3], v[4])
      ensures forall a: nat, b: nat, ms: nat :: StallDelay(a, b, ms) == Hold(LastStall(lines, a, b), ms)
    {
      var links: map<(nat, nat), Stall> := map[];
      for i := 0 to |lines|
        invariant forall a: nat, b: nat :: (a, b) in links <==> LastStall(lines[..i], a, b).Some?
        invariant forall a: nat, b: nat :: (a, b) in links ==> Some(links[(a, b)]) == LastStall(lines[..i], a, b)
      {
        assert lines[..i+1][..i] == lines[..i];
        var entry := StallEntry(lines[i]);
        if entry.Some? {
          var ((a, b), s) := entry.value;
          links := links[(a, b) := s][(b, a) := s];
        }
      }
      assert lines[..|lines|] == lines;
      forall a: nat, b: nat ensures LastStall(lines, a, b) == LastStall(lines, b, a) {
        LastStallIsSymmetric(lines, a, b);
      }
      forall i | 0 <= i < |lines| && |Numbers(lines[i])| == 5 && NotNamedAfter(lines, i)
        ensures var v := Numbers(lines[i]);
                && LastStall(lines, v[0], v[1]) == Some(Stall(v[2], v[3], v[4]))
                && LastStall(lines, v[1], v[0]) == Some(Stall(v[2], v[3], v[4]))
      {
        LastStallIs(lines, i);
      }
      if stalled != links {
        stalled := links;
      }
    }

    // The hold put on a datagram entering `src -> dst` at `ms` milliseconds after the epoch.
    function StallDelay(src: nat, dst: nat, ms: nat): nat
      reads this
    {
      Hold(if (src, dst) in stalled then Some(stalled[(src, dst)]) else None, ms)
    }
  }

  // ---------- what the tokens of a line mean ----------

  // The line starts with the two numbers of the pair, either way round.
  predicate NamesFirst(line: Line, a: nat, b: nat) {
    |line| >= 2 && (line[..2] == [Some(a), Some(b)] || line[..2] == [Some(b), Some(a)])
  }

  lemma CutsNamed(line: Line, a: nat, b: nat)
    ensures Cuts(line, a, b) <==> NamesFirst(line, a, b)
  {
    if |line| >= 2 {
      assert line[..2] == [line[0], line[1]];
    }
  }

  /** The numbers of a line are its number tokens in order; other tokens are skipped. */
  lemma {:induction false} NumbersAre(before: Line, t: Token, after: Line)
    ensures Numbers(before + [t] + after)
         == Numbers(before) + (if t.Some? then [t.value] else []) + Numbers(after)
    ensures Numbers([]) == []
  {
    var line := before + [t] + after;
    if before == [] {
      assert line[0] == t && line[1..] == after;
    } else {
      var first := if before[0].Some? then [before[0].value] else [];
      NumbersAre(before[1..], t, after);
      assert line[0] == before[0] && line[1..] == before[1..] + [t] + after;
      assert Numbers(line) == first + Numbers(before[1..] + [t] + after);
      assert Numbers(before) == first + Numbers(before[1..]);
    }
  }

  // No later line of five numbers names the same pair.
  predicate NotNamedAfter(lines: seq<Line>, i: nat)
    requires i < |lines| && |Numbers(lines[i])| == 5
  {
    forall j | i < j < |lines| && |Numbers(lines[j])| == 5 ::
      var v, w := Numbers(lines[i]), Numbers(lines[j]);
      !(w[0] == v[0] && w[1] == v[1]) && !(w[0] == v[1] && w[1] == v[0])
  }

  /** The last line of five numbers for a pair is its entry: two nodes, then period, stall and delay. */
  lemma {:induction false} LastStallIs(lines: seq<Line>, i: nat)
    requires i < |lines| && |Numbers(lines[i])| == 5 && NotNamedAfter(lines, i)
    ensures var v := Numbers(lines[i]);
            && LastStall(lines, v[0], v[1]) == Some(Stall(v[2], v[3], v[4]))
            && LastStall(lines, v[1], v[0]) == Some(Stall(v[2], v[3], v[4]))
  {
    var n := |lines| - 1;
    if i < n {
      assert lines[..n][i] == lines[i];
      assert forall j | 0 <= j < n :: lines[..n][j] == lines[j];
      LastStallIs(lines[..n], i);
    }
  }

  /** A line that does not have exactly five numbers changes nothing. */
  lemma {:induction false} OtherLinesAreIgnored(before: seq<Line>, line: Line, after: seq<Line>, a: nat, b: nat)
    requires |Numbers(line)| != 5
    ensures LastStall(before + [line] + after, a, b) == LastStall(before + after, a, b)
  {
    var all := before + [line] + after;
    if after == [] {
      assert all[..|all|-1] == before && before + after == before;
    } else {
      var n := |after| - 1;
      OtherLinesAreIgnored(before, line, after[..n], a, b);
      assert all[..|all|-1] == before + [line] + after[..n];
      assert (before + after)[..|before+after|-1] == before + after[..n];
    }
  }

  /** Where in its period a link stalls: in the first `stall` milliseconds of every period since the epoch,
      where it holds datagrams back by `delay`. */
  lemma HoldIs(s: Stall, q: nat, phase: nat)
    requires s.period > 0 && phase < s.period
    ensures Hold(Some(s), q * s.period + phase) == if phase < s.stall then s.delay else 0
    ensures Hold(None, q * s.period + phase) == 0
  {
    PeriodsRepeat(q, s.period, phase);
  }

  lemma {:induction false} PeriodsRepeat(q: nat, p: nat, r: nat)
    requires r < p
    ensures (q * p + r) % p == r
  {
    if q > 0 {
      PeriodsRepeat(q - 1, p, r);
      PeriodRepeats((q - 1) * p + r, p);
      assert (q - 1) * p + r + p == q * p + r;
    }
  }

  lemma {:induction false} LastStallIsSymmetric(lines: seq<Line>, a: nat, b: nat)
    ensures LastStall(lines, a, b) == LastStall(lines, b, a)
  {
    if lines != [] {
      LastStallIsSymmetric(lines[..|lines| - 1], a, b);
    }
  }

  /** The table entry of a pair comes from a valid line for it that no later valid line overrides. */
  lemma {:induction false} LastValidLineWins(lines: seq<Line>, a: nat, b: nat)
    ensures LastStall(lines, a, b).None? <==> forall k | 0 <= k < |lines| :: !Stalls(lines[k], a, b)
    ensures LastStall(lines, a, b).Some? ==> exists k ::
              && 0 <= k < |lines| && Stalls(lines[k], a, b)
              && LastStall(lines, a, b) == Some(StallEntry(lines[k]).value.1)
              && forall m | k < m < |lines| :: !Stalls(lines[m], a, b)
  {
    if lines != [] {
      var n := |lines| - 1;
      LastValidLineWins(lines[..n], a, b);
      if Stalls(lines[n], a, b) {
        assert LastStall(lines, a, b) == Some(StallEntry(lines[n]).value.1);
      } else {
        assert forall k | 0 <= k < n :: lines[..n][k] == lines[k];
        if LastStall(lines, a, b).Some? {
          var k :| 0 <= k < n && Stalls(lines[..n][k], a, b)
            && LastStall(lines, a, b) == Some(StallEntry(lines[..n][k]).value.1)
            && forall m | k < m < n :: !Stalls(lines[..n][m], a, b);
          assert Stalls(lines[k], a, b);
          assert forall m | k < m < |lines| :: !Stalls(lines[m], a, b);
        }
      }
    }
  }

  // ---------- how long a link stalls ----------

  // How many of the `len` milliseconds from `start` are stalled.
  function StalledMs(s: Stall, start: nat, len: nat): nat
    decreases len
  {
    if len == 0 then 0 else (if Stalled(s, start) then 1 else 0) + StalledMs(s, start + 1, len - 1)
  }

  lemma {:induction false} StalledMsLast(s: Stall, start: nat, len: nat)
    ensures StalledMs(s, start, len + 1) == StalledMs(s, start, len) + if Stalled(s, start + len) then 1 else 0
    decreases len
  {
    if len > 0 {
      StalledMsLast(s, start + 1, len - 1);
    }
  }

  lemma {:induction false} StalledMsFromZero(s: Stall, len: nat)
    requires len <= Period(s)
    ensures StalledMs(s, 0, len) == if s.stall < len then s.stall else len
  {
    if len > 0 {
      StalledMsFromZero(s, len - 1);
      StalledMsLast(s, 0, len - 1);
      assert (len - 1) % Period(s) == len - 1;
    }
  }

  lemma AtLeastOnce(k: int, p: nat)
    requires k >= 1
    ensures k * p >= p
  {
  }

  lemma PeriodRepeats(ms: nat, p: nat)
    requires p > 0
    ensures (ms + p) % p == ms % p
  {
    var q, r := ms / p, ms % p;
    var q', r' := (ms + p) / p, (ms + p) % p;
    var gap := q' - (q + 1);
    assert r == r' + gap * p by {
      assert ms == q * p + r && ms + p == q' * p + r';
      assert gap * p == q' * p - q * p - p;
    }
    if gap >= 1 {
      AtLeastOnce(gap, p);
    } else if gap <= -1 {
      AtLeastOnce(-gap, p);
    }
  }

  /** Over any whole period, wherever it starts, the link stalls for exactly its share of it. */
  lemma {:induction false} StallShare(s: Stall, start: nat)
    ensures StalledMs(s, start, Period(s)) == if s.stall < Period(s) then s.stall else Period(s)
    decreases start
  {
    var p := Period(s);
    if start == 0 {
      StalledMsFromZero(s, p);
    } else {
      StallShare(s, start - 1);
      StalledMsLast(s, start - 1, p);
      PeriodRepeats(start - 1, p);
      assert StalledMs(s, start - 1, p + 1)
          == (if Stalled(s, start - 1) then 1 else 0) + StalledMs(s, start, p);
    }
  }
}
