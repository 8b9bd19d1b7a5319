/**
 The relay's table of peer sessions: one session per peer, at most MAX_SESSIONS of them, the
 least recently active evicted to make room. Only `last_seen` of a session matters here.
 */
module RelaySessions {
  import opened Wrappers

  const MAX_SESSIONS: nat := 256

  // A peer's socket address.
  type Peer = nat

  // Each live session with its `last_seen`.
  type Table = map<Peer, nat>

  // How handing the datagram to the forward worker ends.
  datatype Handover = Queued | QueueFull | WorkerGone

  /** One received datagram with everything the loop body observes: the two clock readings, whether
      an upstream socket can be made, whether the link is cut, and what the queue answers. */
  datatype Arrival = Arrival(
    peer: Peer, createdAt: nat, seenAt: nat, upstreamOk: bool, blocked: bool, handover: Handover)

  ghost predicate LeastRecent(t: Table, p: Peer) {
    p in t && forall q :: q in t ==> t[p] <= t[q]
  }

  predicate MustEvict(t: Table, a: Arrival) {
    a.peer !in t && |t| >= MAX_SESSIONS
  }

  // The loop body, given the peer evicted, if any.
  function Process(t: Table, a: Arrival, evicted: Option<Peer>): Table {
    var room := if evicted.Some? then t - {evicted.value} else t;
    if a.peer !in t && !a.upstreamOk then room
    else
      var known := if a.peer in t then room else room[a.peer := a.createdAt];
      if a.blocked then known
      else if a.handover.WorkerGone? then known - {a.peer}
      else known[a.peer := a.seenAt]
  }

  ghost predicate Step(t: Table, a: Arrival, evicted: Option<Peer>, t': Table) {
    && (MustEvict(t, a) <==> evicted.Some?)
    && (evicted.Some? ==> LeastRecent(t, evicted.value))
    && t' == Process(t, a, evicted)
  }

  class Relay {
    var sessions: Table

    constructor ()
      ensures sessions == map[]
    {
      sessions := map[];
    }

    // `min_by_key` over the sessions.
    method LeastRecentlySeen() returns (lru: Option<Peer>)
      ensures lru.None? <==> sessions == map[]
      ensures lru.Some? ==> LeastRecent(sessions, lru.value)
    {
      lru := None;
      var rest := sessions.Keys;
      while rest != {}
        invariant rest <= sessions.Keys
        invariant lru.None? ==> rest == sessions.Keys
        invariant lru.Some? ==> lru.value in sessions
        invariant lru.Some? ==> forall q | q in sessions && q !in rest :: sessions[lru.value] <= sessions[q]
        decreases rest
      {
        var p :| p in rest;
        if lru.None? || sessions[p] < sessions[lru.value] {
          lru := Some(p);
        }
        rest := rest - {p};
      }
    }

    // A newcomer's session: room is made first, then the upstream socket may fail.
    method OpenSession(a: Arrival) returns (evicted: Option<Peer>)
      requires a.peer !in sessions
      modifies this
      ensures evicted.Some? <==> MustEvict(old(sessions), a)
      ensures evicted.Some? ==> LeastRecent(old(sessions), evicted.value)
      ensures var room := if evicted.Some? then old(sessions) - {evicted.value} else old(sessions);
              sessions == if a.upstreamOk then room[a.peer := a.createdAt] else room
    {
      evicted := None;
      if |sessions| >= MAX_SESSIONS {
        evicted := LeastRecentlySeen();
        sessions := sessions - {evicted.value};
      }
      if a.upstreamOk {
        sessions := sessions[a.peer := a.createdAt];
      }
    }

    /** The body of the receive loop. */
    method OnDatagram(a: Arrival) returns (evicted: Option<Peer>)
      modifies this
      ensures Step(old(sessions), a, evicted, sessions)
      ensures a.blocked && a.peer in old(sessions) ==> sessions == old(sessions)
      ensures evicted.Some? <==> a.peer !in old(sessions) && |old(sessions)| >= 256
      ensures forall q | q != a.peer ::
                && (q in sessions <==> q in old(sessions) && evicted != Some(q))
                && (q in sessions ==> sessions[q] == old(sessions)[q])
    {
      evicted := None;
      if a.peer !in sessions {
        evicted := OpenSession(a);
        if !a.upstreamOk {
          return;
        }
      }
      if a.blocked {
        return;
      }
      sessions := sessions[a.peer := a.seenAt];
      if a.handover.WorkerGone? {
        sessions := sessions - {a.peer};
      }
    }
  }

  lemma StepKeepsBound(t: Table, a: Arrival, evicted: Option<Peer>, t': Table)
    requires |t| <= MAX_SESSIONS && Step(t, a, evicted, t')
    ensures |t'| <= MAX_SESSIONS
  {
    var room := if evicted.Some? then t.Keys - {evicted.value} else t.Keys;
    if a.peer in t {
      SubsetSize(t'.Keys, t.Keys);
    } else {
      assert |room| < MAX_SESSIONS;
      SubsetSize(t'.Keys, room + {a.peer});
    }
  }

  lemma {:induction false} SubsetSize<T>(a: set<T>, b: set<T>)
    requires a <= b
    ensures |a| <= |b|
  {
    if a != {} {
      var x :| x in a;
      SubsetSize(a - {x}, b - {x});
    }
  }

  // ---------- runs ----------

  /** A run: the arrivals, the tables before and after each, and who was evicted. Clock readings
      never go back from one arrival to the next. */
  ghost predicate IsRun(arrivals: seq<Arrival>, tables: seq<Table>, evictions: seq<Option<Peer>>) {
    && |tables| == |arrivals| + 1 && |evictions| == |arrivals|
    && tables[0] == map[]
    && (forall k :: 0 <= k < |arrivals| ==> Step(tables[k], arrivals[k], evictions[k], tables[k+1]))
    && (forall k :: 0 <= k < |arrivals| ==> arrivals[k].createdAt <= arrivals[k].seenAt)
    && (forall i, k :: 0 <= i < k < |arrivals| ==> arrivals[i].seenAt <= arrivals[k].createdAt)
  }

  // The arrival set its peer's `last_seen` and left the session in place.
  predicate Touches(t: Table, a: Arrival) {
    && (a.peer in t || a.upstreamOk)
    && (a.blocked ==> a.peer !in t)
    && !(a.handover.WorkerGone? && !a.blocked)
  }

  // Peers that sent a datagram after arrival `i`, up to and including arrival `j`.
  ghost function SendersBetween(arrivals: seq<Arrival>, i: nat, j: nat): set<Peer>
    requires j < |arrivals|
  {
    set m | i < m <= j :: arrivals[m].peer
  }

  // Peers that sent a datagram at the instant `since` or later, up to arrival `j`.
  ghost function SendersSince(arrivals: seq<Arrival>, since: nat, j: nat): set<Peer>
    requires j < |arrivals|
  {
    set m | 0 <= m <= j && since <= arrivals[m].seenAt :: arrivals[m].peer
  }

  /** The table never exceeds its cap. */
  lemma {:induction false} TableIsBounded(
      arrivals: seq<Arrival>, tables: seq<Table>, evictions: seq<Option<Peer>>, k: nat)
    requires IsRun(arrivals, tables, evictions) && k < |tables|
    ensures |tables[k]| <= MAX_SESSIONS
  {
    if k > 0 {
      TableIsBounded(arrivals, tables, evictions, k - 1);
      StepKeepsBound(tables[k-1], arrivals[k-1], evictions[k-1], tables[k]);
    }
  }

  /** Only a full table evicts, only for a newcomer, and always its least recent session. */
  lemma EvictsLeastRecentOfFullTable(
      arrivals: seq<Arrival>, tables: seq<Table>, evictions: seq<Option<Peer>>, k: nat)
    requires IsRun(arrivals, tables, evictions) && k < |arrivals| && evictions[k].Some?
    ensures |tables[k]| == MAX_SESSIONS && arrivals[k].peer !in tables[k]
    ensures LeastRecent(tables[k], evictions[k].value)
    ensures tables[k+1].Keys - {arrivals[k].peer} == tables[k].Keys - {evictions[k].value}
  {
    TableIsBounded(arrivals, tables, evictions, k);
    assert Step(tables[k], arrivals[k], evictions[k], tables[k+1]);
  }

  // An arrival leaves everyone else's `last_seen` alone.
  lemma OthersKeepTheirTime(t: Table, a: Arrival, evicted: Option<Peer>, t': Table, q: Peer)
    requires Step(t, a, evicted, t') && q in t' && q != a.peer
    ensures q in t && t[q] == t'[q]
  {
  }

  /** What one datagram does, case by case. A datagram on a cut link leaves a known peer's session as it
      was and gives a newcomer the time its session was made; a failed upstream gives it none; a worker
      that is gone ends the session; anything else sets `last_seen`. Everyone else keeps theirs, except
      the one evicted to make room, which was seen no later than any other. */
  lemma ArrivalDoes(t: Table, a: Arrival, evicted: Option<Peer>, t': Table)
    requires Step(t, a, evicted, t')
    ensures evicted.Some? <==> a.peer !in t && |t| >= 256
    ensures evicted.Some? ==> evicted.value in t && forall q | q in t :: t[evicted.value] <= t[q]
    ensures forall q | q != a.peer :: (q in t' <==> q in t && evicted != Some(q)) && (q in t' ==> t'[q] == t[q])
    ensures a.peer in t && a.blocked ==> t' == t
    ensures a.peer !in t && !a.upstreamOk ==> a.peer !in t'
    ensures a.peer !in t && a.upstreamOk && a.blocked ==> a.peer in t' && t'[a.peer] == a.createdAt
    ensures (a.peer in t || a.upstreamOk) && !a.blocked ==>
              if a.handover == WorkerGone then a.peer !in t' else a.peer in t' && t'[a.peer] == a.seenAt
  {
  }

  // The session of `q` was made by arrival `c` and has lasted until table `k`.
  ghost predicate MadeBy(arrivals: seq<Arrival>, tables: seq<Table>, c: nat, k: nat, q: Peer)
    requires |tables| == |arrivals| + 1 && c < k < |tables|
  {
    && arrivals[c].peer == q && q !in tables[c] && forall m | c < m <= k :: q in tables[m]
  }

  // Arrival `m` is a datagram of `q` that was let through.
  ghost predicate LetThrough(arrivals: seq<Arrival>, m: nat, q: Peer)
    requires m < |arrivals|
  {
    arrivals[m].peer == q && !arrivals[m].blocked
  }

  /** Over every run, a session's `last_seen` is the time its peer's last datagram was let through since
      the session was made, or else the time it was made. Datagrams on a cut link never count. */
  lemma {:induction false} LastSeenIs(
      arrivals: seq<Arrival>, tables: seq<Table>, evictions: seq<Option<Peer>>, k: nat, q: Peer)
    returns (c: nat)
    requires IsRun(arrivals, tables, evictions) && k < |tables| && q in tables[k]
    ensures c < k && MadeBy(arrivals, tables, c, k, q)
    ensures (forall m | c <= m < k :: !LetThrough(arrivals, m, q)) ==> tables[k][q] == arrivals[c].createdAt
    ensures forall l | c <= l < k && LetThrough(arrivals, l, q)
                       && (forall m | l < m < k :: !LetThrough(arrivals, m, q)) ::
              tables[k][q] == arrivals[l].seenAt
  {
    assert Step(tables[k-1], arrivals[k-1], evictions[k-1], tables[k]);
    ArrivalDoes(tables[k-1], arrivals[k-1], evictions[k-1], tables[k]);
    if q in tables[k-1] {
      c := LastSeenIs(arrivals, tables, evictions, k - 1, q);
    } else {
      c := k - 1;
    }
    if LetThrough(arrivals, k - 1, q) {
      assert tables[k][q] == arrivals[k-1].seenAt;
    } else if q in tables[k-1] {
      assert tables[k][q] == tables[k-1][q];
    }
  }

  // After a touch at `i` the peer's `last_seen`, while it has a session, is no older than that.
  lemma {:induction false} StaysRecent(
      arrivals: seq<Arrival>, tables: seq<Table>, evictions: seq<Option<Peer>>, i: nat, k: nat)
    requires IsRun(arrivals, tables, evictions) && i < k < |tables|
    requires Touches(tables[i], arrivals[i]) && arrivals[i].peer in tables[k]
    ensures arrivals[i].createdAt <= tables[k][arrivals[i].peer]
  {
    assert Step(tables[k-1], arrivals[k-1], evictions[k-1], tables[k]);
    if i < k - 1 && arrivals[i].peer in tables[k-1] {
      StaysRecent(arrivals, tables, evictions, i, k - 1);
    }
  }

  // A session's `last_seen` was read for a datagram of its peer.
  lemma {:induction false} SeenMeansSender(
      arrivals: seq<Arrival>, tables: seq<Table>, evictions: seq<Option<Peer>>, k: nat, q: Peer)
    requires IsRun(arrivals, tables, evictions) && k < |tables| && q in tables[k]
    ensures exists m :: 0 <= m < k && arrivals[m].peer == q && tables[k][q] <= arrivals[m].seenAt
  {
    if k > 0 {
      assert Step(tables[k-1], arrivals[k-1], evictions[k-1], tables[k]);
      if q != arrivals[k-1].peer {
        OthersKeepTheirTime(tables[k-1], arrivals[k-1], evictions[k-1], tables[k], q);
        SeenMeansSender(arrivals, tables, evictions, k - 1, q);
      } else if q in tables[k-1] {
        SeenMeansSender(arrivals, tables, evictions, k - 1, q);
        assert arrivals[k-1].peer == q;
      } else {
        assert arrivals[k-1].peer == q;
      }
    }
  }

  /** A touched peer is not evicted before MAX_SESSIONS distinct other peers have sent something at its
      instant or later, whatever upstreams fail, links are cut or workers die in between. */
  lemma EvictionNeedsManySendersSince(
      arrivals: seq<Arrival>, tables: seq<Table>, evictions: seq<Option<Peer>>, i: nat, j: nat)
    requires IsRun(arrivals, tables, evictions) && i < j < |arrivals|
    requires Touches(tables[i], arrivals[i])
    requires evictions[j] == Some(arrivals[i].peer)
    ensures |SendersSince(arrivals, arrivals[i].createdAt, j) - {arrivals[i].peer}| >= MAX_SESSIONS
  {
    var p, since := arrivals[i].peer, arrivals[i].createdAt;
    var t := tables[j];
    assert Step(t, arrivals[j], evictions[j], tables[j+1]);
    StaysRecent(arrivals, tables, evictions, i, j);
    var others := t.Keys - {p} + {arrivals[j].peer};
    forall q | q in others ensures q in SendersSince(arrivals, since, j) - {p} {
      if q in t {
        SeenMeansSender(arrivals, tables, evictions, j, q);
      } else {
        assert arrivals[i].createdAt <= arrivals[i].seenAt <= arrivals[j].createdAt <= arrivals[j].seenAt;
      }
    }
    assert |t.Keys - {p}| == |t| - 1;
    SubsetSize(others, SendersSince(arrivals, since, j) - {p});
  }

  // No two arrivals read the same instant.
  ghost predicate StrictClock(arrivals: seq<Arrival>) {
    forall i, k :: 0 <= i < k < |arrivals| ==> arrivals[i].seenAt < arrivals[k].createdAt
  }

  /** When no two arrivals read the same instant, all of them sent after it. */
  lemma EvictionNeedsManyOtherSenders(
      arrivals: seq<Arrival>, tables: seq<Table>, evictions: seq<Option<Peer>>, i: nat, j: nat)
    requires IsRun(arrivals, tables, evictions) && StrictClock(arrivals) && i < j < |arrivals|
    requires Touches(tables[i], arrivals[i])
    requires evictions[j] == Some(arrivals[i].peer)
    ensures |SendersBetween(arrivals, i, j) - {arrivals[i].peer}| >= MAX_SESSIONS
  {
    EvictionNeedsManySendersSince(arrivals, tables, evictions, i, j);
    var p := arrivals[i].peer;
    forall q | q in SendersSince(arrivals, arrivals[i].createdAt, j) - {p}
      ensures q in SendersBetween(arrivals, i, j) - {p}
    {
      var m :| 0 <= m <= j && arrivals[i].createdAt <= arrivals[m].seenAt && arrivals[m].peer == q;
      assert i < m;
    }
    SubsetSize(SendersSince(arrivals, arrivals[i].createdAt, j) - {p}, SendersBetween(arrivals, i, j) - {p});
  }
}
