/**
 What a stalled link does to the order of its datagrams: the entry of the stall table decides the
 stamp of every datagram, and so whether a constant delay preserves order in every run.

 The wall clock that decides the stall phase runs with the clock of the flow, `epoch` nanoseconds
 ahead of it; tables are in milliseconds, stamps in nanoseconds.
 */
module RelayStalls {
  import opened Wrappers
  import opened Latency
  import opened RelayFlow
  import opened RelayLinks
  import opened RelayOrdering
  import opened RelayWorker

  const MILLISECOND: nat := 1_000_000

  // The hold of a link at time `t` of its flow.
  function HoldAt(entry: Option<Stall>, epoch: nat, t: nat): nat {
    Hold(entry, (t + epoch) / MILLISECOND) * MILLISECOND
  }

  /** Hands a datagram to the forwarder of its flow: the stamp is the time plus the link's hold. */
  method Forward(tables: LinkTables, worker: SenderWorker, src: nat, dst: nat, now: nat, epoch: nat, id: nat)
    returns (queued: bool)
    requires worker.Valid() && worker.flow.clock <= now && id == worker.flow.offered
    modifies worker
    ensures worker.Valid()
    ensures var entry := if (src, dst) in tables.stalled then Some(tables.stalled[(src, dst)]) else None;
            worker.flow == Next(worker.link, Next(worker.link, old(worker.flow), Tick(now)),
                                Offer(Hold(entry, (now + epoch) / 1_000_000) * 1_000_000))
    ensures queued <==> |old(worker.channel)| < 1024
    ensures queued ==>
              var entry := if (src, dst) in tables.stalled then Some(tables.stalled[(src, dst)]) else None;
              worker.channel == old(worker.channel)
                + [Pending(now + Hold(entry, (now + epoch) / 1_000_000) * 1_000_000, id)]
  {
    var held := tables.StallDelay(src, dst, (now + epoch) / MILLISECOND) * MILLISECOND;
    queued := worker.TrySend(now, held, id);
  }

  // Every datagram of the run is held back as `hold` says of the time it is offered.
  ghost predicate HeldBy(hold: nat -> nat, evs: seq<Event>, states: seq<Flow>) {
    |states| == |evs| + 1 && forall k :: 0 <= k < |evs| && evs[k].Offer? ==> evs[k].held == hold(states[k].clock)
  }

  // A later datagram never gets an earlier stamp.
  ghost predicate Monotone(hold: nat -> nat) {
    forall t, u :: 0 <= t <= u ==> t + hold(t) <= u + hold(u)
  }

  lemma {:induction false} MonotoneStamps(
      link: Link, evs: seq<Event>, states: seq<Flow>, k: nat, hold: nat -> nat)
    requires IsRun(link, evs, states) && HeldBy(hold, evs, states) && Monotone(hold) && k < |states|
    ensures StampsNeverDecrease(states[k].entered)
    ensures forall m | 0 <= m < |states[k].entered| ::
              states[k].entered[m].arrival <= states[k].clock + hold(states[k].clock)
  {
    if k > 0 {
      MonotoneStamps(link, evs, states, k - 1, hold);
      var s, t := states[k-1], states[k];
      assert Enabled(link, s, evs[k-1]) && t == Next(link, s, evs[k-1]);
      assert s.clock + hold(s.clock) <= t.clock + hold(t.clock);
    }
  }

  /** On a link that holds every datagram back by the same time, or not at all, a constant delay
      preserves order in every run. */
  lemma SameHoldIsFifo(link: Link, evs: seq<Event>, states: seq<Flow>, h: nat)
    requires IsRun(link, evs, states) && ConstantDelay(link.delay).Some?
    requires forall k | 0 <= k < |evs| && evs[k].Offer? :: evs[k].held == h
    ensures InOrder(states[|evs|])
  {
    var hold := (t: nat) => h;
    assert HeldBy(hold, evs, states);
    MonotoneStamps(link, evs, states, |evs|, hold);
    ConstantDelayIsFifo(link, evs, states, |evs|);
  }

  // The first datagram is offered at `t` and read; it is not due yet.
  lemma FirstIsRead(link: Link, hold: nat -> nat, t: nat) returns (evs: seq<Event>, states: seq<Flow>)
    requires ConstantDelay(link.delay).Some? && hold(t) > 0
    requires t + hold(t) + ConstantDelay(link.delay).value <= link.maxInstant
    ensures IsRun(link, evs, states) && HeldBy(hold, evs, states)
    ensures var d, p := ConstantDelay(link.delay).value, Pending(t + hold(t), 0);
            var e := Entry(p.arrival + d, 0, p.arrival, d, 0);
            states[|evs|] == Flow(t, [], [e], 1, Selecting, 2, 1, [p], [e], [], [], [], [])
  {
    var d, p := ConstantDelay(link.delay).value, Pending(t + hold(t), 0);
    var e := Entry(p.arrival + d, 0, p.arrival, d, 0);
    var s1 := INITIAL.(clock := t);
    var s2 := s1.(pos := Draining(t), round := 1);
    var s3 := s2.(pos := Selecting);
    var s4 := s3.(offered := 1, channel := [p], entered := [p]);
    var s5 := s4.(channel := [], heap := [e], nextSeq := 1, accepted := [e], pos := Top);
    var s6 := s5.(pos := Draining(t), round := 2);
    evs := [Tick(t), StartDrain, EndDrain, Offer(hold(t)), Receive(d), StartDrain, EndDrain];
    states := [INITIAL, s1, s2, s3, s4, s5, s6, s6.(pos := Selecting)];
    assert Next(link, s3, Offer(hold(t))) == s4;
    assert Next(link, s4, Receive(d)) == s5;
  }

  // Offered at `t`, read, and offered again at `u`: the second overtakes when its stamp is earlier.
  lemma LaterOvertakes(link: Link, hold: nat -> nat, t: nat, u: nat) returns (evs: seq<Event>, states: seq<Flow>)
    requires ConstantDelay(link.delay).Some? && t < u && u + hold(u) < t + hold(t)
    requires t + hold(t) + ConstantDelay(link.delay).value <= link.maxInstant
    ensures IsRun(link, evs, states) && HeldBy(hold, evs, states) && !InOrder(states[|evs|])
  {
    var d := ConstantDelay(link.delay).value;
    evs, states := FirstIsRead(link, hold, t);
    var s7 := states[|evs|];
    var e0, p1 := s7.heap[0], Pending(u + hold(u), 1);
    var e1 := Entry(p1.arrival + d, 1, p1.arrival, d, 1);
    var s8 := s7.(clock := u);
    var s9 := s8.(offered := 2, channel := [p1], entered := s8.entered + [p1]);
    var s10 := s9.(channel := [], heap := [e1, e0], nextSeq := 2, accepted := [e0, e1], pos := Top);
    OneMore(link, evs, states, Tick(u));
    evs, states := evs + [Tick(u)], states + [s8];
    assert Next(link, s8, Offer(hold(u))) == s9;
    OneMore(link, evs, states, Offer(hold(u)));
    evs, states := evs + [Offer(hold(u))], states + [s9];
    assert Next(link, s9, Receive(d)) == s10;
    OneMore(link, evs, states, Receive(d));
    evs, states := evs + [Receive(d)], states + [s10];
    assert (Entries(s10.sent) + s10.heap)[0] == e1;
  }

  // ---------- the stall table decides ----------

  // The entry adds nothing, never stalls, or always does.
  predicate Steady(entry: Option<Stall>) {
    entry.None? || entry.value.delay == 0 || entry.value.stall == 0 || entry.value.stall >= Period(entry.value)
  }

  lemma SteadyIsMonotone(entry: Option<Stall>, epoch: nat)
    requires Steady(entry)
    ensures Monotone((t: nat) => HoldAt(entry, epoch, t))
  {
    forall t: nat, u: nat ensures HoldAt(entry, epoch, t) == HoldAt(entry, epoch, u) {
    }
  }

  // A multiple of the period past `e`, but not far.
  lemma NextPeriod(e: nat, p: nat) returns (q: nat)
    requires p > 0
    ensures e < q * p <= e + p
  {
    q := e / p + 1;
    assert e == e / p * p + e % p;
    assert q * p == e / p * p + p;
  }

  // Within two periods an unsteady link closes a stall window, between two instants.
  lemma WindowCloses(s: Stall, epoch: nat) returns (t: nat)
    requires 0 < s.stall < Period(s)
    ensures t < 2 * Period(s) * MILLISECOND
    ensures Stalled(s, (t + epoch) / MILLISECOND) && !Stalled(s, (t + 1 + epoch) / MILLISECOND)
  {
    var p, e := Period(s), epoch / MILLISECOND;
    var q := NextPeriod(e, p);
    var m := q * p + s.stall - 1;
    PeriodsRepeat(q, p, s.stall - 1);
    PeriodsRepeat(q, p, s.stall);
    t := (m + 1) * MILLISECOND - epoch - 1;
    assert (t + epoch) / MILLISECOND == m && (t + 1 + epoch) / MILLISECOND == m + 1;
  }

  /** Whatever the clock, stamps of a link never decrease exactly when its entry adds nothing, never
      stalls, or always does. */
  lemma StampsMonotoneIff(entry: Option<Stall>, epoch: nat)
    ensures Monotone((t: nat) => HoldAt(entry, epoch, t))
            <==> ( || entry.None? || entry.value.delay == 0 || entry.value.stall == 0
                  || entry.value.stall >= entry.value.period)
  {
    if Steady(entry) {
      SteadyIsMonotone(entry, epoch);
    } else {
      var hold := (t: nat) => HoldAt(entry, epoch, t);
      var t := WindowCloses(entry.value, epoch);
      assert hold(t) >= MILLISECOND && hold(t + 1) == 0;
      assert !(t + hold(t) <= t + 1 + hold(t + 1));
    }
  }

  /** The promise a fixed delay makes, as the operator can check it in the stall table: every run of
      the link, however long, delivers in acceptance order exactly when the entry adds nothing, never
      stalls, or always does. The bound says that stamps two periods ahead are representable. */
  lemma FifoExactlyOnSteadyLinks(link: Link, entry: Option<Stall>, epoch: nat)
    requires ConstantDelay(link.delay).Some?
    requires entry.Some? ==>
               (2 * Period(entry.value) + entry.value.delay) * MILLISECOND + ConstantDelay(link.delay).value
               <= link.maxInstant
    ensures (forall evs: seq<Event>, states: seq<Flow> ::
               IsRun(link, evs, states) && HeldBy((t: nat) => HoldAt(entry, epoch, t), evs, states)
               ==> InOrder(states[|evs|]))
            <==> ( || entry.None? || entry.value.delay == 0 || entry.value.stall == 0
                  || entry.value.stall >= entry.value.period)
  {
    var hold := (t: nat) => HoldAt(entry, epoch, t);
    if Steady(entry) {
      SteadyIsMonotone(entry, epoch);
      forall evs: seq<Event>, states: seq<Flow> | IsRun(link, evs, states) && HeldBy(hold, evs, states)
        ensures InOrder(states[|evs|])
      {
        MonotoneStamps(link, evs, states, |evs|, hold);
        ConstantDelayIsFifo(link, evs, states, |evs|);
      }
    } else {
      var t := WindowCloses(entry.value, epoch);
      assert hold(t) == entry.value.delay * MILLISECOND && hold(t + 1) == 0;
      var evs, states := LaterOvertakes(link, hold, t, t + 1);
    }
  }

  /** For example: 300 ms out of every second, holding back by half a second. Of two datagrams a
      nanosecond apart the later is stamped 500 ms earlier. */
  lemma AClosingWindow()
    ensures var s := Some(Stall(1000, 300, 500));
            var t := 299_999_999;
            t + HoldAt(s, 0, t) == 799_999_999 && t + 1 + HoldAt(s, 0, t + 1) == 300_000_000
  {
  }
}
