/**
 What the relay promises about one flow, over every run: conservation, bounds, timeliness,
 who may overtake whom, and when a constant delay keeps datagrams in order.
 */
module RelayOrdering {
  import opened Wrappers
  import opened Latency
  import opened RelayFlow

  /** Every datagram offered is in exactly one place, and at most two queues' worth is buffered. */
  lemma ConservationAndBounds(link: Link, evs: seq<Event>, states: seq<Flow>, k: nat)
    requires IsRun(link, evs, states) && k < |states|
    ensures forall id: nat | id < states[k].offered ::
              multiset(PendingIds(states[k].channel))[id] + multiset(EntryIds(states[k].heap))[id]
              + multiset(EntryIds(Entries(states[k].sent)))[id] + multiset(states[k].channelFull)[id]
              + multiset(states[k].heapFull)[id] + multiset(states[k].overflow)[id] == 1
    ensures |states[k].channel| <= RELAY_QUEUE_CAP && |states[k].heap| <= RELAY_QUEUE_CAP
    ensures |states[k].channel| + |states[k].heap| <= 2 * RELAY_QUEUE_CAP
  {
    RunKeeps(link, evs, states, k);
    forall id: nat | id < states[k].offered
      ensures multiset(PendingIds(states[k].channel))[id] + multiset(EntryIds(states[k].heap))[id]
              + multiset(EntryIds(Entries(states[k].sent)))[id] + multiset(states[k].channelFull)[id]
              + multiset(states[k].heapFull)[id] + multiset(states[k].overflow)[id] == 1
    {
      assert PlacesOf(states[k], id) == 1;
    }
  }

  /** Nothing is sent before its stamp plus a delay the link may draw, and each drain emits in key order. */
  lemma SentOnTimeAndInDrainOrder(link: Link, evs: seq<Event>, states: seq<Flow>, k: nat)
    requires IsRun(link, evs, states) && k < |states|
    ensures forall i | 0 <= i < |states[k].sent| ::
              var x := states[k].sent[i];
              && CanSample(link.delay, x.entry.sampled)
              && Pending(x.entry.arrival, x.entry.id) in states[k].entered
              && x.entry.release == x.entry.arrival + x.entry.sampled <= x.at
    ensures forall i, j | 0 <= i < j < |states[k].sent| ::
              || states[k].sent[i].round < states[k].sent[j].round
              || (states[k].sent[i].round == states[k].sent[j].round
                  && KeyLess(states[k].sent[i].entry, states[k].sent[j].entry))
  {
    RunKeeps(link, evs, states, k);
    var s := states[k];
    forall i | 0 <= i < |s.sent|
      ensures Pending(s.sent[i].entry.arrival, s.sent[i].entry.id) in s.entered
    {
      SentWasAccepted(link, s, i);
      assert WasRead(s, s.accepted[s.sent[i].entry.seqNo]);
    }
  }

  lemma SentWasAccepted(link: Link, s: Flow, i: nat)
    requires FlowInv(link, s) && i < |s.sent|
    ensures s.sent[i].entry.seqNo < |s.accepted|
    ensures s.accepted[s.sent[i].entry.seqNo] == s.sent[i].entry
  {
    var x := s.sent[i].entry;
    assert Entries(s.sent)[i] == x;
    assert x in multiset(s.accepted);
  }

  lemma BufferedWasAccepted(link: Link, s: Flow, e: Entry)
    requires FlowInv(link, s) && e in s.heap
    ensures e.seqNo < |s.accepted| && s.accepted[e.seqNo] == e
  {
    assert e in multiset(s.heap);
    assert e in multiset(s.accepted);
  }

  /** A finished drain leaves nothing that was due. */
  lemma DrainLeavesNothingDue(link: Link, evs: seq<Event>, states: seq<Flow>, k: nat)
    requires IsRun(link, evs, states) && k < |evs| && evs[k].EndDrain?
    ensures states[k].pos.Draining?
    ensures forall e | e in states[k+1].heap :: states[k].pos.now < e.release
  {
    RunKeeps(link, evs, states, k);
    assert Enabled(link, states[k], evs[k]) && states[k+1] == Next(link, states[k], evs[k]);
    forall e | e in states[k+1].heap ensures states[k].pos.now < e.release {
      var i :| 0 <= i < |states[k].heap| && states[k].heap[i] == e;
      assert i == 0 || KeyLess(states[k].heap[0], states[k].heap[i]);
    }
  }

  // ---------- history only grows ----------

  ghost predicate Grows(a: Flow, b: Flow) {
    && a.clock <= b.clock && a.offered <= b.offered && a.nextSeq <= b.nextSeq
    && a.entered <= b.entered && a.accepted <= b.accepted && a.sent <= b.sent
    && a.channelFull <= b.channelFull && a.heapFull <= b.heapFull && a.overflow <= b.overflow
    && (forall m | |a.entered| <= m < |b.entered| :: a.clock <= b.entered[m].arrival)
  }

  lemma StepGrows(link: Link, s: Flow, ev: Event)
    requires Enabled(link, s, ev)
    ensures Grows(s, Next(link, s, ev))
  {
  }

  lemma EachStepGrows(link: Link, evs: seq<Event>, states: seq<Flow>, k: nat)
    requires IsRun(link, evs, states) && k < |evs|
    ensures Grows(states[k], states[k+1])
  {
    StepGrows(link, states[k], evs[k]);
  }

  lemma GrowsOn(a: Flow, b: Flow, c: Flow)
    requires Grows(a, b) && Grows(b, c)
    ensures Grows(a, c)
  {
    forall m | |a.entered| <= m < |c.entered| ensures a.clock <= c.entered[m].arrival {
      if m < |b.entered| {
        assert c.entered[m] == b.entered[m];
      }
    }
  }

  lemma {:induction false} HistoryGrows(link: Link, evs: seq<Event>, states: seq<Flow>, i: nat, j: nat)
    requires IsRun(link, evs, states) && i <= j < |states|
    ensures Grows(states[i], states[j])
    decreases j - i
  {
    if i < j {
      HistoryGrows(link, evs, states, i, j - 1);
      EachStepGrows(link, evs, states, j - 1);
      GrowsOn(states[i], states[j-1], states[j]);
    }
  }

  // What is buffered has not been sent or dropped, then or before.
  lemma BufferedIsNowhereElse(link: Link, a: Flow, b: Flow, y: Entry)
    requires FlowInv(link, b) && Grows(a, b) && y in b.heap
    ensures y !in Entries(a.sent)
    ensures y.id !in a.channelFull && y.id !in a.heapFull && y.id !in a.overflow
  {
    assert PlacesOf(b, y.id) == if y.id < b.offered then 1 else 0;
    var i :| 0 <= i < |b.heap| && b.heap[i] == y;
    assert EntryIds(b.heap)[i] == y.id;
    assert y.id !in EntryIds(Entries(b.sent));
    assert y.id !in b.channelFull && y.id !in b.heapFull && y.id !in b.overflow;
    forall k | 0 <= k < |a.sent| ensures a.sent[k].entry != y {
      assert EntryIds(Entries(b.sent))[k] == a.sent[k].entry.id;
    }
  }

  // A buffered datagram that an earlier state had already accepted was buffered there too.
  lemma AcceptedEarlierWasBuffered(link: Link, a: Flow, b: Flow, y: Entry)
    requires FlowInv(link, a) && FlowInv(link, b) && Grows(a, b)
    requires y in b.heap && y.seqNo < a.nextSeq
    ensures y in a.heap
  {
    BufferedWasAccepted(link, b, y);
    BufferedIsNowhereElse(link, a, b, y);
    assert a.accepted[y.seqNo] == y;
    assert y in multiset(a.accepted);
  }

  // A buffered datagram that was already in the flow but not yet accepted was in the channel.
  lemma NotYetAcceptedWasInChannel(link: Link, a: Flow, b: Flow, y: Entry)
    requires FlowInv(link, a) && FlowInv(link, b) && Grows(a, b)
    requires y in b.heap && a.nextSeq <= y.seqNo && y.id < a.offered
    ensures y.id in PendingIds(a.channel)
  {
    BufferedWasAccepted(link, b, y);
    BufferedIsNowhereElse(link, a, b, y);
    assert PlacesOf(a, y.id) == 1;
    forall i | 0 <= i < |a.heap| ensures EntryIds(a.heap)[i] != y.id {
      BufferedWasAccepted(link, a, a.heap[i]);
      assert b.accepted[a.heap[i].seqNo] == a.heap[i];
    }
    forall i | 0 <= i < |a.sent| ensures EntryIds(Entries(a.sent))[i] != y.id {
      SentWasAccepted(link, a, i);
      assert b.accepted[a.sent[i].entry.seqNo] == a.sent[i].entry;
    }
    assert y.id in multiset(PendingIds(a.channel));
  }

  lemma HeadIsLeast(heap: seq<Entry>, y: Entry)
    ensures Ordered(heap) && y in heap ==> !KeyLess(y, heap[0])
  {
  }

  /** Under any delay, when `x` leaves before `y` although `y` has the smaller key, `y` was still
      waiting in the channel at that moment: the heap itself never releases out of order. */
  lemma OvertakenOnlyFromTheChannel(link: Link, evs: seq<Event>, states: seq<Flow>, i: nat, j: nat)
    requires IsRun(link, evs, states) && i < j < |evs| && evs[i].Pop? && evs[j].Pop?
    ensures states[i].heap != [] && states[j].heap != []
    ensures KeyLess(states[j].heap[0], states[i].heap[0]) ==>
              states[j].heap[0].id in PendingIds(states[i].channel)
  {
    RunKeeps(link, evs, states, i);
    RunKeeps(link, evs, states, j);
    HistoryGrows(link, evs, states, i, j);
    assert Enabled(link, states[i], evs[i]) && Enabled(link, states[j], evs[j]);
    var a, b := states[i], states[j];
    var x, y := a.heap[0], b.heap[0];
    if KeyLess(y, x) {
      if y.seqNo < a.nextSeq {
        AcceptedEarlierWasBuffered(link, a, b, y);
        HeadIsLeast(a.heap, y);
        assert false;
      }
      assert x in a.heap && y in b.heap;
      assert y.arrival <= y.release < x.release <= a.clock;
      BufferedWasAccepted(link, b, y);
      assert WasRead(b, y);
      var m :| 0 <= m < |b.entered| && b.entered[m] == Pending(y.arrival, y.id);
      assert m < |a.entered|;
      assert a.entered[m].id < a.offered;
      NotYetAcceptedWasInChannel(link, a, b, y);
    }
  }

  // ---------- first in, first out ----------

  ghost predicate StampsNeverDecrease(ps: seq<Pending>) {
    forall i, j :: 0 <= i < j < |ps| ==> ps[i].arrival <= ps[j].arrival
  }

  // What was sent, followed by what the heap will release, in the order of acceptance.
  ghost predicate InOrder(s: Flow) {
    Entries(s.sent) + s.heap == s.accepted
  }

  lemma {:induction false} InsertLast(heap: seq<Entry>, e: Entry)
    requires forall x | x in heap :: KeyLess(x, e)
    ensures Insert(heap, e) == heap + [e]
  {
    if heap != [] {
      assert heap[0] in heap;
      InsertLast(heap[1..], e);
      assert heap == [heap[0]] + heap[1..];
    }
  }

  lemma ConstantDelayStep(link: Link, s: Flow, ev: Event)
    requires FlowInv(link, s) && InOrder(s) && Enabled(link, s, ev)
    requires ConstantDelay(link.delay).Some?
    requires ev.Receive? ==> forall x | x in s.heap :: x.arrival <= s.channel[0].arrival
    ensures InOrder(Next(link, s, ev))
  {
    var t := Next(link, s, ev);
    if ev.Pop? {
      assert Entries(t.sent) == Entries(s.sent) + [s.heap[0]];
    } else if ev.Receive? && t.accepted != s.accepted {
      var e := t.accepted[|s.accepted|];
      forall x | x in s.heap ensures KeyLess(x, e) {
        BufferedWasAccepted(link, s, x);
      }
      InsertLast(s.heap, e);
    }
  }

  // What is buffered entered before what is in the channel.
  lemma BufferedEnteredBefore(link: Link, s: Flow, x: Entry)
    requires FlowInv(link, s) && x in s.heap && s.channel != [] && StampsNeverDecrease(s.entered)
    ensures x.arrival <= s.channel[0].arrival
  {
    BufferedWasAccepted(link, s, x);
    assert WasRead(s, x);
    assert s.entered[|s.entered| - |s.channel|] == s.channel[0];
  }

  /** With no delay or a constant one, and stamps that never decrease on entering the channel, every
      interleaving delivers in acceptance order; accepted datagrams keep the order they were offered in. */
  lemma {:induction false} ConstantDelayIsFifo(link: Link, evs: seq<Event>, states: seq<Flow>, k: nat)
    requires IsRun(link, evs, states) && k < |states|
    requires ConstantDelay(link.delay).Some? && StampsNeverDecrease(states[k].entered)
    ensures Entries(states[k].sent) + states[k].heap == states[k].accepted
    ensures forall i, j | 0 <= i < j < |states[k].accepted| :: states[k].accepted[i].id < states[k].accepted[j].id
    ensures forall i | 0 <= i < |states[k].accepted| ::
              Pending(states[k].accepted[i].arrival, states[k].accepted[i].id) in states[k].entered
  {
    RunKeeps(link, evs, states, k);
    forall i | 0 <= i < |states[k].accepted|
      ensures Pending(states[k].accepted[i].arrival, states[k].accepted[i].id) in states[k].entered
    {
      assert WasRead(states[k], states[k].accepted[i]);
    }
    if k > 0 {
      HistoryGrows(link, evs, states, k - 1, k);
      ConstantDelayIsFifo(link, evs, states, k - 1);
      RunKeeps(link, evs, states, k - 1);
      if evs[k-1].Receive? {
        forall x | x in states[k-1].heap ensures x.arrival <= states[k-1].channel[0].arrival {
          assert Enabled(link, states[k-1], evs[k-1]);
          BufferedEnteredBefore(link, states[k-1], x);
        }
      }
      ConstantDelayStep(link, states[k-1], evs[k-1]);
    } else {
      assert Entries([]) == [];
    }
  }

  // ---------- the precondition is exact ----------

  // The datagrams of a burst, stamped in this order and none refused by the channel.
  function Stamped(stamps: seq<nat>): (r: seq<Pending>)
    ensures |r| == |stamps|
  {
    seq(|stamps|, j requires 0 <= j < |stamps| => Pending(stamps[j], j))
  }

  // What the heap makes of the j-th datagram under the constant delay `d`.
  function Scheduled(stamps: seq<nat>, d: nat): (r: seq<Entry>)
    ensures |r| == |stamps|
  {
    seq(|stamps|, j requires 0 <= j < |stamps| => Entry(stamps[j] + d, j, stamps[j], d, j))
  }

  // At time 0 the burst has been offered and read, and whatever is due has been sent.
  ghost predicate ReadAtZero(s: Flow, stamps: seq<nat>, d: nat) {
    && s.clock == 0 && s.pos.Selecting? && s.channel == []
    && s.offered == s.nextSeq == |stamps| && |s.heap| <= |stamps|
    && s.entered == Stamped(stamps) && s.accepted == Scheduled(stamps, d)
    && forall x | x in s.heap :: x.release > 0
  }

  lemma OneMore(link: Link, evs: seq<Event>, states: seq<Flow>, ev: Event)
    requires IsRun(link, evs, states) && Enabled(link, states[|evs|], ev)
    ensures IsRun(link, evs + [ev], states + [Next(link, states[|evs|], ev)])
  {
  }

  // The worker sends what is due at time 0, which is at most the head of the heap.
  lemma DrainsAtZero(link: Link, evs0: seq<Event>, states0: seq<Flow>) returns (evs: seq<Event>, states: seq<Flow>)
    requires IsRun(link, evs0, states0)
    requires states0[|evs0|].clock == 0 && states0[|evs0|].pos.Top?
    requires forall k | 0 < k < |states0[|evs0|].heap| :: states0[|evs0|].heap[k].release > 0
    ensures IsRun(link, evs, states)
    ensures var s, t := states0[|evs0|], states[|evs|];
            && t.clock == 0 && t.pos.Selecting? && t.channel == s.channel && t.offered == s.offered
            && t.nextSeq == s.nextSeq && t.entered == s.entered && t.accepted == s.accepted
            && |t.heap| <= |s.heap| && forall x | x in t.heap :: x.release > 0
  {
    evs, states := evs0, states0;
    OneMore(link, evs, states, StartDrain);
    evs, states := evs + [StartDrain], states + [Next(link, states[|evs|], StartDrain)];
    var s := states[|evs|];
    if s.heap != [] && s.heap[0].release == 0 {
      OneMore(link, evs, states, Pop);
      evs, states := evs + [Pop], states + [PopStep(s)];
    }
    OneMore(link, evs, states, EndDrain);
    evs, states := evs + [EndDrain], states + [Next(link, states[|evs|], EndDrain)];
  }

  lemma InsertAmongPositive(heap: seq<Entry>, e: Entry)
    requires forall x | x in heap :: x.release > 0
    ensures |Insert(heap, e)| == |heap| + 1
    ensures forall k | 0 < k < |Insert(heap, e)| :: Insert(heap, e)[k].release > 0
  {
    InsertContents(heap, e);
    if e.release == 0 && heap != [] {
      assert heap[0] in heap && KeyLess(e, heap[0]);
    } else {
      forall k | 0 < k < |Insert(heap, e)| ensures Insert(heap, e)[k].release > 0 {
        InsertMember(heap, e, Insert(heap, e)[k]);
      }
    }
  }

  // One more datagram is offered and read at once.
  lemma OfferedAndRead(link: Link, s: Flow, stamps: seq<nat>, d: nat)
    requires ConstantDelay(link.delay) == Some(d) && 0 < |stamps| <= RELAY_QUEUE_CAP
    requires var n := |stamps| - 1; ReadAtZero(s, stamps[..n], d) && stamps[n] + d <= link.maxInstant
    ensures var s1 := OfferStep(s, stamps[|stamps|-1]);
            && Enabled(link, s1, Receive(d))
            && var s2 := ReceiveStep(link, s1, d);
               && s2.clock == 0 && s2.pos.Top? && s2.channel == [] && s2.offered == s2.nextSeq == |stamps|
               && s2.entered == Stamped(stamps) && s2.accepted == Scheduled(stamps, d)
               && |s2.heap| <= |stamps| && forall k | 0 < k < |s2.heap| :: s2.heap[k].release > 0
  {
    var n := |stamps| - 1;
    var e := Entry(stamps[n] + d, n, stamps[n], d, n);
    assert Stamped(stamps[..n]) + [Pending(stamps[n], n)] == Stamped(stamps);
    assert Scheduled(stamps[..n], d) + [e] == Scheduled(stamps, d);
    InsertAmongPositive(s.heap, e);
  }

  // Every burst of at most RELAY_QUEUE_CAP datagrams can be read in full at time 0.
  lemma {:induction false} BurstIsRead(link: Link, stamps: seq<nat>, d: nat)
    returns (evs: seq<Event>, states: seq<Flow>)
    requires ConstantDelay(link.delay) == Some(d) && |stamps| <= RELAY_QUEUE_CAP
    requires forall j | 0 <= j < |stamps| :: stamps[j] + d <= link.maxInstant
    ensures IsRun(link, evs, states) && ReadAtZero(states[|evs|], stamps, d)
  {
    if stamps == [] {
      evs, states := DrainsAtZero(link, [], [INITIAL]);
    } else {
      var n := |stamps| - 1;
      evs, states := BurstIsRead(link, stamps[..n], d);
      var s := states[|evs|];
      var s1 := OfferStep(s, stamps[n]);
      OfferedAndRead(link, s, stamps, d);
      OneMore(link, evs, states, Offer(stamps[n]));
      evs, states := evs + [Offer(stamps[n])], states + [s1];
      OneMore(link, evs, states, Receive(d));
      evs, states := evs + [Receive(d)], states + [ReceiveStep(link, s1, d)];
      evs, states := DrainsAtZero(link, evs, states);
    }
  }

  // A burst read at time 0 is in acceptance order only if its stamps are.
  lemma InOrderAtZero(link: Link, s: Flow, stamps: seq<nat>, d: nat, i: nat)
    requires FlowInv(link, s) && ReadAtZero(s, stamps, d) && InOrder(s)
    requires i + 1 < |stamps|
    ensures stamps[i] <= stamps[i+1]
  {
    var n := |s.sent|;
    var all := Entries(s.sent) + s.heap;
    assert all[i] == s.accepted[i] && all[i+1] == s.accepted[i+1];
    if i < n {
      assert s.sent[i].entry.release <= s.sent[i].at <= 0;
    } else {
      assert s.heap[i-n] == all[i] && s.heap[i+1-n] == all[i+1];
      assert KeyLess(s.heap[i-n], s.heap[i+1-n]);
    }
  }

  lemma {:induction false} SomewhereDecreasing(stamps: seq<nat>, a: nat, b: nat) returns (i: nat)
    requires a < b < |stamps| && stamps[a] > stamps[b]
    ensures i + 1 < |stamps| && stamps[i] > stamps[i+1]
    decreases b - a
  {
    if stamps[a] > stamps[a+1] {
      i := a;
    } else {
      i := SomewhereDecreasing(stamps, a + 1, b);
    }
  }

  /** For any burst that fits a queue, under a constant delay: every interleaving delivers in
      acceptance order exactly when the stamps never decrease. A stall window that closes between two
      datagrams makes them decrease. */
  lemma FifoExactlyWhenStampsNeverDecrease(link: Link, stamps: seq<nat>)
    requires ConstantDelay(link.delay).Some? && |stamps| <= RELAY_QUEUE_CAP
    requires forall j | 0 <= j < |stamps| :: stamps[j] + ConstantDelay(link.delay).value <= link.maxInstant
    ensures (forall evs: seq<Event>, states: seq<Flow> ::
               IsRun(link, evs, states) && states[|evs|].entered == Stamped(stamps) ==> InOrder(states[|evs|]))
            <==> forall i, j :: 0 <= i < j < |stamps| ==> stamps[i] <= stamps[j]
  {
    var ps := Stamped(stamps);
    assert StampsNeverDecrease(ps) <==> forall i, j :: 0 <= i < j < |stamps| ==> stamps[i] <= stamps[j] by {
      if StampsNeverDecrease(ps) {
        forall i, j | 0 <= i < j < |stamps| ensures stamps[i] <= stamps[j] {
          assert ps[i].arrival <= ps[j].arrival;
        }
      }
    }
    if StampsNeverDecrease(ps) {
      forall evs: seq<Event>, states: seq<Flow> | IsRun(link, evs, states) && states[|evs|].entered == ps
        ensures InOrder(states[|evs|])
      {
        ConstantDelayIsFifo(link, evs, states, |evs|);
      }
    } else {
      var d := ConstantDelay(link.delay).value;
      var a, b :| 0 <= a < b < |stamps| && ps[a].arrival > ps[b].arrival;
      var i := SomewhereDecreasing(stamps, a, b);
      var evs, states := BurstIsRead(link, stamps, d);
      RunKeeps(link, evs, states, |evs|);
      assert IsRun(link, evs, states) && states[|evs|].entered == ps;
      if InOrder(states[|evs|]) {
        InOrderAtZero(link, states[|evs|], stamps, d, i);
      }
    }
  }
}
