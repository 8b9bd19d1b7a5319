/**
 Why the exact condition on the stamps of a burst stops at the size of the queue: one datagram more
 and a decreasing stamp can be harmless in every run, because the heap is full of the others until
 they have all been sent.
 */
module RelayBursts {
  import opened Wrappers
  import opened Latency
  import opened RelayFlow
  import opened RelayOrdering

  // A queue full of datagrams with one stamp, and a last one with another.
  function LateBurst(a: nat, b: nat): (r: seq<nat>)
    ensures |r| == RELAY_QUEUE_CAP + 1
  {
    seq(RELAY_QUEUE_CAP, _ => a) + [b]
  }

  function Reads(s: Flow): int {
    |s.entered| - |s.channel|
  }

  // Between drains, everything sent had an earlier release than anything still buffered.
  ghost predicate SentBelow(s: Flow) {
    && (s.pos.Selecting? ==>
          forall i, x :: 0 <= i < |s.sent| && x in s.heap ==> s.sent[i].entry.release < x.release)
    && (s.pos.Draining? ==> forall i :: 0 <= i < |s.sent| ==> s.sent[i].entry.release <= s.pos.now)
  }

  lemma SentBelowAt(s: Flow, i: nat, k: nat)
    requires SentBelow(s) && s.pos.Selecting? && i < |s.sent| && k < |s.heap|
    ensures s.sent[i].entry.release < s.heap[k].release
  {
    assert s.heap[k] in s.heap;
  }

  lemma StepKeepsSentBelow(link: Link, s: Flow, ev: Event)
    requires FlowInv(link, s) && SentBelow(s) && Enabled(link, s, ev)
    ensures SentBelow(Next(link, s, ev))
  {
    if ev.EndDrain? {
      forall x | x in s.heap ensures s.pos.now < x.release {
        var k :| 0 <= k < |s.heap| && s.heap[k] == x;
        assert k == 0 || KeyLess(s.heap[0], s.heap[k]);
      }
    }
  }

  // While only datagrams of the first kind were read, none was turned away by a full heap.
  ghost predicate AllTaken(link: Link, s: Flow, a: nat, d: nat) {
    Reads(s) <= RELAY_QUEUE_CAP ==>
      && s.heapFull == []
      && (if a + d <= link.maxInstant then |s.accepted| == Reads(s) else s.accepted == [])
  }

  ghost predicate BurstInv(link: Link, s: Flow, a: nat, b: nat, d: nat) {
    FlowInv(link, s) && InOrder(s) && SentBelow(s) && AllTaken(link, s, a, d)
  }

  lemma AcceptedAre(link: Link, s: Flow, a: nat, b: nat, d: nat, e: Entry)
    requires FlowInv(link, s) && s.entered <= Stamped(LateBurst(a, b)) && Reads(s) <= RELAY_QUEUE_CAP
    requires e in s.accepted
    ensures e.arrival == a
  {
    assert WasRead(s, e);
    var i :| 0 <= i < Reads(s) && s.entered[i] == Pending(e.arrival, e.id);
    assert s.entered[i] == Stamped(LateBurst(a, b))[i];
  }

  lemma BufferedAre(link: Link, s: Flow, a: nat, b: nat, d: nat)
    requires BurstInv(link, s, a, b, d) && ConstantDelay(link.delay) == Some(d)
    requires s.entered <= Stamped(LateBurst(a, b)) && Reads(s) <= RELAY_QUEUE_CAP
    ensures |s.sent| + |s.heap| == |s.accepted|
    ensures forall x | x in s.heap :: x.arrival == a && x.release == a + d
    ensures forall i | 0 <= i < |s.sent| :: s.sent[i].entry.release == a + d
  {
    assert |Entries(s.sent) + s.heap| == |s.accepted|;
    forall x | x in s.heap ensures x.arrival == a && x.release == a + d {
      var k :| 0 <= k < |s.heap| && s.heap[k] == x;
      assert (Entries(s.sent) + s.heap)[|s.sent| + k] == x;
      AcceptedAre(link, s, a, b, d, x);
    }
    forall i | 0 <= i < |s.sent| ensures s.sent[i].entry.release == a + d {
      assert (Entries(s.sent) + s.heap)[i] == s.sent[i].entry;
      AcceptedAre(link, s, a, b, d, s.sent[i].entry);
    }
  }

  // When the last datagram is read, the heap is full or empty.
  lemma FullOrEmpty(link: Link, s: Flow, a: nat, b: nat, d: nat)
    requires BurstInv(link, s, a, b, d) && ConstantDelay(link.delay) == Some(d) && s.pos.Selecting?
    requires s.entered <= Stamped(LateBurst(a, b)) && Reads(s) == RELAY_QUEUE_CAP
    ensures s.heap == [] || |s.heap| >= RELAY_QUEUE_CAP
  {
    BufferedAre(link, s, a, b, d);
    if s.heap != [] && s.sent != [] {
      SentBelowAt(s, 0, 0);
    }
  }

  // One of the first kind is read.
  lemma ReceiveKeepsTaken(link: Link, s: Flow, a: nat, b: nat, d: nat)
    requires BurstInv(link, s, a, b, d) && ConstantDelay(link.delay) == Some(d) && s.channel != []
    requires s.entered <= Stamped(LateBurst(a, b)) && Reads(s) < RELAY_QUEUE_CAP
    ensures AllTaken(link, ReceiveStep(link, s, d), a, d)
  {
    assert s.channel[0] == s.entered[Reads(s)] == Stamped(LateBurst(a, b))[Reads(s)];
    BufferedAre(link, s, a, b, d);
    assert |s.heap| < RELAY_QUEUE_CAP;
  }

  lemma OthersKeepTaken(link: Link, s: Flow, ev: Event, a: nat, d: nat)
    requires AllTaken(link, s, a, d) && Enabled(link, s, ev) && !ev.Receive?
    ensures AllTaken(link, Next(link, s, ev), a, d)
  {
    var t := Next(link, s, ev);
    assert Reads(t) == Reads(s) && t.heapFull == s.heapFull && t.accepted == s.accepted;
  }

  lemma StepKeepsTaken(link: Link, s: Flow, ev: Event, a: nat, b: nat, d: nat)
    requires BurstInv(link, s, a, b, d) && ConstantDelay(link.delay) == Some(d) && Enabled(link, s, ev)
    requires Next(link, s, ev).entered <= Stamped(LateBurst(a, b))
    ensures AllTaken(link, Next(link, s, ev), a, d)
  {
    if !ev.Receive? {
      OthersKeepTaken(link, s, ev, a, d);
    } else if Reads(s) < RELAY_QUEUE_CAP {
      ReceiveKeepsTaken(link, s, a, b, d);
    }
  }

  lemma StepKeepsInOrder(link: Link, s: Flow, ev: Event, a: nat, b: nat, d: nat)
    requires BurstInv(link, s, a, b, d) && ConstantDelay(link.delay) == Some(d) && Enabled(link, s, ev)
    requires Next(link, s, ev).entered <= Stamped(LateBurst(a, b))
    ensures InOrder(Next(link, s, ev))
  {
    if ev.Receive? {
      assert s.channel[0] == s.entered[Reads(s)] == Stamped(LateBurst(a, b))[Reads(s)];
      BufferedAre(link, s, a, b, d);
      if Reads(s) == RELAY_QUEUE_CAP {
        FullOrEmpty(link, s, a, b, d);
      }
      if |s.heap| < RELAY_QUEUE_CAP {
        ConstantDelayStep(link, s, ev);
      }
    } else {
      ConstantDelayStep(link, s, ev);
    }
  }

  lemma StepKeepsBurst(link: Link, s: Flow, ev: Event, a: nat, b: nat, d: nat)
    requires BurstInv(link, s, a, b, d) && ConstantDelay(link.delay) == Some(d) && Enabled(link, s, ev)
    requires Next(link, s, ev).entered <= Stamped(LateBurst(a, b))
    ensures BurstInv(link, Next(link, s, ev), a, b, d)
  {
    StepKeeps(link, s, ev);
    StepKeepsSentBelow(link, s, ev);
    StepKeepsTaken(link, s, ev, a, b, d);
    StepKeepsInOrder(link, s, ev, a, b, d);
  }

  lemma {:induction false} RunKeepsBurst(
      link: Link, evs: seq<Event>, states: seq<Flow>, k: nat, a: nat, b: nat, d: nat)
    requires IsRun(link, evs, states) && k < |states| && ConstantDelay(link.delay) == Some(d)
    requires states[k].entered <= Stamped(LateBurst(a, b))
    ensures BurstInv(link, states[k], a, b, d)
  {
    if k == 0 {
      InitialInv(link);
      assert Entries([]) == [];
    } else {
      HistoryGrows(link, evs, states, k - 1, k);
      RunKeepsBurst(link, evs, states, k - 1, a, b, d);
      StepKeepsBurst(link, states[k-1], evs[k-1], a, b, d);
    }
  }

  /** A queue full of datagrams stamped `a` and one more stamped earlier: every run delivers in acceptance
      order all the same. So for longer bursts a decreasing stamp need not overtake. */
  lemma LongerBurstMayBeInOrder(link: Link, evs: seq<Event>, states: seq<Flow>, a: nat, b: nat)
    requires IsRun(link, evs, states) && ConstantDelay(link.delay).Some? && b < a
    requires states[|evs|].entered == Stamped(LateBurst(a, b))
    ensures !StampsNeverDecrease(Stamped(LateBurst(a, b)))
    ensures InOrder(states[|evs|])
  {
    RunKeepsBurst(link, evs, states, |evs|, a, b, ConstantDelay(link.delay).value);
    var ps := Stamped(LateBurst(a, b));
    assert ps[0].arrival == a && ps[RELAY_QUEUE_CAP].arrival == b;
  }
}
