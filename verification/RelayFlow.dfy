/**
 One directed flow of the latency relay: a bounded channel feeding a release heap that a
 clock-driven worker drains. Every interleaving of the producer, the worker and the clock is
 a sequence of the events below.

 A datagram is named by its position among everything offered to the flow; its payload is
 never inspected. The heap is given by its contents in key order. Times are nanoseconds.
 */
module RelayFlow {
  import opened Wrappers
  import opened Latency

  const RELAY_QUEUE_CAP: nat := 1024

  // A datagram in the channel, stamped when it entered.
  datatype Pending = Pending(arrival: nat, id: nat)

  // A datagram in the release heap.
  datatype Entry = Entry(release: nat, seqNo: nat, arrival: nat, sampled: nat, id: nat)

  // A datagram handed to the socket at time `at`, in drain number `round`.
  datatype Sent = Sent(entry: Entry, at: nat, round: nat)

  // Where the worker stands in its loop.
  datatype Position = Top | Draining(now: nat) | Selecting

  // The delay of the link and the last representable instant.
  datatype Link = Link(delay: Option<DelayDist>, maxInstant: nat)

  datatype Flow = Flow(
    clock: nat,
    channel: seq<Pending>,
    heap: seq<Entry>,
    nextSeq: nat,
    pos: Position,
    round: nat,
    offered: nat,
    entered: seq<Pending>,
    accepted: seq<Entry>,
    sent: seq<Sent>,
    channelFull: seq<nat>,
    heapFull: seq<nat>,
    overflow: seq<nat>)

  datatype Event =
    | Tick(to: nat)
    | Offer(held: nat)
    | StartDrain
    | Pop
    | EndDrain
    | Receive(sampled: nat)
    | Wake

  predicate KeyLess(a: Entry, b: Entry) {
    a.release < b.release || (a.release == b.release && a.seqNo < b.seqNo)
  }

  predicate Ordered(es: seq<Entry>) {
    forall i, j :: 0 <= i < j < |es| ==> KeyLess(es[i], es[j])
  }

  function Insert(heap: seq<Entry>, e: Entry): seq<Entry> {
    if heap == [] || KeyLess(e, heap[0]) then [e] + heap
    else [heap[0]] + Insert(heap[1..], e)
  }

  const INITIAL := Flow(0, [], [], 0, Top, 0, 0, [], [], [], [], [], [])

  predicate Enabled(link: Link, s: Flow, ev: Event) {
    match ev
    case Tick(to) => s.clock <= to
    case Offer(_) => true
    case StartDrain => s.pos.Top?
    case Pop => s.pos.Draining? && s.heap != [] && s.heap[0].release <= s.pos.now
    case EndDrain => s.pos.Draining? && (s.heap == [] || s.pos.now < s.heap[0].release)
    case Receive(sampled) => s.pos.Selecting? && s.channel != [] && CanSample(link.delay, sampled)
    case Wake => s.pos.Selecting? && s.heap != [] && s.heap[0].release <= s.clock
  }

  // `try_send((now + held, datagram))`: dropped when the channel is full.
  function OfferStep(s: Flow, held: nat): Flow {
    if |s.channel| >= RELAY_QUEUE_CAP then
      s.(offered := s.offered + 1, channelFull := s.channelFull + [s.offered])
    else
      var p := Pending(s.clock + held, s.offered);
      s.(offered := s.offered + 1, channel := s.channel + [p], entered := s.entered + [p])
  }

  // One datagram moves from the channel to the heap, or is dropped there.
  function ReceiveStep(link: Link, s: Flow, sampled: nat): Flow
    requires s.channel != []
  {
    var p := s.channel[0];
    var rest := s.(channel := s.channel[1..], pos := Top);
    if |s.heap| >= RELAY_QUEUE_CAP then
      rest.(heapFull := s.heapFull + [p.id])
    else if link.maxInstant < p.arrival + sampled then
      rest.(overflow := s.overflow + [p.id])
    else
      var e := Entry(p.arrival + sampled, s.nextSeq, p.arrival, sampled, p.id);
      rest.(heap := Insert(s.heap, e), nextSeq := s.nextSeq + 1, accepted := s.accepted + [e])
  }

  function PopStep(s: Flow): Flow
    requires s.heap != []
  {
    s.(heap := s.heap[1..], sent := s.sent + [Sent(s.heap[0], s.clock, s.round)])
  }

  function Next(link: Link, s: Flow, ev: Event): Flow
    requires Enabled(link, s, ev)
  {
    match ev
    case Tick(to) => s.(clock := to)
    case Offer(held) => OfferStep(s, held)
    case StartDrain => s.(pos := Draining(s.clock), round := s.round + 1)
    case Pop => PopStep(s)
    case EndDrain => s.(pos := Selecting)
    case Receive(sampled) => ReceiveStep(link, s, sampled)
    case Wake => s.(pos := Top)
  }

  // ---------- runs ----------

  ghost predicate IsRun(link: Link, evs: seq<Event>, states: seq<Flow>) {
    && |states| == |evs| + 1
    && states[0] == INITIAL
    && forall k :: 0 <= k < |evs| ==> Enabled(link, states[k], evs[k]) && states[k+1] == Next(link, states[k], evs[k])
  }

  // ---------- what every reachable state satisfies ----------

  function PendingIds(ps: seq<Pending>): (r: seq<nat>)
    ensures |r| == |ps|
  {
    seq(|ps|, i requires 0 <= i < |ps| => ps[i].id)
  }

  function EntryIds(es: seq<Entry>): (r: seq<nat>)
    ensures |r| == |es|
  {
    seq(|es|, i requires 0 <= i < |es| => es[i].id)
  }

  function Entries(sent: seq<Sent>): (r: seq<Entry>)
    ensures |r| == |sent|
  {
    seq(|sent|, i requires 0 <= i < |sent| => sent[i].entry)
  }

  // In how many places datagram `id` is: channel, heap, sent, or dropped for one of three reasons.
  ghost function PlacesOf(s: Flow, id: nat): nat {
    multiset(PendingIds(s.channel))[id] + multiset(EntryIds(s.heap))[id]
    + multiset(EntryIds(Entries(s.sent)))[id]
    + multiset(s.channelFull)[id] + multiset(s.heapFull)[id] + multiset(s.overflow)[id]
  }

  ghost predicate Conserved(s: Flow) {
    forall id: nat :: PlacesOf(s, id) == if id < s.offered then 1 else 0
  }

  ghost predicate Bounded(s: Flow) {
    |s.channel| <= RELAY_QUEUE_CAP && |s.heap| <= RELAY_QUEUE_CAP
  }

  // The stamps and delays an entry was built from.
  ghost predicate WellTimed(link: Link, e: Entry) {
    && e.release == e.arrival + e.sampled <= link.maxInstant
    && CanSample(link.delay, e.sampled)
  }

  ghost predicate Timed(link: Link, s: Flow) {
    && Ordered(s.heap)
    && (forall e :: e in s.heap ==> WellTimed(link, e) && e.seqNo < s.nextSeq)
    && (forall k :: 0 <= k < |s.sent| ==>
          && WellTimed(link, s.sent[k].entry)
          && s.sent[k].entry.release <= s.sent[k].at <= s.clock
          && s.sent[k].entry.seqNo < s.nextSeq
          && s.sent[k].round <= s.round)
    && (s.pos.Draining? ==> s.pos.now <= s.clock)
  }

  // Within one drain datagrams leave in key order, and the drain in progress is ahead of the heap.
  ghost predicate DrainsInOrder(s: Flow) {
    && (forall i, j :: 0 <= i < j < |s.sent| ==> s.sent[i].round <= s.sent[j].round)
    && (forall i, j :: 0 <= i < j < |s.sent| && s.sent[i].round == s.sent[j].round ==>
          KeyLess(s.sent[i].entry, s.sent[j].entry))
    && (s.pos.Draining? ==> forall i, e :: 0 <= i < |s.sent| && s.sent[i].round == s.round && e in s.heap ==>
          KeyLess(s.sent[i].entry, e))
  }

  // Accepted datagrams are numbered in acceptance order and are either in the heap or sent.
  ghost predicate Numbered(s: Flow) {
    && |s.accepted| == s.nextSeq
    && (forall k :: 0 <= k < |s.accepted| ==> s.accepted[k].seqNo == k)
    && multiset(s.accepted) == multiset(s.heap) + multiset(Entries(s.sent))
  }

  // The channel is the unread end of what entered it, in the order offered.
  ghost predicate QueuedIn(channel: seq<Pending>, entered: seq<Pending>, offered: nat) {
    && |channel| <= |entered|
    && channel == entered[|entered| - |channel|..]
    && (forall i, j :: 0 <= i < j < |entered| ==> entered[i].id < entered[j].id)
    && (forall i :: 0 <= i < |entered| ==> entered[i].id < offered)
  }

  ghost predicate Queued(s: Flow) {
    QueuedIn(s.channel, s.entered, s.offered)
  }

  // Accepted datagrams come from the read part, in the order they entered.
  ghost predicate ReadInOrder(s: Flow) {
    && (forall k :: 0 <= k < |s.accepted| ==> WasRead(s, s.accepted[k]))
    && (forall i, j :: 0 <= i < j < |s.accepted| ==> s.accepted[i].id < s.accepted[j].id)
  }

  ghost predicate Lined(s: Flow) {
    Queued(s) && ReadInOrder(s)
  }

  ghost predicate WasRead(s: Flow, e: Entry) {
    exists i :: 0 <= i < |s.entered| - |s.channel| && s.entered[i] == Pending(e.arrival, e.id)
  }

  ghost predicate FlowInv(link: Link, s: Flow) {
    Bounded(s) && Conserved(s) && Timed(link, s) && DrainsInOrder(s) && Numbered(s) && Lined(s)
  }

  lemma InsertContents(heap: seq<Entry>, e: Entry)
    ensures |Insert(heap, e)| == |heap| + 1
    ensures multiset(Insert(heap, e)) == multiset(heap) + multiset{e}
  {
    if heap != [] && !KeyLess(e, heap[0]) {
      InsertContents(heap[1..], e);
      assert heap == [heap[0]] + heap[1..];
    }
  }

  lemma InsertMember(heap: seq<Entry>, e: Entry, x: Entry)
    ensures x in Insert(heap, e) <==> x == e || x in heap
  {
    InsertContents(heap, e);
    assert x in Insert(heap, e) <==> x in multiset(Insert(heap, e));
  }

  lemma {:induction false} InsertIds(heap: seq<Entry>, e: Entry)
    ensures multiset(EntryIds(Insert(heap, e))) == multiset(EntryIds(heap)) + multiset{e.id}
  {
    if heap == [] || KeyLess(e, heap[0]) {
      assert EntryIds([e] + heap) == [e.id] + EntryIds(heap);
    } else {
      InsertIds(heap[1..], e);
      assert EntryIds(heap) == [heap[0].id] + EntryIds(heap[1..]);
      assert EntryIds(Insert(heap, e)) == [heap[0].id] + EntryIds(Insert(heap[1..], e));
    }
  }

  lemma {:induction false} InsertOrdered(heap: seq<Entry>, e: Entry)
    requires Ordered(heap)
    requires forall x :: x in heap ==> x.seqNo < e.seqNo
    ensures Ordered(Insert(heap, e))
  {
    if heap != [] && !KeyLess(e, heap[0]) {
      var rest := Insert(heap[1..], e);
      assert Ordered(rest) by { InsertOrdered(heap[1..], e); }
      forall j | 0 <= j < |rest| ensures KeyLess(heap[0], rest[j]) {
        InsertMember(heap[1..], e, rest[j]);
      }
    }
  }

  lemma InitialInv(link: Link)
    ensures FlowInv(link, INITIAL)
  {
    assert PendingIds([]) == [] && EntryIds([]) == [] && Entries([]) == [];
  }

  lemma ConservedByOffer(s: Flow, held: nat)
    requires Conserved(s)
    ensures Conserved(OfferStep(s, held))
  {
    var t := OfferStep(s, held);
    if |s.channel| < RELAY_QUEUE_CAP {
      assert PendingIds(t.channel) == PendingIds(s.channel) + [s.offered];
    }
    forall id: nat ensures PlacesOf(t, id) == PlacesOf(s, id) + if id == s.offered then 1 else 0 {
    }
  }

  lemma ConservedByPop(s: Flow)
    requires Conserved(s) && s.heap != []
    ensures Conserved(PopStep(s))
  {
    var t := PopStep(s);
    assert EntryIds(s.heap) == [s.heap[0].id] + EntryIds(t.heap);
    assert EntryIds(Entries(t.sent)) == EntryIds(Entries(s.sent)) + [s.heap[0].id];
    forall id: nat ensures PlacesOf(t, id) == PlacesOf(s, id) {
    }
  }

  lemma ConservedByReceive(link: Link, s: Flow, sampled: nat)
    requires Conserved(s) && s.channel != []
    ensures Conserved(ReceiveStep(link, s, sampled))
  {
    var t := ReceiveStep(link, s, sampled);
    var p := s.channel[0];
    assert PendingIds(s.channel) == [p.id] + PendingIds(t.channel);
    assert t.sent == s.sent && t.channelFull == s.channelFull && t.offered == s.offered;
    if t.accepted != s.accepted {
      var e := Entry(p.arrival + sampled, s.nextSeq, p.arrival, sampled, p.id);
      InsertIds(s.heap, e);
      assert t.heap == Insert(s.heap, e) && t.heapFull == s.heapFull && t.overflow == s.overflow;
    } else if t.heapFull != s.heapFull {
      assert t.heap == s.heap && t.heapFull == s.heapFull + [p.id] && t.overflow == s.overflow;
    } else {
      assert t.heap == s.heap && t.overflow == s.overflow + [p.id];
    }
    forall id: nat ensures PlacesOf(t, id) == PlacesOf(s, id) {
    }
  }

  lemma ConservedKept(link: Link, s: Flow, ev: Event)
    requires Conserved(s) && Enabled(link, s, ev)
    ensures Conserved(Next(link, s, ev))
  {
    match ev
    case Offer(held) => ConservedByOffer(s, held);
    case Pop => ConservedByPop(s);
    case Receive(sampled) => ConservedByReceive(link, s, sampled);
    case _ =>
      forall id: nat ensures PlacesOf(Next(link, s, ev), id) == PlacesOf(s, id) {
      }
  }

  lemma BoundedKept(link: Link, s: Flow, ev: Event)
    requires Bounded(s) && Enabled(link, s, ev)
    ensures Bounded(Next(link, s, ev))
  {
    if ev.Receive? {
      var p := s.channel[0];
      InsertContents(s.heap, Entry(p.arrival + ev.sampled, s.nextSeq, p.arrival, ev.sampled, p.id));
    }
  }

  lemma TimedKept(link: Link, s: Flow, ev: Event)
    requires Timed(link, s) && Enabled(link, s, ev)
    ensures Timed(link, Next(link, s, ev))
  {
    var t := Next(link, s, ev);
    match ev
    case Pop =>
      assert s.heap[0] in s.heap;
      forall e | e in t.heap ensures e in s.heap {}
    case Receive(sampled) =>
      var p := s.channel[0];
      if t.accepted != s.accepted {
        var e := Entry(p.arrival + sampled, s.nextSeq, p.arrival, sampled, p.id);
        InsertOrdered(s.heap, e);
        forall x | x in t.heap ensures WellTimed(link, x) && x.seqNo < t.nextSeq {
          InsertMember(s.heap, e, x);
        }
      }
    case _ =>
  }

  lemma DrainsByPop(link: Link, s: Flow)
    requires Timed(link, s) && DrainsInOrder(s) && Enabled(link, s, Pop)
    ensures DrainsInOrder(PopStep(s))
  {
    var t := PopStep(s);
    var e := s.heap[0];
    assert e in s.heap;
    forall x | x in t.heap ensures x in s.heap && KeyLess(e, x) {
      var k :| 0 <= k < |t.heap| && t.heap[k] == x;
      assert s.heap[k+1] == x;
    }
  }

  lemma DrainsKept(link: Link, s: Flow, ev: Event)
    requires Timed(link, s) && DrainsInOrder(s) && Enabled(link, s, ev)
    ensures DrainsInOrder(Next(link, s, ev))
  {
    if ev.Pop? {
      DrainsByPop(link, s);
    } else {
      assert Next(link, s, ev).sent == s.sent;
    }
  }

  lemma NumberedByPop(s: Flow)
    requires Numbered(s) && s.heap != []
    ensures Numbered(PopStep(s))
  {
    var t := PopStep(s);
    assert s.heap == [s.heap[0]] + t.heap;
    assert Entries(t.sent) == Entries(s.sent) + [s.heap[0]];
    assert multiset(s.heap) == multiset{s.heap[0]} + multiset(t.heap);
    assert multiset(Entries(t.sent)) == multiset(Entries(s.sent)) + multiset{s.heap[0]};
  }

  lemma NumberedByReceive(link: Link, s: Flow, sampled: nat)
    requires Numbered(s) && s.channel != []
    ensures Numbered(ReceiveStep(link, s, sampled))
  {
    var t := ReceiveStep(link, s, sampled);
    assert t.sent == s.sent;
    if t.accepted != s.accepted {
      var e := t.accepted[|s.accepted|];
      InsertContents(s.heap, e);
      assert t.accepted == s.accepted + [e] && t.heap == Insert(s.heap, e) && t.nextSeq == s.nextSeq + 1;
      assert multiset(t.accepted) == multiset(s.accepted) + multiset{e};
    } else {
      assert t.heap == s.heap && t.nextSeq == s.nextSeq;
    }
  }

  lemma NumberedKept(link: Link, s: Flow, ev: Event)
    requires Numbered(s) && Enabled(link, s, ev)
    ensures Numbered(Next(link, s, ev))
  {
    if ev.Pop? {
      NumberedByPop(s);
    } else if ev.Receive? {
      NumberedByReceive(link, s, ev.sampled);
    }
  }

  lemma QueuedByOffer(channel: seq<Pending>, entered: seq<Pending>, offered: nat, p: Pending)
    requires QueuedIn(channel, entered, offered) && p.id == offered
    ensures QueuedIn(channel + [p], entered + [p], offered + 1)
  {
  }

  lemma QueuedByReceive(channel: seq<Pending>, entered: seq<Pending>, offered: nat)
    requires QueuedIn(channel, entered, offered) && channel != []
    ensures QueuedIn(channel[1..], entered, offered)
  {
  }

  lemma QueuedKept(link: Link, s: Flow, ev: Event)
    requires Queued(s) && Enabled(link, s, ev)
    ensures Queued(Next(link, s, ev))
  {
    if ev.Receive? {
      QueuedByReceive(s.channel, s.entered, s.offered);
    } else if ev.Offer? {
      QueuedByOffer(s.channel, s.entered, s.offered, Pending(s.clock + ev.held, s.offered));
    }
  }

  lemma StaysRead(s: Flow, t: Flow, e: Entry)
    requires WasRead(s, e) && s.entered <= t.entered
    requires |s.entered| - |s.channel| <= |t.entered| - |t.channel|
    ensures WasRead(t, e)
  {
    var i :| 0 <= i < |s.entered| - |s.channel| && s.entered[i] == Pending(e.arrival, e.id);
    assert t.entered[i] == s.entered[i];
  }

  // What was read has a smaller id than what is still in the channel.
  lemma ReadBefore(s: Flow, e: Entry)
    requires Queued(s) && WasRead(s, e) && s.channel != []
    ensures e.id < s.channel[0].id
  {
    assert s.entered[|s.entered| - |s.channel|] == s.channel[0];
  }

  lemma LinedKept(link: Link, s: Flow, ev: Event)
    requires Lined(s) && Enabled(link, s, ev)
    ensures Lined(Next(link, s, ev))
  {
    var t := Next(link, s, ev);
    QueuedKept(link, s, ev);
    forall k | 0 <= k < |s.accepted|
      ensures WasRead(t, s.accepted[k])
      ensures ev.Receive? ==> s.accepted[k].id < s.channel[0].id
    {
      StaysRead(s, t, s.accepted[k]);
      if ev.Receive? {
        ReadBefore(s, s.accepted[k]);
      }
    }
    if t.accepted != s.accepted {
      assert t.entered[|s.entered| - |s.channel|] == s.channel[0];
      assert WasRead(t, t.accepted[|s.accepted|]);
    }
  }

  lemma StepKeeps(link: Link, s: Flow, ev: Event)
    requires FlowInv(link, s) && Enabled(link, s, ev)
    ensures FlowInv(link, Next(link, s, ev))
  {
    BoundedKept(link, s, ev);
    ConservedKept(link, s, ev);
    TimedKept(link, s, ev);
    DrainsKept(link, s, ev);
    NumberedKept(link, s, ev);
    LinedKept(link, s, ev);
  }

  lemma {:induction false} RunKeeps(link: Link, evs: seq<Event>, states: seq<Flow>, k: nat)
    requires IsRun(link, evs, states) && k < |states|
    ensures FlowInv(link, states[k])
  {
    if k == 0 {
      InitialInv(link);
    } else {
      RunKeeps(link, evs, states, k - 1);
      StepKeeps(link, states[k-1], evs[k-1]);
    }
  }
}
