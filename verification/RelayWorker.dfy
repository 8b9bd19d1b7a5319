/**
 The forwarder of one flow as the source writes it: a queue, a heap and a counter updated in
 place. `flow` is the state of the transition system; every method moves it by the matching events.
 */
module RelayWorker {
  import opened RelayFlow

  // The drain loop without interference: pop while the head is due.
  function Drained(s: Flow): Flow
    requires s.pos.Draining?
    decreases |s.heap|
  {
    if s.heap != [] && s.heap[0].release <= s.pos.now then Drained(PopStep(s))
    else s.(pos := Selecting)
  }

  /** A drain splits the heap: it sends, in key order, exactly the datagrams that are due. */
  lemma {:induction false} DrainSendsExactlyTheDue(s: Flow) returns (n: nat)
    requires s.pos.Draining? && Ordered(s.heap)
    ensures n <= |s.heap| && Drained(s).heap == s.heap[n..]
    ensures Entries(Drained(s).sent) == Entries(s.sent) + s.heap[..n]
    ensures forall k | 0 <= k < |s.heap| :: s.heap[k].release <= s.pos.now <==> k < n
    ensures Drained(s) == s.(heap := s.heap[n..], sent := Drained(s).sent, pos := Selecting)
    decreases |s.heap|
  {
    if s.heap != [] && s.heap[0].release <= s.pos.now {
      var t := PopStep(s);
      var m := DrainSendsExactlyTheDue(t);
      n := m + 1;
      assert Entries(t.sent) == Entries(s.sent) + [s.heap[0]];
      assert s.heap[..n] == [s.heap[0]] + t.heap[..m];
      assert t.heap[m..] == s.heap[n..];
      forall k | 0 < k < |s.heap| ensures s.heap[k].release <= s.pos.now <==> k < n {
        assert s.heap[k] == t.heap[k-1];
      }
    } else {
      n := 0;
      forall k | 0 < k < |s.heap| ensures s.pos.now < s.heap[k].release {
        assert KeyLess(s.heap[0], s.heap[k]);
      }
    }
  }

  lemma DrainedOnceMore(s: Flow)
    requires s.pos.Draining? && s.heap != [] && s.heap[0].release <= s.pos.now
    ensures PopStep(s).pos == s.pos && Drained(PopStep(s)) == Drained(s)
  {
  }

  lemma MovesOver(out: seq<Entry>, heap: seq<Entry>)
    requires heap != []
    ensures (out + [heap[0]]) + heap[1..] == out + heap
  {
  }

  // The next number goes into the heap.
  lemma Schedules(heap: seq<Entry>, e: Entry)
    requires Ordered(heap) && forall x | x in heap :: x.seqNo < e.seqNo
    ensures Ordered(Insert(heap, e)) && forall x | x in Insert(heap, e) :: x.seqNo < e.seqNo + 1
    ensures multiset(Insert(heap, e)) == multiset(heap) + multiset{e}
  {
    InsertOrdered(heap, e);
    InsertContents(heap, e);
    forall x | x in Insert(heap, e) ensures x.seqNo < e.seqNo + 1 {
      InsertMember(heap, e, x);
    }
  }

  lemma ReceiveStepIs(link: Link, s: Flow, sampled: nat)
    requires s.channel != []
    ensures var t, p := ReceiveStep(link, s, sampled), s.channel[0];
            && t.channel == s.channel[1..]
            && if |s.heap| < RELAY_QUEUE_CAP && p.arrival + sampled <= link.maxInstant then
                 && t.heap == Insert(s.heap, Entry(p.arrival + sampled, s.nextSeq, p.arrival, sampled, p.id))
                 && t.nextSeq == s.nextSeq + 1
               else t.heap == s.heap && t.nextSeq == s.nextSeq
  {
  }

  class SenderWorker {
    const link: Link
    var channel: seq<Pending>
    var heap: seq<Entry>
    var nextSeq: nat
    ghost var flow: Flow

    ghost predicate Valid()
      reads this
    {
      && Ordered(heap) && (forall e | e in heap :: e.seqNo < nextSeq)
      && channel == flow.channel && heap == flow.heap && nextSeq == flow.nextSeq
    }

    constructor (link: Link)
      ensures Valid() && flow == INITIAL && this.link == link
    {
      this.link := link;
      channel, heap, nextSeq, flow := [], [], 0, INITIAL;
    }

    /** The next datagram, `id`, arrives at time `now` on a link held back by `held`. */
    method TrySend(now: nat, held: nat, id: nat) returns (queued: bool)
      requires Valid() && flow.clock <= now && id == flow.offered
      modifies this
      ensures Valid()
      ensures flow == Next(link, Next(link, old(flow), Tick(now)), Offer(held))
      ensures queued <==> |old(channel)| < 1024
      ensures channel == if queued then old(channel) + [Pending(now + held, id)] else old(channel)
      ensures heap == old(heap) && nextSeq == old(nextSeq)
    {
      flow := Next(link, flow, Tick(now));
      queued := |channel| < RELAY_QUEUE_CAP;
      if queued {
        channel := channel + [Pending(now + held, id)];
      }
      flow := Next(link, flow, Offer(held));
    }

    // Pop the due head of the heap and hand it to the socket.
    method PopHead(now: nat) returns (e: Entry)
      requires Valid() && flow.pos == Draining(now) && heap != [] && heap[0].release <= now
      modifies this
      ensures Valid() && flow == PopStep(old(flow)) && flow.pos == Draining(now)
      ensures Drained(flow) == Drained(old(flow))
      ensures e == old(heap)[0] && heap == old(heap)[1..]
    {
      DrainedOnceMore(flow);
      e := heap[0];
      heap := heap[1..];
      flow := PopStep(flow);
    }

    // The drain loop.
    method SendDue(now: nat) returns (out: seq<Entry>)
      requires Valid() && flow.pos == Draining(now)
      modifies this
      ensures Valid() && flow == Drained(old(flow))
      ensures out + heap == old(heap)
      ensures heap == [] || now < heap[0].release
    {
      ghost var end, all := Drained(flow), heap;
      out := [];
      while heap != [] && heap[0].release <= now
        invariant Valid() && flow.pos == Draining(now)
        invariant out + heap == all
        invariant Drained(flow) == end
        decreases |heap|
      {
        MovesOver(out, heap);
        var e := PopHead(now);
        out := out + [e];
      }
      EndsDrain(now);
    }

    // Nothing more is due.
    ghost method EndsDrain(now: nat)
      requires Valid() && flow.pos == Draining(now) && (heap == [] || now < heap[0].release)
      modifies this`flow
      ensures Valid() && flow == Drained(old(flow))
    {
      flow := flow.(pos := Selecting);
    }

    /** The top of the worker loop at time `now`: send everything due. */
    method Drain(now: nat) returns (out: seq<Entry>)
      requires Valid() && flow.pos.Top? && flow.clock <= now
      modifies this
      ensures Valid()
      ensures flow == Drained(Next(link, Next(link, old(flow), Tick(now)), StartDrain))
      ensures out + heap == old(heap)
      ensures forall e | e in out :: e.release <= now
      ensures forall e | e in heap :: now < e.release
    {
      flow := Next(link, Next(link, flow, Tick(now)), StartDrain);
      var n := DrainSendsExactlyTheDue(flow);
      ghost var all := heap;
      out := SendDue(now);
      assert heap == all[n..];
      assert out == all[..n];
    }

    // Put a datagram into the heap under the next number.
    method Schedule(e: Entry)
      requires Ordered(heap) && (forall x | x in heap :: x.seqNo < nextSeq) && e.seqNo == nextSeq
      modifies this`heap, this`nextSeq
      ensures heap == Insert(old(heap), e) && nextSeq == old(nextSeq) + 1
      ensures Ordered(heap) && forall x | x in heap :: x.seqNo < nextSeq
      ensures multiset(heap) == multiset(old(heap)) + multiset{e}
    {
      Schedules(heap, e);
      heap := Insert(heap, e);
      nextSeq := nextSeq + 1;
    }

    /** The receiving arm of the select: schedule one datagram, or drop it. */
    method Receive(sampled: nat)
      requires Valid() && Enabled(link, flow, Event.Receive(sampled))
      modifies this
      ensures Valid() && flow == Next(link, old(flow), Event.Receive(sampled))
      ensures channel == old(channel)[1..]
      ensures var p := old(channel)[0];
              if |old(heap)| < 1024 && p.arrival + sampled <= link.maxInstant then
                && nextSeq == old(nextSeq) + 1
                && multiset(heap) == multiset(old(heap))
                     + multiset{Entry(p.arrival + sampled, old(nextSeq), p.arrival, sampled, p.id)}
              else heap == old(heap) && nextSeq == old(nextSeq)
    {
      var p := channel[0];
      ghost var before := heap;
      ReceiveStepIs(link, flow, sampled);
      flow := ReceiveStep(link, flow, sampled);
      channel := channel[1..];
      if |heap| < RELAY_QUEUE_CAP && p.arrival + sampled <= link.maxInstant {
        var e := Entry(p.arrival + sampled, nextSeq, p.arrival, sampled, p.id);
        Schedule(e);
        assert flow.heap == heap && multiset(heap) == multiset(before) + multiset{e};
      }
    }
  }
}
