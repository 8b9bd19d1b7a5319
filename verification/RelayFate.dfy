/**
 What becomes of a datagram: what each event does to a flow, where each datagram ends up and why, and
 that whatever the heap holds can be sent at its release time.
 */
module RelayFate {
  import opened Wrappers
  import opened Latency
  import opened RelayFlow
  import opened RelayOrdering

  // ---------- what each event does ----------

  /** Offering appends to a channel with room, stamped with the time plus the hold; a channel of 1024
      refuses. */
  lemma OfferDoes(link: Link, evs: seq<Event>, states: seq<Flow>, k: nat)
    requires IsRun(link, evs, states) && k < |evs| && evs[k].Offer?
    ensures var s, t, p := states[k], states[k+1], Pending(states[k].clock + evs[k].held, states[k].offered);
            && t.offered == s.offered + 1
            && |s.channel| <= 1024
            && (if |s.channel| == 1024
                then t.channel == s.channel && t.entered == s.entered && t.channelFull == s.channelFull + [s.offered]
                else t.channel == s.channel + [p] && t.entered == s.entered + [p] && t.channelFull == s.channelFull)
            && t == s.(offered := t.offered, channel := t.channel, entered := t.entered, channelFull := t.channelFull)
  {
    RunKeeps(link, evs, states, k);
    assert states[k+1] == Next(link, states[k], evs[k]);
  }

  /** Receiving takes the head of the channel: dropped by a heap of 1024, dropped when its release cannot
      be represented, and otherwise numbered and put into the heap. */
  lemma ReceiveDoes(link: Link, evs: seq<Event>, states: seq<Flow>, k: nat)
    requires IsRun(link, evs, states) && k < |evs| && evs[k].Receive?
    ensures states[k].pos.Selecting? && states[k].channel != [] && CanSample(link.delay, evs[k].sampled)
    ensures var s, t, p := states[k], states[k+1], states[k].channel[0];
            var e := Entry(p.arrival + evs[k].sampled, s.nextSeq, p.arrival, evs[k].sampled, p.id);
            && t.channel == s.channel[1..] && t.pos == Top && |s.heap| <= 1024
            && (if |s.heap| == 1024 then t == s.(channel := t.channel, pos := Top, heapFull := s.heapFull + [p.id])
                else if link.maxInstant < p.arrival + evs[k].sampled then
                  t == s.(channel := t.channel, pos := Top, overflow := s.overflow + [p.id])
                else
                  && multiset(t.heap) == multiset(s.heap) + multiset{e}
                  && t == s.(channel := t.channel, pos := Top, heap := t.heap, nextSeq := s.nextSeq + 1,
                             accepted := s.accepted + [e]))
  {
    RunKeeps(link, evs, states, k);
    assert Enabled(link, states[k], evs[k]) && states[k+1] == Next(link, states[k], evs[k]);
    var p := states[k].channel[0];
    var e := Entry(p.arrival + evs[k].sampled, states[k].nextSeq, p.arrival, evs[k].sampled, p.id);
    InsertContents(states[k].heap, e);
  }

  /** The clock-driven side: a drain reads the clock once, sends the head of the heap while it is due and
      stops at the first that is not; a sleeping worker wakes when the head has become due. */
  lemma WorkerDoes(link: Link, evs: seq<Event>, states: seq<Flow>, k: nat)
    requires IsRun(link, evs, states) && k < |evs|
    ensures var s, t := states[k], states[k+1];
            match evs[k]
            case Tick(to) => s.clock <= to && t == s.(clock := to)
            case StartDrain => s.pos == Top && t == s.(pos := Draining(s.clock), round := s.round + 1)
            case Pop =>
              && s.pos.Draining? && s.heap != [] && s.heap[0].release <= s.pos.now
              && t == s.(heap := s.heap[1..], sent := s.sent + [Sent(s.heap[0], s.clock, s.round)])
            case EndDrain =>
              s.pos.Draining? && t == s.(pos := Selecting) && forall e | e in s.heap :: s.pos.now < e.release
            case Wake => s.pos == Selecting && t == s.(pos := Top) && s.heap != [] && s.heap[0].release <= s.clock
            case _ => true
  {
    assert Enabled(link, states[k], evs[k]) && states[k+1] == Next(link, states[k], evs[k]);
    if evs[k].EndDrain? {
      DrainLeavesNothingDue(link, evs, states, k);
    }
  }

  // ---------- where a datagram ends up ----------

  lemma IdsBelow(s: Flow, id: nat)
    requires Conserved(s) && s.offered <= id
    ensures id !in s.channelFull && id !in s.heapFull && id !in s.overflow
  {
    assert PlacesOf(s, id) == 0;
  }

  // Refusals after event `k` concern later datagrams.
  lemma {:induction false} LaterRefusals(link: Link, evs: seq<Event>, states: seq<Flow>, k: nat, j: nat, id: nat)
    requires IsRun(link, evs, states) && k <= j < |states| && id < states[k].offered
    ensures id in states[j].channelFull <==> id in states[k].channelFull
    ensures id < states[j].offered
  {
    if k < j {
      LaterRefusals(link, evs, states, k, j - 1, id);
      assert Enabled(link, states[j-1], evs[j-1]) && states[j] == Next(link, states[j-1], evs[j-1]);
    }
  }

  /** Over every run, a datagram is refused exactly when 1024 others wait in the channel at the moment it
      is offered. */
  lemma RefusedIff(link: Link, evs: seq<Event>, states: seq<Flow>, k: nat, j: nat)
    requires IsRun(link, evs, states) && k < j < |states| && evs[k].Offer?
    ensures states[k].offered in states[j].channelFull <==> |states[k].channel| == 1024
  {
    OfferDoes(link, evs, states, k);
    RunKeeps(link, evs, states, k);
    IdsBelow(states[k], states[k].offered);
    LaterRefusals(link, evs, states, k + 1, j, states[k].offered);
  }

  lemma MemberCount(ids: seq<nat>, id: nat)
    ensures id in ids <==> multiset(ids)[id] >= 1
  {
  }

  lemma EntryCounted(es: seq<Entry>, e: Entry)
    requires e in es
    ensures multiset(EntryIds(es))[e.id] >= 1
  {
    var i :| 0 <= i < |es| && es[i] == e;
    assert EntryIds(es)[i] == e.id;
  }

  // A datagram that was accepted is never counted as dropped.
  lemma AcceptedIsNotDropped(link: Link, s: Flow, e: Entry)
    requires FlowInv(link, s) && e in s.accepted
    ensures e.id !in s.heapFull && e.id !in s.overflow && e.id !in s.channelFull
  {
    assert e in multiset(s.accepted);
    assert e in s.heap || e in Entries(s.sent);
    if e in s.heap {
      EntryCounted(s.heap, e);
    } else {
      EntryCounted(Entries(s.sent), e);
    }
    assert PlacesOf(s, e.id) <= 1;
    MemberCount(s.heapFull, e.id);
    MemberCount(s.overflow, e.id);
    MemberCount(s.channelFull, e.id);
  }

  lemma OneDropOnly(s: Flow, id: nat)
    requires Conserved(s)
    ensures !(id in s.heapFull && id in s.overflow)
  {
    MemberCount(s.heapFull, id);
    MemberCount(s.overflow, id);
    assert PlacesOf(s, id) <= 1;
  }

  /** Over every run, a datagram that was read is dropped exactly when the heap held 1024 others at that
      moment, or its release could not be represented; otherwise it is accepted under the next number. */
  lemma DroppedIff(link: Link, evs: seq<Event>, states: seq<Flow>, k: nat, j: nat)
    requires IsRun(link, evs, states) && k < j < |states| && evs[k].Receive? && states[k].channel != []
    ensures var s, p, release := states[k], states[k].channel[0], states[k].channel[0].arrival + evs[k].sampled;
            && (p.id in states[j].heapFull <==> |s.heap| == 1024)
            && (p.id in states[j].overflow <==> |s.heap| < 1024 && link.maxInstant < release)
            && (|s.heap| < 1024 && release <= link.maxInstant ==>
                  && |s.accepted| < |states[j].accepted|
                  && states[j].accepted[|s.accepted|] == Entry(release, |s.accepted|, p.arrival, evs[k].sampled, p.id))
  {
    var s, t, id := states[k], states[k+1], states[k].channel[0].id;
    ReceiveDoes(link, evs, states, k);
    RunKeeps(link, evs, states, k);
    RunKeeps(link, evs, states, j);
    HistoryGrows(link, evs, states, k + 1, j);
    OneDropOnly(states[j], id);
    if t.accepted != s.accepted {
      assert t.accepted[|s.accepted|] == states[j].accepted[|s.accepted|];
      AcceptedIsNotDropped(link, states[j], states[j].accepted[|s.accepted|]);
    } else if |s.heap| == 1024 {
      assert t.heapFull[|s.heapFull|] == states[j].heapFull[|s.heapFull|];
    } else {
      assert t.overflow[|s.overflow|] == states[j].overflow[|s.overflow|];
    }
  }

  // ---------- nothing accepted is stuck ----------

  // A continuation in which only the clock and the worker move.
  ghost predicate Continues(
      link: Link, evs0: seq<Event>, states0: seq<Flow>, evs: seq<Event>, states: seq<Flow>) {
    && IsRun(link, evs0, states0) && IsRun(link, evs, states) && evs0 <= evs && states0 <= states
    && forall k :: |evs0| <= k < |evs| ==> !evs[k].Offer? && !evs[k].Receive?
  }

  lemma ContinuesOnce(
      link: Link, evs0: seq<Event>, states0: seq<Flow>, evs: seq<Event>, states: seq<Flow>, ev: Event)
    requires Continues(link, evs0, states0, evs, states) && Enabled(link, states[|evs|], ev)
    requires !ev.Offer? && !ev.Receive?
    ensures Continues(link, evs0, states0, evs + [ev], states + [Next(link, states[|evs|], ev)])
  {
    OneMore(link, evs, states, ev);
  }

  lemma HeadFirst(heap: seq<Entry>, e: Entry)
    requires Ordered(heap) && e in heap
    ensures heap[0].release <= e.release
    ensures e == heap[0] || e in heap[1..]
  {
    var k :| 0 <= k < |heap| && heap[k] == e;
    if k > 0 {
      assert KeyLess(heap[0], heap[k]);
      assert heap[1..][k-1] == e;
    }
  }

  // A drain in progress sends `e` if it is due, or ends without it.
  lemma {:induction false} DrainGoesOn(
      link: Link, evs0: seq<Event>, states0: seq<Flow>, evs1: seq<Event>, states1: seq<Flow>, e: Entry)
    returns (evs: seq<Event>, states: seq<Flow>)
    requires Continues(link, evs0, states0, evs1, states1) && states1[|evs1|].pos.Draining?
    requires e in states1[|evs1|].heap
    ensures Continues(link, evs0, states0, evs, states) && states[|evs|].clock == states1[|evs1|].clock
    ensures if e.release <= states1[|evs1|].pos.now then e in Entries(states[|evs|].sent)
            else states[|evs|].pos.Selecting? && e in states[|evs|].heap
    decreases |states1[|evs1|].heap|
  {
    var s := states1[|evs1|];
    RunKeeps(link, evs1, states1, |evs1|);
    HeadFirst(s.heap, e);
    if s.heap[0].release <= s.pos.now {
      ContinuesOnce(link, evs0, states0, evs1, states1, Pop);
      evs, states := evs1 + [Pop], states1 + [PopStep(s)];
      assert Entries(PopStep(s).sent)[|s.sent|] == s.heap[0];
      if e != s.heap[0] || e.release > s.pos.now {
        evs, states := DrainGoesOn(link, evs0, states0, evs, states, e);
      }
    } else {
      ContinuesOnce(link, evs0, states0, evs1, states1, EndDrain);
      evs, states := evs1 + [EndDrain], states1 + [s.(pos := Selecting)];
    }
  }

  // From the top of the loop, `e` is sent once it is due.
  lemma TopSends(
      link: Link, evs0: seq<Event>, states0: seq<Flow>, evs1: seq<Event>, states1: seq<Flow>, e: Entry)
    returns (evs: seq<Event>, states: seq<Flow>)
    requires Continues(link, evs0, states0, evs1, states1) && states1[|evs1|].pos.Top?
    requires e in states1[|evs1|].heap && e.release <= states1[|evs1|].clock
    ensures Continues(link, evs0, states0, evs, states) && states[|evs|].clock == states1[|evs1|].clock
    ensures e in Entries(states[|evs|].sent)
  {
    ContinuesOnce(link, evs0, states0, evs1, states1, StartDrain);
    evs, states := evs1 + [StartDrain], states1 + [Next(link, states1[|evs1|], StartDrain)];
    evs, states := DrainGoesOn(link, evs0, states0, evs, states, e);
  }

  lemma SelectingSends(
      link: Link, evs0: seq<Event>, states0: seq<Flow>, evs1: seq<Event>, states1: seq<Flow>, e: Entry)
    returns (evs: seq<Event>, states: seq<Flow>)
    requires Continues(link, evs0, states0, evs1, states1) && states1[|evs1|].pos.Selecting?
    requires e in states1[|evs1|].heap && e.release <= states1[|evs1|].clock
    ensures Continues(link, evs0, states0, evs, states) && states[|evs|].clock == states1[|evs1|].clock
    ensures e in Entries(states[|evs|].sent)
  {
    RunKeeps(link, evs1, states1, |evs1|);
    HeadFirst(states1[|evs1|].heap, e);
    ContinuesOnce(link, evs0, states0, evs1, states1, Wake);
    evs, states := evs1 + [Wake], states1 + [Next(link, states1[|evs1|], Wake)];
    evs, states := TopSends(link, evs0, states0, evs, states, e);
  }

  /** From every reachable state, whatever the heap holds is sent by the worker alone as soon as the clock
      reaches its release, without another datagram arriving. */
  lemma BufferedCanBeSent(link: Link, evs0: seq<Event>, states0: seq<Flow>, e: Entry)
    returns (evs: seq<Event>, states: seq<Flow>)
    requires IsRun(link, evs0, states0) && e in states0[|evs0|].heap
    ensures Continues(link, evs0, states0, evs, states)
    ensures e in Entries(states[|evs|].sent)
    ensures states[|evs|].clock == if states0[|evs0|].clock <= e.release then e.release else states0[|evs0|].clock
  {
    var now := states0[|evs0|].clock;
    var due := if now <= e.release then e.release else now;
    ContinuesOnce(link, evs0, states0, evs0, states0, Tick(due));
    evs, states := evs0 + [Tick(due)], states0 + [Next(link, states0[|evs0|], Tick(due))];
    if states[|evs|].pos.Draining? {
      evs, states := DrainGoesOn(link, evs0, states0, evs, states, e);
      if e !in Entries(states[|evs|].sent) {
        evs, states := SelectingSends(link, evs0, states0, evs, states, e);
      }
    } else if states[|evs|].pos.Top? {
      evs, states := TopSends(link, evs0, states0, evs, states, e);
    } else {
      evs, states := SelectingSends(link, evs0, states0, evs, states, e);
    }
  }
}
