/**
 The lifecycle of one cluster: the status summary, updated in place under its lock, and the
 orchestrator that drives it from the first snapshot to shutdown or failure. A reader sees exactly
 the summary left by some locked section.
 */
module ClusterLifecycle {
  import opened Wrappers

  datatype ClusterState = NotRunning | Initializing | Starting | Running | ShuttingDown | Failed

  datatype NodeState = Pending | Spawned | Started | Ready | ChannelsOpen | NodeFailed

  datatype Node = Node(id: nat, state: NodeState, address: Option<string>, pid: Option<nat>)

  // What a reader of the status sees.
  datatype View = View(state: ClusterState, nodes: seq<Node>, error: Option<string>)

  // ---------- the summary ----------

  // The position of the first node with this id.
  function Find(nodes: seq<Node>, id: nat): (r: Option<nat>)
    ensures r.Some? ==> r.value < |nodes| && nodes[r.value].id == id
    ensures r.Some? ==> forall k :: 0 <= k < r.value ==> nodes[k].id != id
    ensures r.None? ==> forall k :: 0 <= k < |nodes| ==> nodes[k].id != id
  {
    if nodes == [] then None
    else if nodes[0].id == id then Some(0)
    else match Find(nodes[1..], id) { case None => None case Some(k) => Some(k + 1) }
  }

  ghost predicate Numbered(nodes: seq<Node>) {
    forall k :: 0 <= k < |nodes| ==> nodes[k].id == k
  }

  class ClusterSummary {
    var state: ClusterState
    var nodes: seq<Node>
    var error: Option<string>

    ghost function Seen(): View
      reads this
    {
      View(state, nodes, error)
    }

    constructor (size: nat)
      ensures Seen() == InitialView(size)
    {
      state, nodes, error := Initializing, seq(size, k requires k >= 0 => Node(k, Pending, None, None)), None;
    }

    /** Records the pid of each spawned process; processes without a node are ignored. */
    method MarkSpawned(procs: seq<(nat, nat)>)
      requires Numbered(nodes)
      modifies this`nodes
      ensures Numbered(nodes) && |nodes| == |old(nodes)|
      ensures forall k | 0 <= k < |nodes| && (forall p | p in procs :: p.0 != k) :: nodes[k] == old(nodes[k])
      ensures forall k | 0 <= k < |nodes| && (exists p | p in procs :: p.0 == k) ::
                nodes[k].state == Spawned && nodes[k].address == old(nodes[k].address)
                && exists p | p in procs :: p.0 == k && nodes[k].pid == Some(p.1)
    {
      for i := 0 to |procs|
        invariant Numbered(nodes) && |nodes| == |old(nodes)|
        invariant forall k | 0 <= k < |nodes| && (forall p | p in procs[..i] :: p.0 != k) :: nodes[k] == old(nodes[k])
        invariant forall k | 0 <= k < |nodes| && (exists p | p in procs[..i] :: p.0 == k) ::
                    nodes[k].state == Spawned && nodes[k].address == old(nodes[k].address)
                    && exists p | p in procs[..i] :: p.0 == k && nodes[k].pid == Some(p.1)
      {
        assert procs[..i+1] == procs[..i] + [procs[i]];
        var at := Find(nodes, procs[i].0);
        if at.Some? {
          nodes := nodes[at.value := nodes[at.value].(pid := Some(procs[i].1), state := Spawned)];
        }
      }
      assert procs[..|procs|] == procs;
    }

    method SetNodeState(id: nat, s: NodeState)
      requires Numbered(nodes)
      modifies this`nodes
      ensures nodes == if id < |old(nodes)| then old(nodes)[id := old(nodes)[id].(state := s)] else old(nodes)
    {
      var at := Find(nodes, id);
      if at.Some? {
        nodes := nodes[at.value := nodes[at.value].(state := s)];
      }
    }

    method SetAllNodeStates(s: NodeState)
      modifies this`nodes
      ensures |nodes| == |old(nodes)|
      ensures forall k :: 0 <= k < |nodes| ==> nodes[k] == old(nodes[k]).(state := s)
    {
      for i := 0 to |nodes|
        invariant |nodes| == |old(nodes)|
        invariant forall k :: 0 <= k < |nodes| ==>
                    nodes[k] == if k < i then old(nodes[k]).(state := s) else old(nodes[k])
      {
        nodes := nodes[i := nodes[i].(state := s)];
      }
    }

    method SetNodeAddress(id: nat, address: string)
      requires Numbered(nodes)
      modifies this`nodes
      ensures nodes == if id < |old(nodes)| then old(nodes)[id := old(nodes)[id].(address := Some(address))]
                       else old(nodes)
    {
      var at := Find(nodes, id);
      if at.Some? {
        nodes := nodes[at.value := nodes[at.value].(address := Some(address))];
      }
    }
  }

  function InitialView(size: nat): View {
    View(Initializing, seq(size, k requires k >= 0 => Node(k, Pending, None, None)), None)
  }

  // ---------- runs ----------

  // One locked section of the orchestrator, with what the outside world answered before it.
  datatype Event =
    | AllSpawned(pids: seq<nat>)
    | NodeStarted(id: nat)
    | NodeReady(id: nat)
    | AddressOf(address: string)
    | MeshDone
    | StopRequested
    | Fault(message: string)

  // The view together with how far the orchestrator has come.
  datatype Harness = Harness(
    view: View,
    spawned: bool,
    started: set<nat>,
    ready: set<nat>,
    addressed: nat,
    connected: bool)

  predicate All(ids: set<nat>, size: nat) {
    forall k :: 0 <= k < size ==> k in ids
  }

  function Beginning(size: nat): Harness {
    Harness(InitialView(size), false, {}, {}, 0, false)
  }

  predicate Enabled(size: nat, h: Harness, e: Event) {
    && |h.view.nodes| == size
    && match e
       case AllSpawned(pids) => h.view.state.Initializing? && |pids| == size
       case NodeStarted(id) => h.view.state.Starting? && id < size && id !in h.started
       case NodeReady(id) => h.view.state.Starting? && All(h.started, size) && id < size && id !in h.ready
       case AddressOf(_) => h.view.state.Starting? && All(h.ready, size) && All(h.started, size) && h.addressed < size
       case MeshDone => h.view.state.Starting? && All(h.ready, size) && All(h.started, size) && h.addressed == size
       case StopRequested => h.view.state.Running?
       case Fault(_) => h.view.state.Initializing? || h.view.state.Starting? || h.view.state.Running?
  }

  // `channels` is false when channel management is disabled.
  function Apply(size: nat, channels: bool, h: Harness, e: Event): (r: Harness)
    requires Enabled(size, h, e)
    ensures |r.view.nodes| == size
  {
    var v := h.view;
    match e
    case AllSpawned(pids) =>
      h.(spawned := true,
         view := View(
           Starting,
           seq(size, k requires 0 <= k < size => v.nodes[k].(pid := Some(pids[k]), state := Spawned)),
           v.error))
    case NodeStarted(id) =>
      h.(started := h.started + {id}, view := v.(nodes := v.nodes[id := v.nodes[id].(state := Started)]))
    case NodeReady(id) =>
      h.(ready := h.ready + {id}, view := v.(nodes := v.nodes[id := v.nodes[id].(state := Ready)]))
    case AddressOf(address) =>
      var id := h.addressed;
      h.(addressed := id + 1, view := v.(nodes := v.nodes[id := v.nodes[id].(address := Some(address))]))
    case MeshDone =>
      var nodes :=
        if channels then seq(size, k requires 0 <= k < size => v.nodes[k].(state := ChannelsOpen)) else v.nodes;
      h.(connected := true, view := View(Running, nodes, v.error))
    case StopRequested => h.(view := v.(state := ShuttingDown))
    case Fault(message) => h.(view := v.(state := Failed, error := Some(message)))
  }

  ghost predicate IsRun(size: nat, channels: bool, hs: seq<Harness>, es: seq<Event>) {
    && |hs| == |es| + 1
    && hs[0] == Beginning(size)
    && (forall k :: 0 <= k < |es| ==> Enabled(size, hs[k], es[k]) && hs[k+1] == Apply(size, channels, hs[k], es[k]))
  }

  // ---------- what holds in every snapshot ----------

  function ExpectedState(h: Harness, channels: bool, k: nat): NodeState {
    if h.connected && channels then ChannelsOpen
    else if k in h.ready then Ready
    else if k in h.started then Started
    else if h.spawned then Spawned
    else Pending
  }

  ghost predicate NodeSound(h: Harness, channels: bool, k: nat)
    requires k < |h.view.nodes|
  {
    var node := h.view.nodes[k];
    && node.id == k
    && node.state == ExpectedState(h, channels, k)
    && (node.address.Some? <==> k < h.addressed)
    && (node.pid.Some? <==> h.spawned)
  }

  ghost predicate Sound(size: nat, channels: bool, h: Harness) {
    && |h.view.nodes| == size
    && (forall k :: 0 <= k < size ==> NodeSound(h, channels, k))
    && (h.started != {} ==> h.spawned)
    && (h.ready != {} ==> All(h.started, size))
    && (h.addressed > 0 ==> All(h.ready, size))
    && (h.connected ==> h.addressed == size && All(h.ready, size))
    && h.addressed <= size
    && (h.view.state.Initializing? ==> !h.spawned)
    && (h.view.state.Starting? ==> h.spawned && !h.connected)
    && (h.view.state.Running? || h.view.state.ShuttingDown? ==> h.spawned && h.connected)
    && (h.view.error.Some? <==> h.view.state.Failed?)
    && !h.view.state.NotRunning?
    && (!h.spawned ==> h.started == {} && h.ready == {} && h.addressed == 0 && !h.connected)
  }

  lemma StepKeepsSound(size: nat, channels: bool, h: Harness, e: Event)
    requires Sound(size, channels, h) && Enabled(size, h, e)
    ensures Sound(size, channels, Apply(size, channels, h, e))
  {
    var h' := Apply(size, channels, h, e);
    forall k | 0 <= k < size ensures NodeSound(h', channels, k) {
      assert NodeSound(h, channels, k);
    }
  }

  lemma {:induction false} RunIsSound(size: nat, channels: bool, hs: seq<Harness>, es: seq<Event>, k: nat)
    requires IsRun(size, channels, hs, es) && k < |hs|
    ensures Sound(size, channels, hs[k])
  {
    if k > 0 {
      RunIsSound(size, channels, hs, es, k - 1);
      StepKeepsSound(size, channels, hs[k-1], es[k-1]);
    }
  }

  /** The stop criterion: a reader that sees `Running` sees every node with its pid and address, and
      with its channels open unless channel management is disabled, when it is ready. */
  lemma RunningMeansReady(size: nat, channels: bool, hs: seq<Harness>, es: seq<Event>, i: nat, k: nat)
    requires IsRun(size, channels, hs, es) && i < |hs| && k < size
    requires hs[i].view.state.Running?
    ensures |hs[i].view.nodes| == size
    ensures var node := hs[i].view.nodes[k];
            && node.id == k
            && node.state == (if channels then ChannelsOpen else Ready)
            && node.address.Some? && node.pid.Some?
  {
    RunIsSound(size, channels, hs, es, i);
    assert NodeSound(hs[i], channels, k);
  }

  // ---------- progress ----------

  function Rank(s: NodeState): nat {
    match s
    case Pending => 0
    case Spawned => 1
    case Started => 2
    case Ready => 3
    case ChannelsOpen => 4
    case NodeFailed => 5
  }

  // How far the orchestrator has come only grows.
  lemma {:induction false} ProgressGrows(size: nat, channels: bool, hs: seq<Harness>, es: seq<Event>, i: nat, j: nat)
    requires IsRun(size, channels, hs, es) && i <= j < |hs|
    ensures hs[i].spawned ==> hs[j].spawned
    ensures hs[i].started <= hs[j].started && hs[i].ready <= hs[j].ready
    ensures hs[i].addressed <= hs[j].addressed
    ensures hs[i].connected ==> hs[j].connected
  {
    if i < j {
      ProgressGrows(size, channels, hs, es, i, j - 1);
      assert hs[j] == Apply(size, channels, hs[j-1], es[j-1]);
    }
  }

  // An address or pid, once shown, stays the same.
  lemma {:induction false} FieldsStay(
      size: nat, channels: bool, hs: seq<Harness>, es: seq<Event>, i: nat, j: nat, k: nat)
    requires IsRun(size, channels, hs, es) && i <= j < |hs| && k < size
    ensures |hs[i].view.nodes| == |hs[j].view.nodes| == size
    ensures var a, b := hs[i].view.nodes[k], hs[j].view.nodes[k];
            (a.address.Some? ==> b.address == a.address) && (a.pid.Some? ==> b.pid == a.pid)
  {
    RunIsSound(size, channels, hs, es, i);
    if i < j {
      FieldsStay(size, channels, hs, es, i, j - 1, k);
      RunIsSound(size, channels, hs, es, j - 1);
      assert NodeSound(hs[j-1], channels, k);
      assert Enabled(size, hs[j-1], es[j-1]) && hs[j] == Apply(size, channels, hs[j-1], es[j-1]);
    }
  }

  /** No node's state ever goes back, whatever order the readiness checks finish in, and no node is
      ever shown as failed; addresses and pids stay as first shown. */
  lemma NodesNeverRegress(size: nat, channels: bool, hs: seq<Harness>, es: seq<Event>, i: nat, j: nat, k: nat)
    requires IsRun(size, channels, hs, es) && i <= j < |hs| && k < size
    ensures |hs[i].view.nodes| == |hs[j].view.nodes| == size
    ensures var a, b := hs[i].view.nodes[k], hs[j].view.nodes[k];
            && Rank(a.state) <= Rank(b.state) <= 4
            && (a.state != Pending ==> b.state != Pending)
            && (a.state in {Started, Ready, ChannelsOpen} ==> b.state in {Started, Ready, ChannelsOpen})
            && (a.state in {Ready, ChannelsOpen} ==> b.state in {Ready, ChannelsOpen})
            && (a.state == ChannelsOpen ==> b.state == ChannelsOpen)
            && b.state != NodeFailed
            && (a.address.Some? ==> b.address == a.address)
            && (a.pid.Some? ==> b.pid == a.pid)
  {
    RunIsSound(size, channels, hs, es, i);
    RunIsSound(size, channels, hs, es, j);
    ProgressGrows(size, channels, hs, es, i, j);
    FieldsStay(size, channels, hs, es, i, j, k);
    assert NodeSound(hs[i], channels, k) && NodeSound(hs[j], channels, k);
  }

  /** Between consecutive readings the cluster stays in its state or makes one of these moves; the
      nodes of a failed or stopping cluster are shown as they last were. */
  lemma ClusterMovesForward(size: nat, channels: bool, hs: seq<Harness>, es: seq<Event>, i: nat)
    requires IsRun(size, channels, hs, es) && i + 1 < |hs|
    ensures var a, b := hs[i].view, hs[i+1].view;
            && ( || a.state == b.state == Starting
                 || (a.state, b.state) in {(Initializing, Starting), (Starting, Running), (Running, ShuttingDown),
                                           (Initializing, Failed), (Starting, Failed), (Running, Failed)})
            && (b.state.Failed? || b.state.ShuttingDown? ==> b.nodes == a.nodes)
            && (b.error.Some? <==> b.state.Failed?)
  {
    RunIsSound(size, channels, hs, es, i + 1);
    assert Enabled(size, hs[i], es[i]) && hs[i+1] == Apply(size, channels, hs[i], es[i]);
  }

  lemma RunGrows(size: nat, channels: bool, hs: seq<Harness>, es: seq<Event>, e: Event)
    requires IsRun(size, channels, hs, es) && Enabled(size, hs[|es|], e)
    ensures IsRun(size, channels, hs + [Apply(size, channels, hs[|es|], e)], es + [e])
  {
  }

  /** An address appears only once every node is ready; so whenever a node first shows as ready, its
      address is still unknown. */
  lemma AddressesComeAfterAllAreReady(
      size: nat, channels: bool, hs: seq<Harness>, es: seq<Event>, i: nat, k: nat)
    requires IsRun(size, channels, hs, es) && i < |hs| && k < size
    ensures |hs[i].view.nodes| == size
    ensures hs[i].view.nodes[k].address.Some? ==>
              forall m | 0 <= m < size :: hs[i].view.nodes[m].state in {Ready, ChannelsOpen}
    ensures i < |es| && es[i] == NodeReady(k) ==>
              && |hs[i+1].view.nodes| == size
              && hs[i+1].view.nodes[k].state == Ready && hs[i+1].view.nodes[k].address.None?
  {
    RunIsSound(size, channels, hs, es, i);
    assert NodeSound(hs[i], channels, k);
    forall m | 0 <= m < size && k < hs[i].addressed ensures hs[i].view.nodes[m].state in {Ready, ChannelsOpen} {
      assert NodeSound(hs[i], channels, m);
    }
    if i < |es| && es[i] == NodeReady(k) {
      assert Enabled(size, hs[i], es[i]) && hs[i+1] == Apply(size, channels, hs[i], es[i]);
    }
  }

  // ---------- when a node's address is shown ----------

  // The addresses fetched so far, in order.
  function Answers(es: seq<Event>): seq<string> {
    if es == [] then []
    else
      var last := es[|es|-1];
      Answers(es[..|es|-1]) + if last.AddressOf? then [last.address] else []
  }

  /** In every reading a node shows exactly the address fetched in its turn, if it was fetched yet. */
  lemma {:induction false} AddressShownIs(
      size: nat, channels: bool, hs: seq<Harness>, es: seq<Event>, i: nat, k: nat)
    requires IsRun(size, channels, hs, es) && i < |hs| && k < size
    ensures |hs[i].view.nodes| == size && hs[i].addressed == |Answers(es[..i])|
    ensures hs[i].view.nodes[k].address
         == if k < |Answers(es[..i])| then Some(Answers(es[..i])[k]) else None
  {
    if i > 0 {
      AddressShownIs(size, channels, hs, es, i - 1, k);
      assert Enabled(size, hs[i-1], es[i-1]) && hs[i] == Apply(size, channels, hs[i-1], es[i-1]);
      assert es[..i][..i-1] == es[..i-1];
    }
  }

  lemma {:induction false} AnswersJoin(a: seq<Event>, b: seq<Event>)
    ensures Answers(a + b) == Answers(a) + Answers(b)
  {
    if b == [] {
      assert a + b == a;
    } else {
      assert (a + b)[..|a+b|-1] == a + b[..|b|-1];
      AnswersJoin(a, b[..|b|-1]);
    }
  }

  lemma {:induction false} NoAnswers(es: seq<Event>)
    requires forall i | 0 <= i < |es| :: !es[i].AddressOf?
    ensures Answers(es) == []
  {
    if es != [] {
      NoAnswers(es[..|es|-1]);
    }
  }

  /** In every reading after the spawn, and in no other, a node shows the pid its process was spawned with. */
  lemma {:induction false} PidShownIs(
      size: nat, channels: bool, hs: seq<Harness>, es: seq<Event>, i: nat, k: nat)
    requires IsRun(size, channels, hs, es) && i < |hs| && k < size
    ensures |hs[i].view.nodes| == size
    ensures hs[i].view.nodes[k].pid
         == if i > 0 && es[0].AllSpawned? && k < |es[0].pids| then Some(es[0].pids[k]) else None
  {
    RunIsSound(size, channels, hs, es, i);
    if i > 0 {
      PidShownIs(size, channels, hs, es, i - 1, k);
      RunIsSound(size, channels, hs, es, i - 1);
      assert Enabled(size, hs[0], es[0]);
      assert Enabled(size, hs[i-1], es[i-1]) && hs[i] == Apply(size, channels, hs[i-1], es[i-1]);
      if i > 1 && es[i-1].AllSpawned? {
        NotInitializingLater(size, channels, hs, es, i - 1);
      }
    }
  }

  // The first section ends the first state.
  lemma {:induction false} NotInitializingLater(size: nat, channels: bool, hs: seq<Harness>, es: seq<Event>, i: nat)
    requires IsRun(size, channels, hs, es) && 0 < i < |hs|
    ensures !hs[i].view.state.Initializing?
  {
    if i > 1 {
      NotInitializingLater(size, channels, hs, es, i - 1);
    }
    assert Enabled(size, hs[i-1], es[i-1]) && hs[i] == Apply(size, channels, hs[i-1], es[i-1]);
  }

  // Whoever is shown as ready has its address.
  ghost predicate ReadyHaveAddresses(v: View) {
    forall k :: 0 <= k < |v.nodes| && Rank(v.nodes[k].state) >= Rank(Ready) ==> v.nodes[k].address.Some?
  }

  // The counters behind a snapshot, seen from its nodes.
  lemma SnapshotIs(size: nat, channels: bool, h: Harness)
    requires Sound(size, channels, h)
    ensures forall k | 0 <= k < size :: h.view.nodes[k].address.Some? <==> k < h.addressed
    ensures forall k | 0 <= k < size ::
              Rank(h.view.nodes[k].state) >= Rank(Ready) <==> k in h.ready || (h.connected && channels)
  {
    forall k | 0 <= k < size
      ensures h.view.nodes[k].address.Some? <==> k < h.addressed
      ensures Rank(h.view.nodes[k].state) >= Rank(Ready) <==> k in h.ready || (h.connected && channels)
    {
      assert NodeSound(h, channels, k);
    }
  }

  /** In a reading all nodes shown as ready or later have addresses exactly when none is ready yet or
      all addresses were fetched. */
  lemma ReadyHaveAddressesIff(size: nat, channels: bool, hs: seq<Harness>, es: seq<Event>, i: nat)
    requires IsRun(size, channels, hs, es) && i < |hs|
    ensures |hs[i].view.nodes| == size
    ensures ReadyHaveAddresses(hs[i].view)
            <==> (|Answers(es[..i])| == size
                  || forall k :: 0 <= k < size ==> Rank(hs[i].view.nodes[k].state) < Rank(Ready))
  {
    var h := hs[i];
    RunIsSound(size, channels, hs, es, i);
    if size > 0 {
      AddressShownIs(size, channels, hs, es, i, 0);
    }
    SnapshotIs(size, channels, h);
    if ReadyHaveAddresses(h.view) && exists k :: 0 <= k < size && Rank(h.view.nodes[k].state) >= Rank(Ready) {
      var k :| 0 <= k < size && Rank(h.view.nodes[k].state) >= Rank(Ready);
      assert k < h.addressed;
      assert Rank(h.view.nodes[size-1].state) >= Rank(Ready);
    }
  }

  // Every node spawned and the first `n` started.
  lemma {:induction false} StartedUpTo(size: nat, channels: bool, n: nat) returns (hs: seq<Harness>, es: seq<Event>)
    requires n <= size
    ensures IsRun(size, channels, hs, es) && |hs[|es|].view.nodes| == size
    ensures hs[|es|].view.state == Starting && hs[|es|].ready == {}
    ensures All(hs[|es|].started, n) && forall k | k in hs[|es|].started :: k < n
  {
    if n == 0 {
      var e := AllSpawned(seq(size, _ => 0));
      RunGrows(size, channels, [Beginning(size)], [], e);
      hs, es := [Beginning(size)] + [Apply(size, channels, Beginning(size), e)], [] + [e];
    } else {
      hs, es := StartedUpTo(size, channels, n - 1);
      RunGrows(size, channels, hs, es, NodeStarted(n - 1));
      hs, es := hs + [Apply(size, channels, hs[|es|], NodeStarted(n - 1))], es + [NodeStarted(n - 1)];
    }
  }

  // A ready node without an address is shown by a starting cluster, and by one that fails then.
  lemma ReadyWithoutAddress(size: nat, channels: bool, s: ClusterState) returns (hs: seq<Harness>, es: seq<Event>)
    requires size > 0 && s in {Starting, Failed}
    ensures IsRun(size, channels, hs, es) && hs[|es|].view.state == s && !ReadyHaveAddresses(hs[|es|].view)
  {
    hs, es := StartedUpTo(size, channels, size);
    RunGrows(size, channels, hs, es, NodeReady(0));
    hs, es := hs + [Apply(size, channels, hs[|es|], NodeReady(0))], es + [NodeReady(0)];
    AddressesComeAfterAllAreReady(size, channels, hs, es, |es| - 1, 0);
    if s == Failed {
      RunGrows(size, channels, hs, es, Fault("stopped"));
      hs, es := hs + [Apply(size, channels, hs[|es|], Fault("stopped"))], es + [Fault("stopped")];
    }
    assert Rank(hs[|es|].view.nodes[0].state) >= Rank(Ready);
  }

  /** The cluster states a reader can rely on: only while the cluster is starting, or after it failed,
      can a ready node be shown without its address. */
  lemma ReadyHaveAddressesInState(size: nat, channels: bool, s: ClusterState)
    requires size > 0
    ensures (forall hs: seq<Harness>, es: seq<Event>, i: nat ::
               IsRun(size, channels, hs, es) && i < |hs| && hs[i].view.state == s ==> ReadyHaveAddresses(hs[i].view))
            <==> s !in {Starting, Failed}
  {
    if s in {Starting, Failed} {
      var hs, es := ReadyWithoutAddress(size, channels, s);
    } else {
      forall hs: seq<Harness>, es: seq<Event>, i: nat
        | IsRun(size, channels, hs, es) && i < |hs| && hs[i].view.state == s
        ensures ReadyHaveAddresses(hs[i].view)
      {
        RunIsSound(size, channels, hs, es, i);
        SnapshotIs(size, channels, hs[i]);
      }
    }
  }

  // ---------- the orchestrator ----------

  // The nodes whose check passes, in the order they finish; if any fails, those before it.
  datatype Wave = Wave(order: seq<nat>, fails: bool)

  // Everything the outside world decides about one run.
  datatype Script = Script(
    setup: bool,              // chain, identities, relays and processes come up
    pids: seq<nat>,
    started: Wave,
    ready: Wave,
    addresses: seq<string>,   // as far as they can be fetched
    mesh: bool,
    signal: bool,             // waiting for Ctrl+C does not itself fail
    message: string)          // of the first failure

  ghost predicate WaveOver(w: Wave, size: nat) {
    && (forall i :: 0 <= i < |w.order| ==> w.order[i] < size)
    && (forall i, j :: 0 <= i < j < |w.order| ==> w.order[i] != w.order[j])
    && (w.fails <==> !forall k :: 0 <= k < size ==> k in w.order)
  }

  ghost predicate Possible(s: Script, size: nat) {
    && |s.pids| == size && WaveOver(s.started, size) && WaveOver(s.ready, size) && |s.addresses| <= size
  }

  ghost predicate ComesUp(s: Script, size: nat, channels: bool) {
    s.setup && !s.started.fails && !s.ready.fails && |s.addresses| == size && (channels ==> s.mesh)
  }

  function Passed(reached: NodeState, id: nat): Event {
    if reached == Started then NodeStarted(id) else NodeReady(id)
  }

  function WaveEvents(reached: NodeState, order: seq<nat>): (r: seq<Event>)
    ensures |r| == |order| && forall i | 0 <= i < |order| :: r[i] == Passed(reached, order[i])
  {
    seq(|order|, i requires 0 <= i < |order| => Passed(reached, order[i]))
  }

  lemma WaveGrows(reached: NodeState, order: seq<nat>, i: nat)
    requires i < |order|
    ensures WaveEvents(reached, order[..i+1]) == WaveEvents(reached, order[..i]) + [Passed(reached, order[i])]
  {
  }

  function AddressEvents(addresses: seq<string>): (r: seq<Event>)
    ensures |r| == |addresses| && forall i | 0 <= i < |addresses| :: r[i] == AddressOf(addresses[i])
  {
    seq(|addresses|, i requires 0 <= i < |addresses| => AddressOf(addresses[i]))
  }

  lemma {:induction false} AnswersAre(addresses: seq<string>)
    ensures Answers(AddressEvents(addresses)) == addresses
  {
    if addresses != [] {
      var init := addresses[..|addresses|-1];
      AnswersAre(init);
      assert AddressEvents(addresses)[..|addresses|-1] == AddressEvents(init);
      assert init + [addresses[|addresses|-1]] == addresses;
    }
  }

  // What the orchestrator has shown so far.
  ghost predicate Shown(size: nat, channels: bool, summary: ClusterSummary, hs: seq<Harness>, es: seq<Event>)
    reads summary
  {
    && IsRun(size, channels, hs, es)
    && hs[|es|].view == summary.Seen()
    && Numbered(summary.nodes) && |summary.nodes| == size
  }

  ghost predicate NotYetRunning(hs: seq<Harness>) {
    forall k :: 0 <= k < |hs| ==> !hs[k].view.state.Running?
  }

  // The sections of the start that the script leads to: up to the first failure, what the nodes answered,
  // in the order they answered it.
  ghost function Told(s: Script, size: nat, channels: bool): seq<Event> {
    if !s.setup then []
    else if s.started.fails then Start(s)
    else if s.ready.fails then Start(s) + WaveEvents(Ready, s.ready.order)
    else
      Start(s) + WaveEvents(Ready, s.ready.order) + AddressEvents(s.addresses)
      + if ComesUp(s, size, channels) then [MeshDone] else []
  }

  function Start(s: Script): seq<Event> {
    [AllSpawned(s.pids)] + WaveEvents(Started, s.started.order)
  }

  lemma StartHasNoAnswers(s: Script)
    ensures Answers(Start(s)) == [] && Answers(Start(s) + WaveEvents(Ready, s.ready.order)) == []
  {
    NoAnswers(Start(s));
    NoAnswers(Start(s) + WaveEvents(Ready, s.ready.order));
  }

  // Answers, with events around them that answer nothing.
  lemma AnswersWithin(start: seq<Event>, addresses: seq<string>, end: seq<Event>)
    requires Answers(start) == [] && Answers(end) == []
    ensures Answers(start + AddressEvents(addresses) + end) == addresses
  {
    AnswersAre(addresses);
    AnswersJoin(start, AddressEvents(addresses));
    AnswersJoin(start + AddressEvents(addresses), end);
  }

  lemma ToldAnswers(s: Script, size: nat, channels: bool, last: Event)
    requires !last.AddressOf?
    ensures Answers(Told(s, size, channels) + [last])
         == if s.setup && !s.started.fails && !s.ready.fails then s.addresses else []
  {
    AnswersJoin(Told(s, size, channels), [last]);
    NoAnswers([last]);
    StartHasNoAnswers(s);
    if s.setup && !s.started.fails && !s.ready.fails {
      var end := if ComesUp(s, size, channels) then [MeshDone] else [];
      NoAnswers(end);
      AnswersWithin(Start(s) + WaveEvents(Ready, s.ready.order), s.addresses, end);
    }
  }

  lemma PrefixAnswers(es: seq<Event>, i: nat)
    requires i <= |es|
    ensures Answers(es[..i]) <= Answers(es)
  {
    assert es[..i] + es[i..] == es;
    AnswersJoin(es[..i], es[i..]);
    var first, others := Answers(es[..i]), Answers(es[i..]);
    assert first <= first + others;
  }

  lemma FirstTold(s: Script, size: nat, channels: bool, last: Event)
    requires last.StopRequested? || last.Fault?
    ensures (Told(s, size, channels) + [last])[0] == if s.setup then AllSpawned(s.pids) else last
  {
  }

  lemma AddressIsItsOwn(
      size: nat, channels: bool, addresses: seq<string>, hs: seq<Harness>, es: seq<Event>, i: nat, k: nat)
    requires IsRun(size, channels, hs, es) && Answers(es) <= addresses && i < |hs| && k < size
    ensures |hs[i].view.nodes| == size
    ensures hs[i].view.nodes[k].address.Some? ==>
              k < |addresses| && hs[i].view.nodes[k].address == Some(addresses[k])
    ensures i == |es| && k < |Answers(es)| ==> hs[i].view.nodes[k].address.Some?
  {
    AddressShownIs(size, channels, hs, es, i, k);
    PrefixAnswers(es, i);
    assert i == |es| ==> es[..i] == es;
  }

  // A reading agrees with the processes and with what each node answered itself.
  ghost predicate ShowsTheTruth(v: View, spawned: bool, pids: seq<nat>, addresses: seq<string>) {
    && |v.nodes| == |pids|
    && forall k :: 0 <= k < |pids| ==>
         && v.nodes[k].pid == (if spawned then Some(pids[k]) else None)
         && (v.nodes[k].address.Some? ==> k < |addresses| && v.nodes[k].address == Some(addresses[k]))
  }

  lemma ReadingIsTrue(
      size: nat, channels: bool, setup: bool, pids: seq<nat>, addresses: seq<string>,
      hs: seq<Harness>, es: seq<Event>, i: nat)
    requires IsRun(size, channels, hs, es) && Answers(es) <= addresses && |pids| == size && es != []
    requires if setup then es[0] == AllSpawned(pids) else !es[0].AllSpawned?
    requires i < |hs|
    ensures ShowsTheTruth(hs[i].view, i > 0 && setup, pids, addresses)
  {
    RunIsSound(size, channels, hs, es, i);
    forall k | 0 <= k < size
      ensures hs[i].view.nodes[k].pid == if i > 0 && setup then Some(pids[k]) else None
      ensures hs[i].view.nodes[k].address.Some? ==>
                k < |addresses| && hs[i].view.nodes[k].address == Some(addresses[k])
    {
      PidShownIs(size, channels, hs, es, i, k);
      AddressIsItsOwn(size, channels, addresses, hs, es, i, k);
    }
  }

  /** What readers see of a node is its own: in every reading its pid is the one its process has, and its
      address the one it answered. */
  lemma ReadingsAreTrue(size: nat, channels: bool, s: Script, hs: seq<Harness>, es: seq<Event>, last: Event)
    requires IsRun(size, channels, hs, es) && Possible(s, size)
    requires es == Told(s, size, channels) + [last] && (last.StopRequested? || last.Fault?)
    ensures Answers(es) <= s.addresses && (ComesUp(s, size, channels) ==> Answers(es) == s.addresses)
    ensures forall i | 0 <= i < |hs| :: ShowsTheTruth(hs[i].view, i > 0 && s.setup, s.pids, s.addresses)
  {
    ToldAnswers(s, size, channels, last);
    FirstTold(s, size, channels, last);
    forall i | 0 <= i < |hs| ensures ShowsTheTruth(hs[i].view, i > 0 && s.setup, s.pids, s.addresses) {
      ReadingIsTrue(size, channels, s.setup, s.pids, s.addresses, hs, es, i);
    }
  }

  lemma EveryAddressIsShown(size: nat, channels: bool, addresses: seq<string>, hs: seq<Harness>, es: seq<Event>)
    requires IsRun(size, channels, hs, es) && Answers(es) == addresses && |addresses| == size
    ensures |hs[|es|].view.nodes| == size
    ensures forall k | 0 <= k < size :: hs[|es|].view.nodes[k].address == Some(addresses[k])
  {
    RunIsSound(size, channels, hs, es, |es|);
    forall k | 0 <= k < size ensures hs[|es|].view.nodes[k].address == Some(addresses[k]) {
      AddressIsItsOwn(size, channels, addresses, hs, es, |es|, k);
    }
  }

  /** Marks each node as its check passes, in whatever order they finish; stops at the first failure. */
  method WaitNodes(summary: ClusterSummary, size: nat, w: Wave, reached: NodeState, ghost channels: bool,
                   ghost hs0: seq<Harness>, ghost es0: seq<Event>)
    returns (ok: bool, ghost hs: seq<Harness>, ghost es: seq<Event>)
    requires WaveOver(w, size) && reached in {Started, Ready}
    requires Shown(size, channels, summary, hs0, es0) && summary.state == Starting && NotYetRunning(hs0)
    requires reached == Started ==> hs0[|es0|].started == {} && hs0[|es0|].ready == {}
    requires reached == Ready ==> hs0[|es0|].ready == {} && All(hs0[|es0|].started, size)
    modifies summary`nodes
    ensures ok <==> !w.fails
    ensures Shown(size, channels, summary, hs, es) && NotYetRunning(hs)
    ensures var h, h0 := hs[|es|], hs0[|es0|];
            && h.addressed == h0.addressed
            && (reached == Started ==> h.ready == {} && (ok ==> All(h.started, size)))
            && (reached == Ready ==> h.started == h0.started && (ok ==> All(h.ready, size)))
    ensures es == es0 + WaveEvents(reached, w.order)
  {
    hs, es := hs0, es0;
    for i := 0 to |w.order|
      invariant Shown(size, channels, summary, hs, es) && NotYetRunning(hs)
      invariant var h, h0 := hs[|es|], hs0[|es0|];
                && h.addressed == h0.addressed
                && (reached == Started ==> h.ready == {} && h.started == set k | k in w.order[..i])
                && (reached == Ready ==> h.started == h0.started && h.ready == set k | k in w.order[..i])
      invariant es == es0 + WaveEvents(reached, w.order[..i])
    {
      var id := w.order[i];
      assert w.order[..i+1] == w.order[..i] + [id];
      ghost var e := Passed(reached, id);
      WaveGrows(reached, w.order, i);
      assert es0 + WaveEvents(reached, w.order[..i]) + [e] == es0 + (WaveEvents(reached, w.order[..i]) + [e]);
      RunGrows(size, channels, hs, es, e);
      hs, es := hs + [Apply(size, channels, hs[|es|], e)], es + [e];
      summary.SetNodeState(id, reached);
    }
    assert w.order[..|w.order|] == w.order;
    ok := !w.fails;
  }

  /** The whole life of the orchestrator. What readers could see is a run; it shows `Running` exactly
      when everything comes up, and ends in `ShuttingDown` or, with the failure, in `Failed`. */
  method Orchestrate(size: nat, channels: bool, s: Script)
    returns (summary: ClusterSummary, ghost hs: seq<Harness>, ghost es: seq<Event>)
    requires Possible(s, size)
    ensures fresh(summary) && Shown(size, channels, summary, hs, es)
    ensures (exists k :: 0 <= k < |hs| && hs[k].view.state.Running?)
            <==> s.setup && !s.started.fails && !s.ready.fails && |s.addresses| == size && (channels ==> s.mesh)
    ensures ComesUp(s, size, channels) && s.signal ==> summary.state == ShuttingDown && summary.error == None
    ensures !(ComesUp(s, size, channels) && s.signal) ==> summary.state == Failed && summary.error == Some(s.message)
    ensures es == Told(s, size, channels)
                  + [if ComesUp(s, size, channels) && s.signal then StopRequested else Fault(s.message)]
    ensures Answers(es) <= s.addresses
    ensures forall i | 0 <= i < |hs| :: ShowsTheTruth(hs[i].view, i > 0 && s.setup, s.pids, s.addresses)
    ensures ComesUp(s, size, channels) ==>
              forall k | 0 <= k < size ::
                summary.nodes[k].address == Some(s.addresses[k]) && summary.nodes[k].pid == Some(s.pids[k])
  {
    summary := new ClusterSummary(size);
    var ok;
    ok, hs, es := BringUp(summary, size, channels, s);
    hs, es := Finish(summary, size, channels, ok && s.signal, s.message, hs, es);
    ReadingsAreTrue(size, channels, s, hs, es, es[|es|-1]);
    if ComesUp(s, size, channels) {
      EveryAddressIsShown(size, channels, s.addresses, hs, es);
    }
  }

  // The last section: a stop that was asked for, or the failure.
  method Finish(summary: ClusterSummary, size: nat, ghost channels: bool, stopped: bool, message: string,
                ghost hs0: seq<Harness>, ghost es0: seq<Event>)
    returns (ghost hs: seq<Harness>, ghost es: seq<Event>)
    requires Shown(size, channels, summary, hs0, es0)
    requires summary.state in {Initializing, Starting, Running} && (stopped ==> summary.state == Running)
    modifies summary
    ensures Shown(size, channels, summary, hs, es)
    ensures es == es0 + [if stopped then StopRequested else Fault(message)] && hs0 <= hs && |hs| == |hs0| + 1
    ensures summary.nodes == old(summary.nodes)
    ensures stopped ==> summary.state == ShuttingDown && summary.error == old(summary.error)
    ensures !stopped ==> summary.state == Failed && summary.error == Some(message)
  {
    ghost var e := if stopped then StopRequested else Fault(message);
    RunGrows(size, channels, hs0, es0, e);
    hs, es := hs0 + [Apply(size, channels, hs0[|es0|], e)], es0 + [e];
    if stopped {
      summary.state := ShuttingDown;
    } else {
      summary.state := Failed;
      summary.error := Some(message);
    }
  }

  // Everything before the nodes are asked whether they have started.
  method SpawnAll(summary: ClusterSummary, size: nat, ghost channels: bool, pids: seq<nat>)
    returns (ghost hs: seq<Harness>, ghost es: seq<Event>)
    requires |pids| == size && summary.Seen() == InitialView(size)
    modifies summary
    ensures Shown(size, channels, summary, hs, es) && NotYetRunning(hs)
    ensures summary.state == Starting && summary.error == None
    ensures var h := hs[|es|]; h.started == {} && h.ready == {} && h.addressed == 0
    ensures es == [AllSpawned(pids)]
  {
    hs, es := [Beginning(size)], [];
    var procs := seq(size, k requires 0 <= k < size => (k, pids[k]));
    summary.MarkSpawned(procs);
    summary.state := Starting;
    ghost var e := AllSpawned(pids);
    RunGrows(size, channels, hs, es, e);
    hs, es := hs + [Apply(size, channels, hs[|es|], e)], es + [e];
    forall k | 0 <= k < size ensures summary.nodes[k] == hs[|es|].view.nodes[k] {
      assert procs[k] in procs && procs[k].0 == k;
    }
  }

  // Asks each node in turn for its address, as far as they answer.
  method FetchAddresses(summary: ClusterSummary, size: nat, ghost channels: bool, addresses: seq<string>,
                        ghost hs0: seq<Harness>, ghost es0: seq<Event>)
    returns (ghost hs: seq<Harness>, ghost es: seq<Event>)
    requires |addresses| <= size
    requires Shown(size, channels, summary, hs0, es0) && summary.state == Starting && NotYetRunning(hs0)
    requires var h := hs0[|es0|]; h.addressed == 0 && All(h.started, size) && All(h.ready, size)
    modifies summary`nodes
    ensures Shown(size, channels, summary, hs, es) && NotYetRunning(hs)
    ensures var h := hs[|es|]; h.addressed == |addresses| && All(h.started, size) && All(h.ready, size)
    ensures es == es0 + AddressEvents(addresses)
  {
    hs, es := hs0, es0;
    for id := 0 to |addresses|
      invariant Shown(size, channels, summary, hs, es) && NotYetRunning(hs)
      invariant var h := hs[|es|]; h.addressed == id && All(h.started, size) && All(h.ready, size)
      invariant |es| == |es0| + id && es0 <= es
      invariant forall j | 0 <= j < id :: es[|es0| + j] == AddressOf(addresses[j])
    {
      ghost var e := AddressOf(addresses[id]);
      RunGrows(size, channels, hs, es, e);
      hs, es := hs + [Apply(size, channels, hs[|es|], e)], es + [e];
      summary.SetNodeAddress(id, addresses[id]);
    }
    assert es == es0 + AddressEvents(addresses);
  }

  // The last section of the start: open channels are shown together with `Running`.
  method ShowRunning(summary: ClusterSummary, size: nat, channels: bool, ghost hs0: seq<Harness>, ghost es0: seq<Event>)
    returns (ghost hs: seq<Harness>, ghost es: seq<Event>)
    requires Shown(size, channels, summary, hs0, es0) && Enabled(size, hs0[|es0|], MeshDone)
    modifies summary`nodes, summary`state
    ensures Shown(size, channels, summary, hs, es)
    ensures summary.state == Running && es == es0 + [MeshDone]
  {
    ghost var e := MeshDone;
    RunGrows(size, channels, hs0, es0, e);
    hs, es := hs0 + [Apply(size, channels, hs0[|es0|], e)], es0 + [e];
    if channels {
      summary.SetAllNodeStates(ChannelsOpen);
    }
    summary.state := Running;
    assert summary.nodes == hs[|es|].view.nodes;
  }

  // The start, up to `Running` or the first failure.
  method BringUp(summary: ClusterSummary, size: nat, channels: bool, s: Script)
    returns (ok: bool, ghost hs: seq<Harness>, ghost es: seq<Event>)
    requires Possible(s, size) && summary.Seen() == InitialView(size)
    modifies summary
    ensures Shown(size, channels, summary, hs, es)
    ensures ok <==> ComesUp(s, size, channels)
    ensures ok ==> summary.error == None && summary.state == Running
    ensures !ok ==> summary.state in {Initializing, Starting} && NotYetRunning(hs)
    ensures es == Told(s, size, channels)
  {
    if !s.setup {
      return false, [Beginning(size)], [];
    }
    hs, es := SpawnAll(summary, size, channels, s.pids);
    ok, hs, es := WaitNodes(summary, size, s.started, Started, channels, hs, es);
    if !ok {
      return false, hs, es;
    }
    ok, hs, es := WaitNodes(summary, size, s.ready, Ready, channels, hs, es);
    if !ok {
      return false, hs, es;
    }
    hs, es := FetchAddresses(summary, size, channels, s.addresses, hs, es);
    if |s.addresses| < size || (channels && !s.mesh) {
      return false, hs, es;
    }
    hs, es := ShowRunning(summary, size, channels, hs, es);
    return true, hs, es;
  }
}
