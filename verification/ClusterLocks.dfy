/**
 Admission of competing harness instances: each takes an exclusive lock on its control base, then
 on the canonical data directory, and only then may reset node state. Any number of instances start,
 write their pid, are refused, run, crash and drop their locks in any interleaving.

 The file system is fixed during a run: `canon` resolves a path and `inode` names the file it opens,
 so symbolic and hard links are included.
 */
module ClusterLocks {
  import opened Wrappers

  type Path = string
  type Inode = nat

  // What one instance was started with; `dataDir` is canonical.
  datatype Setup = Setup(controlBase: Path, dataDir: Path, pid: nat)

  datatype World = World(canon: Path -> Path, inode: Path -> Inode, setups: seq<Setup>)

  // A lock file: who holds its lock and the pid it contains, if it reads as one.
  datatype LockFile = LockFile(holder: Option<nat>, text: Option<nat>)

  datatype Phase =
    | Waiting
    | Writing(data: bool, emptied: bool)   // has the control (or data) lock, rewriting its pid
    | Checking                             // has the control lock, about to look at the data lock
    | Refused(file: Inode)
    | Running
    | Leaving                              // failing, exiting or crashed; locks go one by one

  // `wrote` are the files into which the instance has put its pid.
  datatype Instance = Instance(phase: Phase, wrote: set<Inode>)

  datatype State = State(files: map<Inode, LockFile>, instances: seq<Instance>)

  datatype Step =
    | TryControl(i: nat)
    | Empty(i: nat, ok: bool)
    | WritePid(i: nat, ok: bool)
    | CheckData(i: nat)
    | ReadHint(i: nat)
    | Reset(i: nat)
    | Leave(i: nat)
    | Drop(i: nat, file: Inode)

  // ---------- paths ----------

  function PathFor(base: Path): Path {
    base + ".lock"
  }

  function Join(dir: Path, name: Path): Path {
    if |dir| > 0 && dir[|dir| - 1] == '/' then dir + name else dir + "/" + name
  }

  function ControlPath(w: World, i: nat): Path
    requires i < |w.setups|
  {
    PathFor(w.setups[i].controlBase)
  }

  function DataPath(w: World, i: nat): Path
    requires i < |w.setups|
  {
    Join(w.setups[i].dataDir, "data.lock")
  }

  /** The lock taken for the base `<dir>/data` is the file `<dir>/data.lock`. */
  lemma DataLockPath(dir: Path)
    ensures PathFor(Join(dir, "data")) == Join(dir, "data.lock")
  {
    assert "data" + ".lock" == "data.lock";
    var sep := if |dir| > 0 && dir[|dir| - 1] == '/' then "" else "/";
    assert dir + sep + "data" + ".lock" == dir + sep + ("data" + ".lock");
    assert dir + "" == dir;
  }

  function ControlFile(w: World, i: nat): Inode
    requires i < |w.setups|
  {
    w.inode(ControlPath(w, i))
  }

  function DataFile(w: World, i: nat): Inode
    requires i < |w.setups|
  {
    w.inode(DataPath(w, i))
  }

  // The control lock resolves to the data lock's own path, so one lock serves as both.
  predicate OneLock(w: World, i: nat)
    requires i < |w.setups|
  {
    w.canon(ControlPath(w, i)) == DataPath(w, i)
  }

  // The two lock paths are told apart although they open the same file.
  predicate Aliased(w: World, i: nat)
    requires i < |w.setups|
  {
    ControlFile(w, i) == DataFile(w, i) && !OneLock(w, i)
  }

  // Resolving a path does not change which file it opens.
  ghost predicate Resolves(w: World) {
    forall p: Path {:trigger w.canon(p)} :: w.inode(w.canon(p)) == w.inode(p)
  }

  // ---------- steps ----------

  function At(files: map<Inode, LockFile>, f: Inode): LockFile {
    if f in files then files[f] else LockFile(None, None)
  }

  function Held(s: State, f: Inode): Option<nat> {
    At(s.files, f).holder
  }

  function Moved(s: State, i: nat, phase: Phase): State
    requires i < |s.instances|
  {
    s.(instances := s.instances[i := s.instances[i].(phase := phase)])
  }

  // The non-blocking exclusive lock.
  function TryLock(s: State, i: nat, f: Inode, data: bool): State
    requires i < |s.instances|
  {
    if Held(s, f).None? then
      Moved(s, i, Writing(data, false)).(files := s.files[f := At(s.files, f).(holder := Some(i))])
    else Moved(s, i, Refused(f))
  }

  // A failed rewrite of the pid is only a warning.
  function Settled(data: bool): Phase {
    if data then Running else Checking
  }

  function Target(w: World, i: nat, data: bool): Inode
    requires i < |w.setups|
  {
    if data then DataFile(w, i) else ControlFile(w, i)
  }

  predicate Enabled(w: World, s: State, e: Step) {
    && |s.instances| == |w.setups|
    && e.i < |w.setups|
    && var phase := s.instances[e.i].phase;
       match e
       case TryControl(_) => phase.Waiting?
       case Empty(_, _) => phase.Writing? && !phase.emptied
       case WritePid(_, _) => phase.Writing? && phase.emptied
       case CheckData(_) => phase.Checking?
       case ReadHint(_) => phase.Refused?
       case Reset(_) => phase.Running?
       case Leave(_) => !phase.Leaving?
       case Drop(i, f) => phase.Leaving? && Held(s, f) == Some(i)
  }

  function Apply(w: World, s: State, e: Step): (r: State)
    requires Enabled(w, s, e)
    ensures |r.instances| == |w.setups|
  {
    var it := s.instances[e.i];
    match e
    case TryControl(i) => TryLock(s, i, ControlFile(w, i), false)
    case Empty(i, ok) =>
      var f := Target(w, i, it.phase.data);
      if ok then Moved(s, i, it.phase.(emptied := true)).(files := s.files[f := At(s.files, f).(text := None)])
      else Moved(s, i, Settled(it.phase.data))
    case WritePid(i, ok) =>
      var f := Target(w, i, it.phase.data);
      if ok then
        State(s.files[f := At(s.files, f).(text := Some(w.setups[i].pid))],
              s.instances[i := Instance(Settled(it.phase.data), it.wrote + {f})])
      else Moved(s, i, Settled(it.phase.data))
    case CheckData(i) =>
      if OneLock(w, i) then Moved(s, i, Running) else TryLock(s, i, DataFile(w, i), true)
    case ReadHint(i) => Moved(s, i, Leaving)
    case Reset(_) => s
    case Leave(i) => Moved(s, i, Leaving)
    case Drop(_, f) => s.(files := s.files[f := At(s.files, f).(holder := None)])
  }

  // Nobody has started; lock files of earlier runs may be left on disk with their contents.
  ghost predicate Initial(w: World, s: State) {
    && |s.instances| == |w.setups|
    && (forall i :: 0 <= i < |s.instances| ==> s.instances[i] == Instance(Waiting, {}))
    && (forall f :: Held(s, f).None?)
  }

  ghost predicate IsRun(w: World, states: seq<State>, steps: seq<Step>) {
    && |states| == |steps| + 1
    && Initial(w, states[0])
    && (forall k :: 0 <= k < |steps| ==>
          Enabled(w, states[k], steps[k]) && states[k+1] == Apply(w, states[k], steps[k]))
  }

  // ---------- the invariant ----------

  predicate HasControl(phase: Phase) {
    phase.Writing? || phase.Checking? || phase.Running?
  }

  predicate HasData(phase: Phase) {
    (phase.Writing? && phase.data) || phase.Running?
  }

  ghost predicate Holding(w: World, s: State, i: nat)
    requires |s.instances| == |w.setups| && i < |w.setups|
  {
    var it := s.instances[i];
    && (HasControl(it.phase) ==> Held(s, ControlFile(w, i)) == Some(i))
    && (HasData(it.phase) ==> Held(s, DataFile(w, i)) == Some(i) && !Aliased(w, i))
    && (it.phase.Waiting? ==> it.wrote == {})
    && (it.phase.Checking? && DataFile(w, i) != ControlFile(w, i) ==> DataFile(w, i) !in it.wrote)
    && (it.phase.Writing? ==> Target(w, i, it.phase.data) !in it.wrote)
    && (it.phase.Writing? && !it.phase.data && DataFile(w, i) != ControlFile(w, i) ==> DataFile(w, i) !in it.wrote)
  }

  // A lock is held only by an instance that has come far enough to take it.
  ghost predicate Owned(w: World, s: State, f: Inode)
    requires |s.instances| == |w.setups|
  {
    Held(s, f).Some? ==>
      var j := Held(s, f).value;
      && j < |w.setups|
      && !s.instances[j].phase.Waiting?
      && ( || f == ControlFile(w, j)
           || (f == DataFile(w, j) && (HasControl(s.instances[j].phase) ==> HasData(s.instances[j].phase))))
  }

  ghost predicate Safe(w: World, s: State) {
    && |s.instances| == |w.setups|
    && (forall i :: 0 <= i < |w.setups| ==> Holding(w, s, i))
    && (forall f :: Owned(w, s, f))
  }

  lemma StepKeepsSafe(w: World, s: State, e: Step)
    requires Resolves(w) && Safe(w, s) && Enabled(w, s, e)
    ensures Safe(w, Apply(w, s, e))
  {
    var s' := Apply(w, s, e);
    assert Holding(w, s, e.i);
    assert Owned(w, s, ControlFile(w, e.i)) && Owned(w, s, DataFile(w, e.i));
    if e.CheckData? {
      assert w.inode(w.canon(ControlPath(w, e.i))) == ControlFile(w, e.i);
    }
    forall i | 0 <= i < |w.setups| ensures Holding(w, s', i) {
      assert Holding(w, s, i);
    }
    forall f ensures Owned(w, s', f) {
      assert Owned(w, s, f);
    }
  }

  lemma {:induction false} RunIsSafe(w: World, states: seq<State>, steps: seq<Step>, k: nat)
    requires Resolves(w) && IsRun(w, states, steps) && k < |states|
    ensures Safe(w, states[k])
  {
    if k > 0 {
      RunIsSafe(w, states, steps, k - 1);
      StepKeepsSafe(w, states[k-1], steps[k-1]);
    }
  }

  // ---------- mutual exclusion ----------

  /** In every run, two instances past admission share neither a data directory, nor a control base,
      nor any lock file, however their paths are linked. */
  lemma NoTwoShare(w: World, states: seq<State>, steps: seq<Step>, k: nat, i: nat, j: nat)
    requires Resolves(w) && IsRun(w, states, steps) && k < |states|
    requires i < |w.setups| && j < |w.setups| && i != j
    requires |states[k].instances| == |w.setups|
    requires states[k].instances[i].phase.Running? && states[k].instances[j].phase.Running?
    ensures w.setups[i].dataDir != w.setups[j].dataDir
    ensures w.setups[i].controlBase != w.setups[j].controlBase
    ensures {ControlFile(w, i), DataFile(w, i)} !! {ControlFile(w, j), DataFile(w, j)}
  {
    RunIsSafe(w, states, steps, k);
    assert Holding(w, states[k], i) && Holding(w, states[k], j);
  }

  /** Node state is reset only while its data lock is held by the one who resets it, and no one
      else is past admission for that directory. */
  lemma ResetOnlyByTheHolder(w: World, states: seq<State>, steps: seq<Step>, k: nat)
    requires Resolves(w) && IsRun(w, states, steps) && k < |steps| && steps[k].Reset?
    ensures var i := steps[k].i;
            && i < |w.setups| && |states[k].instances| == |w.setups|
            && Held(states[k], w.inode(PathFor(Join(w.setups[i].dataDir, "data")))) == Some(i)
            && forall j | 0 <= j < |w.setups| && j != i && states[k].instances[j].phase.Running? ::
                 w.setups[j].dataDir != w.setups[i].dataDir
  {
    var i := steps[k].i;
    RunIsSafe(w, states, steps, k);
    assert Enabled(w, states[k], steps[k]);
    assert Holding(w, states[k], i);
    DataLockPath(w.setups[i].dataDir);
    forall j | 0 <= j < |w.setups| && j != i && states[k].instances[j].phase.Running?
      ensures w.setups[j].dataDir != w.setups[i].dataDir
    {
      NoTwoShare(w, states, steps, k, i, j);
    }
  }

  // Past admission, an instance stays there until it leaves.
  lemma {:induction false} RunsUntilItLeaves(w: World, states: seq<State>, steps: seq<Step>, m: nat, n: nat, i: nat)
    requires IsRun(w, states, steps) && m <= n < |states| && i < |w.setups|
    requires |states[m].instances| == |w.setups| && states[m].instances[i].phase.Running?
    requires forall k | m <= k < n :: steps[k] != Leave(i)
    ensures |states[n].instances| == |w.setups| && states[n].instances[i].phase.Running?
  {
    if m < n {
      RunsUntilItLeaves(w, states, steps, m, n - 1, i);
      assert Enabled(w, states[n-1], steps[n-1]);
    }
  }

  /** Between resets of one directory by different instances, the first of the two has left: nobody's
      nodes lose their state under them. */
  lemma ResetsNeverOverlap(w: World, states: seq<State>, steps: seq<Step>, m: nat, n: nat)
    requires Resolves(w) && IsRun(w, states, steps) && m < n < |steps|
    requires steps[m].Reset? && steps[n].Reset? && steps[m].i != steps[n].i
    requires steps[m].i < |w.setups| && steps[n].i < |w.setups|
    requires w.setups[steps[m].i].dataDir == w.setups[steps[n].i].dataDir
    ensures exists k :: m < k < n && steps[k] == Leave(steps[m].i)
  {
    var i := steps[m].i;
    assert Enabled(w, states[m], steps[m]);
    if forall k | m < k < n :: steps[k] != Leave(i) {
      RunsUntilItLeaves(w, states, steps, m, n, i);
      ResetOnlyByTheHolder(w, states, steps, n);
      assert false;
    }
  }

  // ---------- admission without a competitor ----------

  ghost predicate Reaches(w: World, s: State, steps: seq<Step>, t: State)
    decreases |steps|
  {
    if steps == [] then t == s
    else Enabled(w, s, steps[0]) && Reaches(w, Apply(w, s, steps[0]), steps[1..], t)
  }

  ghost predicate OwnSteps(steps: seq<Step>, i: nat) {
    forall k :: 0 <= k < |steps| ==> steps[k].i == i
  }

  lemma ChainReach(w: World, s: State, e: Step, s1: State, rest: seq<Step>, t: State)
    requires Enabled(w, s, e) && s1 == Apply(w, s, e) && Reaches(w, s1, rest, t)
    ensures Reaches(w, s, [e] + rest, t)
  {
    assert ([e] + rest)[1..] == rest;
  }

  lemma {:induction false} JoinReaches(w: World, s: State, first: seq<Step>, mid: State, second: seq<Step>, t: State)
    requires Reaches(w, s, first, mid) && Reaches(w, mid, second, t)
    ensures Reaches(w, s, first + second, t)
    decreases |first|
  {
    if first == [] {
      assert first + second == second;
    } else {
      JoinReaches(w, Apply(w, s, first[0]), first[1..], mid, second, t);
      assert (first + second)[1..] == first[1..] + second;
    }
  }

  lemma {:induction false} ReachingKeepsSafe(w: World, s: State, steps: seq<Step>, t: State)
    requires Resolves(w) && Safe(w, s) && Reaches(w, s, steps, t)
    ensures Safe(w, t)
    decreases |steps|
  {
    if steps != [] {
      StepKeepsSafe(w, s, steps[0]);
      ReachingKeepsSafe(w, Apply(w, s, steps[0]), steps[1..], t);
    }
  }

  // A free lock file once `who` has taken it; the flags say whether truncating and writing succeed.
  function Acquired(found: LockFile, who: nat, pid: nat, truncates: bool, writes: bool): LockFile {
    LockFile(Some(who), if !truncates then found.text else if writes then Some(pid) else None)
  }

  /** When nobody interferes, the steps of an acquisition do to the lock file what `Acquire` does, whether
      truncating it and writing the pid succeed or not. */
  lemma AcquireIsItsSteps(w: World, s: State, i: nat, data: bool, truncates: bool, writes: bool)
    returns (steps: seq<Step>, t: State)
    requires |s.instances| == |w.setups| && i < |w.setups|
    requires if data then s.instances[i].phase.Checking? && !OneLock(w, i) else s.instances[i].phase.Waiting?
    requires Held(s, Target(w, i, data)).None?
    ensures steps == [if data then CheckData(i) else TryControl(i), Empty(i, truncates)]
                     + if truncates then [WritePid(i, writes)] else []
    ensures Reaches(w, s, steps, t)
    ensures |t.instances| == |w.setups| && t.instances[i].phase == if data then Running else Checking
    ensures var f := Target(w, i, data);
            && At(t.files, f) == Acquired(At(s.files, f), i, w.setups[i].pid, truncates, writes)
            && (forall g | g != f :: At(t.files, g) == At(s.files, g))
    ensures forall j | 0 <= j < |w.setups| && j != i :: t.instances[j] == s.instances[j]
  {
    var e := if data then CheckData(i) else TryControl(i);
    var s1 := Apply(w, s, e);
    var s2 := Apply(w, s1, Empty(i, truncates));
    steps, t := [], s2;
    assert Reaches(w, s2, [], s2);
    if truncates {
      t := Apply(w, s2, WritePid(i, writes));
      assert Reaches(w, t, [], t);
      ChainReach(w, s2, WritePid(i, writes), t, [], t);
      steps := [WritePid(i, writes)] + [];
    }
    ChainReach(w, s1, Empty(i, truncates), s2, steps, t);
    ChainReach(w, s, e, s1, [Empty(i, truncates)] + steps, t);
    steps := [e] + ([Empty(i, truncates)] + steps);
  }

  lemma StartIsAdmitted(w: World, s: State, i: nat) returns (steps: seq<Step>, t: State)
    requires |s.instances| == |w.setups| && i < |w.setups| && s.instances[i].phase.Waiting?
    requires Held(s, ControlFile(w, i)).None? && Held(s, DataFile(w, i)).None? && !Aliased(w, i)
    ensures OwnSteps(steps, i) && Reaches(w, s, steps, t)
    ensures |t.instances| == |w.setups| && t.instances[i].phase.Running?
  {
    var first, mid := AcquireIsItsSteps(w, s, i, false, true, true);
    var second;
    if OneLock(w, i) {
      t := Apply(w, mid, CheckData(i));
      assert Reaches(w, t, [], t);
      ChainReach(w, mid, CheckData(i), t, [], t);
      second := [CheckData(i)] + [];
    } else {
      second, t := AcquireIsItsSteps(w, mid, i, true, true, true);
    }
    JoinReaches(w, s, first, mid, second, t);
    steps := first + second;
  }

  /** After any run, in which others may have been refused, crashed or killed at any point, an
      instance whose locks nobody holds can be admitted by its own steps alone, exactly when its data
      lock is not a link to its control lock. */
  lemma FreeLocksAdmitIff(w: World, states: seq<State>, steps: seq<Step>, i: nat)
    requires Resolves(w) && IsRun(w, states, steps) && i < |w.setups|
    requires var s := states[|steps|];
             && |s.instances| == |w.setups| && s.instances[i].phase.Waiting?
             && Held(s, ControlFile(w, i)).None? && Held(s, DataFile(w, i)).None?
    ensures (exists own, t :: OwnSteps(own, i) && Reaches(w, states[|steps|], own, t)
                              && |t.instances| == |w.setups| && t.instances[i].phase.Running?)
            <==> !(var base, dataLock := w.setups[i].controlBase + ".lock", Join(w.setups[i].dataDir, "data.lock");
                   w.inode(base) == w.inode(dataLock) && w.canon(base) != dataLock)
  {
    var s := states[|steps|];
    RunIsSafe(w, states, steps, |steps|);
    if !Aliased(w, i) {
      var own, t := StartIsAdmitted(w, s, i);
      ReachingKeepsSafe(w, s, own, t);
    }
    forall own, t | OwnSteps(own, i) && Reaches(w, s, own, t) && |t.instances| == |w.setups|
                    && t.instances[i].phase.Running?
      ensures !Aliased(w, i)
    {
      ReachingKeepsSafe(w, s, own, t);
      assert Holding(w, t, i);
    }
  }

  // While only `i` steps from a state in which it waits and its files are free, only `i` holds them.
  ghost predicate Undisturbed(w: World, s: State, i: nat)
    requires |s.instances| == |w.setups| && i < |w.setups|
  {
    && Held(s, ControlFile(w, i)) in {None, Some(i)}
    && Held(s, DataFile(w, i)) in {None, Some(i)}
    && (s.instances[i].phase.Waiting? ==> Held(s, ControlFile(w, i)).None? && Held(s, DataFile(w, i)).None?)
    && (HasControl(s.instances[i].phase) && !HasData(s.instances[i].phase) ==>
          Held(s, DataFile(w, i)) == Some(i) ==> DataFile(w, i) == ControlFile(w, i))
    && (s.instances[i].phase.Refused? ==> Aliased(w, i))
  }

  lemma {:induction false} OwnStepsStayUndisturbed(w: World, s: State, own: seq<Step>, t: State, i: nat)
    requires |s.instances| == |w.setups| && i < |w.setups| && Undisturbed(w, s, i)
    requires Safe(w, s) && Resolves(w)
    requires OwnSteps(own, i) && Reaches(w, s, own, t)
    ensures |t.instances| == |w.setups| && Undisturbed(w, t, i)
    decreases |own|
  {
    if own != [] {
      assert own[0].i == i;
      assert Holding(w, s, i);
      StepKeepsSafe(w, s, own[0]);
      assert OwnSteps(own[1..], i);
      OwnStepsStayUndisturbed(w, Apply(w, s, own[0]), own[1..], t, i);
    }
  }

  /** Without a competitor no schedule makes an instance meet its own control lock, except the one
      whose data lock is a link to it. */
  lemma NoSelfConflict(w: World, states: seq<State>, steps: seq<Step>, i: nat, own: seq<Step>, t: State)
    requires Resolves(w) && IsRun(w, states, steps) && i < |w.setups|
    requires var s := states[|steps|];
             && |s.instances| == |w.setups| && s.instances[i].phase.Waiting?
             && Held(s, ControlFile(w, i)).None? && Held(s, DataFile(w, i)).None?
    requires OwnSteps(own, i) && Reaches(w, states[|steps|], own, t)
    ensures |t.instances| == |w.setups|
    ensures t.instances[i].phase.Refused? ==>
              var base, dataLock := w.setups[i].controlBase + ".lock", Join(w.setups[i].dataDir, "data.lock");
              w.inode(base) == w.inode(dataLock) && w.canon(base) != dataLock
  {
    RunIsSafe(w, states, steps, |steps|);
    OwnStepsStayUndisturbed(w, states[|steps|], own, t, i);
  }

  // ---------- the pid in a lock file ----------

  // Pids tell the instances apart, and no file left by an earlier run contains one of them.
  ghost predicate DistinctPids(w: World, s: State) {
    && (forall i, j :: 0 <= i < j < |w.setups| ==> w.setups[i].pid != w.setups[j].pid)
    && (forall f, i | 0 <= i < |w.setups| :: At(s.files, f).text != Some(w.setups[i].pid))
  }

  // `h` put its pid into `f` during the first `k` steps.
  ghost predicate WroteBefore(w: World, states: seq<State>, steps: seq<Step>, k: nat, h: nat, f: Inode)
    requires IsRun(w, states, steps) && k < |states| && h < |w.setups|
  {
    exists m :: 0 <= m < k && steps[m] == WritePid(h, true)
                && Target(w, h, states[m].instances[h].phase.data) == f
  }

  ghost predicate Signed(w: World, s: State, f: Inode, h: nat)
    requires |s.instances| == |w.setups| && h < |w.setups|
  {
    && (At(s.files, f).text == Some(w.setups[h].pid) ==> f in s.instances[h].wrote)
    && (Held(s, f) == Some(h) && f in s.instances[h].wrote ==> At(s.files, f).text == Some(w.setups[h].pid))
    && (f in s.instances[h].wrote ==> Held(s, f) == Some(h) || s.instances[h].phase.Leaving?)
  }

  lemma StepKeepsSigned(w: World, s: State, e: Step, f: Inode, h: nat)
    requires Safe(w, s) && Enabled(w, s, e) && h < |w.setups| && Signed(w, s, f, h)
    requires forall i, j :: 0 <= i < j < |w.setups| ==> w.setups[i].pid != w.setups[j].pid
    ensures Signed(w, Apply(w, s, e), f, h)
    ensures f in Apply(w, s, e).instances[h].wrote
            <==> f in s.instances[h].wrote || (e == WritePid(h, true) && Target(w, h, s.instances[h].phase.data) == f)
  {
    assert Holding(w, s, e.i) && Holding(w, s, h) && Owned(w, s, f);
  }

  lemma {:induction false} FilesAreSigned(w: World, states: seq<State>, steps: seq<Step>, k: nat, f: Inode, h: nat)
    requires Resolves(w) && IsRun(w, states, steps) && DistinctPids(w, states[0])
    requires k < |states| && h < |w.setups|
    ensures |states[k].instances| == |w.setups| && Signed(w, states[k], f, h)
    ensures f in states[k].instances[h].wrote <==> WroteBefore(w, states, steps, k, h, f)
  {
    if k > 0 {
      FilesAreSigned(w, states, steps, k - 1, f, h);
      RunIsSafe(w, states, steps, k - 1);
      StepKeepsSigned(w, states[k-1], steps[k-1], f, h);
      assert steps[k-1] == WritePid(h, true) ==> Enabled(w, states[k-1], steps[k-1]);
    }
  }

  /** What a refused instance is told. If it is the pid of some instance, that one wrote it and either
      still holds the lock or has left; and while somebody holds the lock it is the holder's pid exactly
      when the holder had finished writing it. */
  lemma HintNamesTheHolderIff(w: World, states: seq<State>, steps: seq<Step>, k: nat, h: nat)
    requires Resolves(w) && IsRun(w, states, steps) && DistinctPids(w, states[0])
    requires k < |steps| && steps[k].ReadHint? && h < |w.setups|
    ensures var s := states[k];
            var f := s.instances[steps[k].i].phase.file;
            && |s.instances| == |w.setups|
            && (At(s.files, f).text == Some(w.setups[h].pid) ==>
                  WroteBefore(w, states, steps, k, h, f) && (Held(s, f) == Some(h) || s.instances[h].phase.Leaving?))
            && (Held(s, f) == Some(h) ==>
                  (At(s.files, f).text == Some(w.setups[h].pid) <==> WroteBefore(w, states, steps, k, h, f)))
  {
    FilesAreSigned(w, states, steps, k, states[k].instances[steps[k].i].phase.file, h);
  }

  lemma Dies(w: World, s: State, i: nat, f: Inode) returns (steps: seq<Step>, t: State)
    requires |s.instances| == |w.setups| && i < |w.setups|
    requires !s.instances[i].phase.Leaving? && Held(s, f) == Some(i)
    ensures Reaches(w, s, steps, t) && |t.instances| == |w.setups|
    ensures t.instances == s.instances[i := s.instances[i].(phase := Leaving)]
    ensures At(t.files, f) == LockFile(None, At(s.files, f).text)
  {
    var s1 := Apply(w, s, Leave(i));
    t := Apply(w, s1, Drop(i, f));
    assert Reaches(w, t, [], t);
    ChainReach(w, s1, Drop(i, f), t, [], t);
    ChainReach(w, s, Leave(i), s1, [Drop(i, f)] + [], t);
    steps := [Leave(i)] + ([Drop(i, f)] + []);
  }

  lemma RefusesTheNext(w: World, s: State, j: nat, k: nat) returns (steps: seq<Step>, t: State)
    requires |s.instances| == |w.setups| && j < |w.setups| && k < |w.setups| && j != k
    requires s.instances[j].phase.Waiting? && s.instances[k].phase.Waiting?
    requires ControlFile(w, j) == ControlFile(w, k) && Held(s, ControlFile(w, k)).None?
    ensures Reaches(w, s, steps, t) && |t.instances| == |w.setups|
    ensures t.instances[k].phase == Refused(ControlFile(w, k))
    ensures At(t.files, ControlFile(w, k)) == LockFile(Some(j), At(s.files, ControlFile(w, k)).text)
    ensures forall i :: 0 <= i < |w.setups| && i != j && i != k ==> t.instances[i] == s.instances[i]
  {
    var s1 := Apply(w, s, TryControl(j));
    t := Apply(w, s1, TryControl(k));
    assert Reaches(w, t, [], t);
    ChainReach(w, s1, TryControl(k), t, [], t);
    ChainReach(w, s, TryControl(j), s1, [TryControl(k)] + [], t);
    steps := [TryControl(j)] + ([TryControl(k)] + []);
  }

  /** Whenever three instances share a control base there is a run that refuses the third with the
      pid of the first, which has left, while the second holds the lock. */
  lemma LeftoverPidMisleads(w: World, s: State, i: nat, j: nat, k: nat) returns (steps: seq<Step>, t: State)
    requires Initial(w, s) && i < |w.setups| && j < |w.setups| && k < |w.setups|
    requires i != j && j != k && i != k
    requires ControlFile(w, i) == ControlFile(w, j) == ControlFile(w, k)
    ensures Reaches(w, s, steps, t) && Enabled(w, t, ReadHint(k))
    ensures var f := ControlFile(w, k);
            && t.instances[k].phase == Refused(f) && Held(t, f) == Some(j)
            && t.instances[i].phase == Leaving && At(t.files, f).text == Some(w.setups[i].pid)
  {
    var first, s1 := AcquireIsItsSteps(w, s, i, false, true, true);
    var second, s2 := Dies(w, s1, i, ControlFile(w, i));
    var third, s3 := RefusesTheNext(w, s2, j, k);
    JoinReaches(w, s, first, s1, second, s2);
    JoinReaches(w, s, first + second, s2, third, s3);
    steps, t := first + second + third, s3;
  }

  // ---------- acquiring a lock in place ----------

  datatype LockError = LockHeld(pid: Option<nat>)

  /** A lock file on disk. */
  class LockHandle {
    var file: LockFile

    constructor (found: LockFile)
      ensures file == found
    {
      file := found;
    }

    /** Takes the lock and rewrites the pid, or reports the pid found in the file. */
    method Acquire(who: nat, pid: nat, truncates: bool, writes: bool) returns (r: Result<(), LockError>)
      modifies this
      ensures old(file).holder.Some? ==> r == Err(LockHeld(old(file).text)) && file == old(file)
      ensures old(file).holder.None? ==> r == Ok(()) && file == Acquired(old(file), who, pid, truncates, writes)
      ensures old(file).holder.None? ==> file.holder == Some(who)
      ensures old(file).holder.None? && truncates && writes ==> file.text == Some(pid)
      ensures old(file).holder.None? && truncates && !writes ==> file.text == None
      ensures old(file).holder.None? && !truncates ==> file.text == old(file).text
    {
      if file.holder.Some? {
        return Err(LockHeld(file.text));
      }
      file := file.(holder := Some(who));
      if truncates {
        file := file.(text := None);
        if writes {
          file := file.(text := Some(pid));
        }
      }
      return Ok(());
    }

    /** Dropping the handle releases the lock and leaves the contents. */
    method Release()
      modifies this
      ensures file == LockFile(None, old(file).text)
    {
      file := file.(holder := None);
    }
  }

  // Whether rewriting the pid in a lock file works; a failure is only a warning.
  datatype Rewrite = Rewrite(truncates: bool, writes: bool)

  /** The admission of one instance that runs undisturbed; `control` and `data` are the same object
      when the two lock paths open the same file. A start that fails gives back what it took. */
  method Admit(control: LockHandle, data: LockHandle, oneLock: bool, who: nat, pid: nat, c: Rewrite, d: Rewrite)
    returns (admitted: bool)
    requires oneLock ==> control == data
    modifies control, data
    ensures admitted <==>
              old(control.file).holder.None? && (oneLock || (control != data && old(data.file).holder.None?))
    ensures admitted ==> control.file == Acquired(old(control.file), who, pid, c.truncates, c.writes)
    ensures admitted && !oneLock ==> data.file == Acquired(old(data.file), who, pid, d.truncates, d.writes)
    ensures !admitted ==> control.file.holder == old(control.file).holder && data.file.holder == old(data.file).holder
    ensures old(control.file).holder.Some? ==> control.file == old(control.file) && data.file == old(data.file)
    ensures !admitted && control != data && old(control.file).holder.None? ==>
              && data.file == old(data.file)
              && control.file == LockFile(None, Acquired(old(control.file), who, pid, c.truncates, c.writes).text)
  {
    var first := control.Acquire(who, pid, c.truncates, c.writes);
    if first.Err? {
      return false;
    }
    if !oneLock {
      var second := data.Acquire(who, pid, d.truncates, d.writes);
      if second.Err? {
        control.Release();
        return false;
      }
    }
    return true;
  }
}
