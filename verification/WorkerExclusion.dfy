/**
 Worker pods as the API server stores them: by namespace and name, a taken name refuses a second pod
 (internal/pod/workerpodmanager.go:101-165, 657-659). The run lemmas look pods up by module; here
 that view is shown to be what the store holds, for every run.
 */
module WorkerExclusion {
  import opened Basics
  import opened NodeModules
  import opened NmcPass
  import opened NodeRuns

  // ----- Names -----

  /** On one node the worker pod's name determines the module's name. */
  lemma WorkerPodNameIsInjective(nodeName: string, a: string, b: string)
    requires WorkerPodName(nodeName, a) == WorkerPodName(nodeName, b)
    ensures a == b
  {
    var prefix := "kmm-worker-" + nodeName + "-";
    assert (prefix + a)[|prefix|..] == a;
    assert (prefix + b)[|prefix|..] == b;
  }

  /** Across nodes it does not: the hypothesis of one node is needed. */
  lemma NodesCanShareAName()
    ensures WorkerPodName("n", "a-b") == WorkerPodName("n-a", "b")
  {
    assert "kmm-worker-" + "n" + "-" + "a-b" == "kmm-worker-" + "n-a" + "-" + "b";
  }

  /** Where the API server keeps the worker pod of a module: its namespace and the pod's name. */
  function AddressOn(nodeName: string): Key -> Key {
    (k: Key) => Key(k.namespace, WorkerPodName(nodeName, k.name))
  }

  ghost predicate IsInjective(at: Key -> Key) {
    forall j, k :: at(j) == at(k) ==> j == k
  }

  lemma AddressIsInjective(nodeName: string)
    ensures IsInjective(AddressOn(nodeName))
  {
    forall j, k | AddressOn(nodeName)(j) == AddressOn(nodeName)(k)
      ensures j == k
    {
      WorkerPodNameIsInjective(nodeName, j.name, k.name);
    }
  }

  // ----- Calls -----

  datatype PodCall = CreatePod(pod: WorkerPod) | DeletePod(key: Key)

  function CallKey(c: PodCall): Key {
    match c
    case CreatePod(p) => PodKey(p)
    case DeletePod(k) => k
  }

  predicate Refused(store: map<Key, WorkerPod>, at: Key -> Key, c: PodCall) {
    c.CreatePod? && at(CallKey(c)) in store
  }

  function Called(store: map<Key, WorkerPod>, at: Key -> Key, c: PodCall): map<Key, WorkerPod> {
    var a := at(CallKey(c));
    match c
    case CreatePod(p) => if a in store then store else store[a := p]
    case DeletePod(_) => store - {a}
  }

  function CalledAll(store: map<Key, WorkerPod>, at: Key -> Key, calls: seq<PodCall>): map<Key, WorkerPod>
    decreases |calls|
  {
    if calls == [] then store else CalledAll(Called(store, at, calls[0]), at, calls[1..])
  }

  predicate NoneRefused(store: map<Key, WorkerPod>, at: Key -> Key, calls: seq<PodCall>)
    decreases |calls|
  {
    calls == [] || (!Refused(store, at, calls[0]) && NoneRefused(Called(store, at, calls[0]), at, calls[1..]))
  }

  /** The calls, in some order, that take the modules' pods from `before` to `after`: creations where there is no pod, deletions. */
  ghost predicate AreCalls(calls: seq<PodCall>, before: map<Key, WorkerPod>, after: map<Key, WorkerPod>)
    decreases |calls|
  {
    if calls == [] then before == after
    else
      var c := calls[0];
      && (match c
          case CreatePod(p) => PodKey(p) !in before && Lookup(after, PodKey(p)) == Some(p)
          case DeletePod(k) => k in before && k !in after)
      && AreCalls(calls[1..], Put(before, CallKey(c), Lookup(after, CallKey(c))), after)
  }

  /** A reconciler cannot edit a pod in place. */
  ghost predicate NeverReplaces(before: map<Key, WorkerPod>, after: map<Key, WorkerPod>) {
    forall k :: k in before && k in after ==> before[k] == after[k]
  }

  ghost predicate PodsKeyed(pods: map<Key, WorkerPod>) {
    forall k :: k in pods ==> PodKey(pods[k]) == k
  }

  lemma {:induction false} CallsFor(before: map<Key, WorkerPod>, after: map<Key, WorkerPod>, keys: set<Key>) returns (calls: seq<PodCall>)
    requires NeverReplaces(before, after) && PodsKeyed(after)
    requires forall k :: k !in keys ==> Lookup(before, k) == Lookup(after, k)
    ensures AreCalls(calls, before, after)
    decreases keys
  {
    if keys == {} {
      MapsEqualByLookup(before, after);
      return [];
    }
    var k :| k in keys;
    if Lookup(before, k) == Lookup(after, k) {
      calls := CallsFor(before, after, keys - {k});
    } else {
      var c := if k in after then CreatePod(after[k]) else DeletePod(k);
      var next := Put(before, k, Lookup(after, k));
      assert NeverReplaces(next, after) by {
        forall j | j in next && j in after ensures next[j] == after[j] {
          assert Lookup(next, j) == if j == k then Lookup(after, k) else Lookup(before, j);
        }
      }
      var rest := CallsFor(next, after, keys - {k});
      calls := [c] + rest;
      assert calls[1..] == rest;
    }
  }

  // ----- Store and view -----

  /** The store holds the node's worker pods under their own names and nothing else. */
  ghost predicate Matches(store: map<Key, WorkerPod>, pods: map<Key, WorkerPod>, at: Key -> Key) {
    && (forall k :: Lookup(store, at(k)) == Lookup(pods, k))
    && (forall a :: a in store ==> exists k :: k in pods && a == at(k))
  }

  /** Writing or clearing one module's slot in both. */
  lemma PutKeepsMatch(store: map<Key, WorkerPod>, pods: map<Key, WorkerPod>, at: Key -> Key, k: Key, pod: Option<WorkerPod>)
    requires Matches(store, pods, at) && IsInjective(at)
    ensures Matches(Put(store, at(k), pod), Put(pods, k, pod), at)
  {
    var store', pods' := Put(store, at(k), pod), Put(pods, k, pod);
    forall j
      ensures Lookup(store', at(j)) == Lookup(pods', j)
    {
      assert j != k ==> at(j) != at(k);
      assert Lookup(store, at(j)) == Lookup(pods, j);
    }
    forall a | a in store'
      ensures exists j :: j in pods' && a == at(j)
    {
      assert Lookup(store', a).Some?;
      if a == at(k) {
        assert k in pods';
      } else {
        var j :| j in pods && a == at(j);
        assert Lookup(pods', j) == Lookup(pods, j);
        assert j in pods';
      }
    }
  }

  /** Carrying out the calls of a phase keeps the match, and no creation finds its name taken. */
  lemma {:induction false} CallsKeepMatch(store: map<Key, WorkerPod>, at: Key -> Key, calls: seq<PodCall>,
                                          before: map<Key, WorkerPod>, after: map<Key, WorkerPod>)
    requires IsInjective(at) && Matches(store, before, at) && AreCalls(calls, before, after)
    ensures Matches(CalledAll(store, at, calls), after, at)
    ensures NoneRefused(store, at, calls)
    decreases |calls|
  {
    if calls != [] {
      var c := calls[0];
      var k := CallKey(c);
      assert Lookup(store, at(k)) == Lookup(before, k);
      PutKeepsMatch(store, before, at, k, Lookup(after, k));
      assert Called(store, at, c) == Put(store, at(k), Lookup(after, k));
      CallsKeepMatch(Called(store, at, c), at, calls[1..], Put(before, k, Lookup(after, k)), after);
    }
  }

  // ----- Runs -----

  /** The pods after the sync phase, after the processing loops and at the end of a pass. */
  ghost function PassPods(s: NodeState, node: Node, f: Faults): (map<Key, WorkerPod>, map<Key, WorkerPod>, map<Key, WorkerPod>) {
    var (s1, ok) := SyncPhase(s, node, f);
    (s1.pods, if ok then ProcessPhase(s1, node, f).pods else s1.pods, Reconcile(s, node, f).pods)
  }

  /** How the store follows a step of the node: a pass carries out its calls phase by phase, the kubelet updates pods in place. */
  ghost predicate StoreStep(w: World, store: map<Key, WorkerPod>, step: Step, store': map<Key, WorkerPod>)
    requires Enabled(w, step)
  {
    var at := AddressOn(w.node.name);
    match step
    case Pass(f) =>
      var (p1, p2, p3) := PassPods(w.state, w.node, f);
      exists c1, c2, c3 ::
        && AreCalls(c1, w.state.pods, p1) && AreCalls(c2, p1, p2) && AreCalls(c3, p2, p3)
        && store' == CalledAll(CalledAll(CalledAll(store, at, c1), at, c2), at, c3)
    case PodMoves(k, _) => store' == Put(store, at(k), Some(Next(w, step).state.pods[k]))
    case PodRestarts(k) => store' == Put(store, at(k), Some(Next(w, step).state.pods[k]))
    case _ => store' == store
  }

  ghost predicate StoreRun(w: World, store: map<Key, WorkerPod>, steps: seq<Step>, final: map<Key, WorkerPod>)
    requires IsRun(w, steps)
    decreases |steps|
  {
    if steps == [] then final == store
    else exists mid :: StoreStep(w, store, steps[0], mid) && StoreRun(Next(w, steps[0]), mid, steps[1..], final)
  }

  lemma ProcessNeverReplaces(s: NodeState, node: Node, f: Faults)
    ensures NeverReplaces(s.pods, ProcessPhase(s, node, f).pods)
  {
    var pods := ProcessPhase(s, node, f).pods;
    forall k | k in s.pods && k in pods
      ensures s.pods[k] == pods[k]
    {
      assert Lookup(pods, k) == ProcessedPod(s, node, f, k);
    }
  }

  lemma PassNeverReplaces(s: NodeState, node: Node, f: Faults)
    ensures var (p1, p2, p3) := PassPods(s, node, f);
            NeverReplaces(s.pods, p1) && NeverReplaces(p1, p2) && NeverReplaces(p2, p3)
  {
    ProcessNeverReplaces(SyncPhase(s, node, f).0, node, f);
  }

  lemma PassPodsKeyed(s: NodeState, node: Node, f: Faults)
    requires Keyed(s)
    ensures var (p1, p2, p3) := PassPods(s, node, f); PodsKeyed(p1) && PodsKeyed(p2) && PodsKeyed(p3)
  {
    SyncKeepsKeyed(s, node, f);
    ProcessKeepsKeyed(SyncPhase(s, node, f).0, node, f);
    ReconcileKeepsKeyed(s, node, f);
  }

  /** Every step of the node can be followed by the store. */
  lemma StoreCanFollow(w: World, store: map<Key, WorkerPod>, step: Step)
    requires Keyed(w.state) && Enabled(w, step)
    ensures exists store' :: StoreStep(w, store, step, store')
  {
    var at := AddressOn(w.node.name);
    match step
    case Pass(f) =>
      var (p1, p2, p3) := PassPods(w.state, w.node, f);
      PassNeverReplaces(w.state, w.node, f);
      PassPodsKeyed(w.state, w.node, f);
      var c1 := CallsFor(w.state.pods, p1, w.state.pods.Keys + p1.Keys);
      var c2 := CallsFor(p1, p2, p1.Keys + p2.Keys);
      var c3 := CallsFor(p2, p3, p2.Keys + p3.Keys);
      assert StoreStep(w, store, step, CalledAll(CalledAll(CalledAll(store, at, c1), at, c2), at, c3));
    case PodMoves(k, phase) =>
      assert StoreStep(w, store, step, Put(store, at(k), Some(Next(w, step).state.pods[k])));
    case PodRestarts(k) =>
      assert StoreStep(w, store, step, Put(store, at(k), Some(Next(w, step).state.pods[k])));
    case _ =>
      assert StoreStep(w, store, step, store);
  }

  lemma StoreStepKeepsMatch(w: World, store: map<Key, WorkerPod>, step: Step, store': map<Key, WorkerPod>)
    requires Keyed(w.state) && Enabled(w, step) && Matches(store, w.state.pods, AddressOn(w.node.name)) && StoreStep(w, store, step, store')
    ensures Matches(store', Next(w, step).state.pods, AddressOn(w.node.name))
  {
    var at, pods' := AddressOn(w.node.name), Next(w, step).state.pods;
    AddressIsInjective(w.node.name);
    match step
    case Pass(f) =>
      var (p1, p2, p3) := PassPods(w.state, w.node, f);
      var c1, c2, c3 :|
        && AreCalls(c1, w.state.pods, p1) && AreCalls(c2, p1, p2) && AreCalls(c3, p2, p3)
        && store' == CalledAll(CalledAll(CalledAll(store, at, c1), at, c2), at, c3);
      CallsKeepMatch(store, at, c1, w.state.pods, p1);
      CallsKeepMatch(CalledAll(store, at, c1), at, c2, p1, p2);
      CallsKeepMatch(CalledAll(CalledAll(store, at, c1), at, c2), at, c3, p2, p3);
    case PodMoves(k, _) =>
      PutKeepsMatch(store, w.state.pods, at, k, Some(pods'[k]));
      assert pods' == Put(w.state.pods, k, Some(pods'[k]));
    case PodRestarts(k) =>
      PutKeepsMatch(store, w.state.pods, at, k, Some(pods'[k]));
      assert pods' == Put(w.state.pods, k, Some(pods'[k]));
    case _ =>
  }

  lemma StepKeepsKeyed(w: World, step: Step)
    requires Keyed(w.state) && Enabled(w, step)
    ensures Keyed(Next(w, step).state)
  {
    if step.Pass? {
      ReconcileKeepsKeyed(w.state, w.node, step.faults);
    }
  }

  lemma {:induction false} StoreRunKeepsMatch(w: World, store: map<Key, WorkerPod>, steps: seq<Step>, final: map<Key, WorkerPod>)
    requires Keyed(w.state) && IsRun(w, steps) && Matches(store, w.state.pods, AddressOn(w.node.name)) && StoreRun(w, store, steps, final)
    ensures Keyed(After(w, steps).state) && Matches(final, After(w, steps).state.pods, AddressOn(w.node.name))
    decreases |steps|
  {
    if steps != [] {
      var mid :| StoreStep(w, store, steps[0], mid) && StoreRun(Next(w, steps[0]), mid, steps[1..], final);
      StoreStepKeepsMatch(w, store, steps[0], mid);
      StepKeepsKeyed(w, steps[0]);
      StoreRunKeepsMatch(Next(w, steps[0]), mid, steps[1..], final);
    }
  }

  lemma {:induction false} StoreRunExists(w: World, store: map<Key, WorkerPod>, steps: seq<Step>)
    requires Keyed(w.state) && IsRun(w, steps)
    ensures exists final :: StoreRun(w, store, steps, final)
    decreases |steps|
  {
    if steps == [] {
      assert StoreRun(w, store, steps, store);
    } else {
      StoreCanFollow(w, store, steps[0]);
      var mid :| StoreStep(w, store, steps[0], mid);
      StepKeepsKeyed(w, steps[0]);
      StoreRunExists(Next(w, steps[0]), mid, steps[1..]);
      var final :| StoreRun(Next(w, steps[0]), mid, steps[1..], final);
      assert StoreRun(w, store, steps, final);
    }
  }

  /** The pods before a pass and after each of its phases. */
  datatype Phases = Phases(p0: map<Key, WorkerPod>, p1: map<Key, WorkerPod>, p2: map<Key, WorkerPod>, p3: map<Key, WorkerPod>)

  /** In whatever order each phase makes its calls, no creation finds its name taken. */
  ghost predicate PhasesRefuseNone(store: map<Key, WorkerPod>, at: Key -> Key, p: Phases) {
    forall c1, c2, c3 :: AreCalls(c1, p.p0, p.p1) && AreCalls(c2, p.p1, p.p2) && AreCalls(c3, p.p2, p.p3) ==>
      && NoneRefused(store, at, c1)
      && NoneRefused(CalledAll(store, at, c1), at, c2)
      && NoneRefused(CalledAll(CalledAll(store, at, c1), at, c2), at, c3)
  }

  lemma MatchedPhasesRefuseNone(store: map<Key, WorkerPod>, at: Key -> Key, p: Phases)
    requires IsInjective(at) && Matches(store, p.p0, at)
    ensures PhasesRefuseNone(store, at, p)
  {
    forall c1, c2, c3 | AreCalls(c1, p.p0, p.p1) && AreCalls(c2, p.p1, p.p2) && AreCalls(c3, p.p2, p.p3)
      ensures NoneRefused(store, at, c1)
      ensures NoneRefused(CalledAll(store, at, c1), at, c2)
      ensures NoneRefused(CalledAll(CalledAll(store, at, c1), at, c2), at, c3)
    {
      CallsKeepMatch(store, at, c1, p.p0, p.p1);
      CallsKeepMatch(CalledAll(store, at, c1), at, c2, p.p1, p.p2);
      CallsKeepMatch(CalledAll(CalledAll(store, at, c1), at, c2), at, c3, p.p2, p.p3);
    }
  }

  ghost predicate StepRefusesNone(w: World, store: map<Key, WorkerPod>, step: Step) {
    step.Pass? ==>
      var (p1, p2, p3) := PassPods(w.state, w.node, step.faults);
      PhasesRefuseNone(store, AddressOn(w.node.name), Phases(w.state.pods, p1, p2, p3))
  }

  ghost predicate RunRefusesNone(w: World, store: map<Key, WorkerPod>, steps: seq<Step>)
    requires IsRun(w, steps)
    decreases |steps|
  {
    steps == [] ||
    (&& StepRefusesNone(w, store, steps[0])
     && forall mid :: StoreStep(w, store, steps[0], mid) ==> RunRefusesNone(Next(w, steps[0]), mid, steps[1..]))
  }

  lemma MatchedStepRefusesNone(w: World, store: map<Key, WorkerPod>, step: Step)
    requires Matches(store, w.state.pods, AddressOn(w.node.name))
    ensures StepRefusesNone(w, store, step)
  {
    if step.Pass? {
      var (p1, p2, p3) := PassPods(w.state, w.node, step.faults);
      AddressIsInjective(w.node.name);
      MatchedPhasesRefuseNone(store, AddressOn(w.node.name), Phases(w.state.pods, p1, p2, p3));
    }
  }

  /** In every run from a matching store, no creation is ever refused for a taken name. */
  lemma {:induction false} NoCreationRefused(w: World, store: map<Key, WorkerPod>, steps: seq<Step>)
    requires Keyed(w.state) && IsRun(w, steps) && Matches(store, w.state.pods, AddressOn(w.node.name))
    ensures RunRefusesNone(w, store, steps)
    decreases |steps|
  {
    if steps != [] {
      MatchedStepRefusesNone(w, store, steps[0]);
      StepKeepsKeyed(w, steps[0]);
      forall mid | StoreStep(w, store, steps[0], mid)
        ensures RunRefusesNone(Next(w, steps[0]), mid, steps[1..])
      {
        StoreStepKeepsMatch(w, store, steps[0], mid);
        NoCreationRefused(Next(w, steps[0]), mid, steps[1..]);
      }
    }
  }

  /**
   Worker exclusion: in every run of the node, with any failing calls, the store holds at most one
   worker pod per module, loader or unloader, no two modules share one, and no creation was refused.
   */
  lemma OneWorkerPodPerModule(w: World, steps: seq<Step>, store: map<Key, WorkerPod>)
    requires Fresh(w) && IsRun(w, steps) && StoreRun(w, map[], steps, store)
    ensures Matches(store, After(w, steps).state.pods, AddressOn(w.node.name))
    ensures forall a, b :: a in store && b in store ==> (PodKey(store[a]) == PodKey(store[b]) <==> a == b)
    ensures RunRefusesNone(w, map[], steps)
  {
    NoCreationRefused(w, map[], steps);
    StoreRunKeepsMatch(w, map[], steps, store);
    var pods, at := After(w, steps).state.pods, AddressOn(w.node.name);
    forall a | a in store
      ensures a == at(PodKey(store[a]))
    {
      var k :| k in pods && a == at(k);
      assert Lookup(store, a) == Lookup(pods, k);
    }
  }
}
