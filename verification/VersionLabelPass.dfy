/**
 One reconcile of a node's version labels: all modules of the node at once, over the label map
 (internal/controllers/node_label_module_version_reconciler.go:60-205). Maps are visited in any order.
 */
module VersionLabelPass {
  import opened Basics
  import opened Strings
  import opened LabelCodecs
  import opened OrderedUpgrade

  datatype ModuleLabels = ModuleLabels(key: Key, labels: Labels)

  function LabelOf(kind: Kind, k: Key): string { VersionLabel(kind, k.namespace, k.name) }

  function MapKey(k: Key): string { k.namespace + "-" + k.name }

  function KindOf(text: string): Kind {
    if IsOfKind(text, ModuleVersion) then ModuleVersion
    else if IsOfKind(text, WorkerPodVersion) then WorkerPodVersion
    else SchedulePodVersion
  }

  function Parsed(text: string): Key {
    match GetNamespaceNameFromVersionLabel(text)
    case None => Key("", "")
    case Some(k) => k
  }

  /** Every version label was printed for a dot-free module, and no two modules share a map key. */
  ghost predicate WellFormed(nodeLabels: map<string, string>) {
    && (forall t :: t in nodeLabels && IsVersionLabel(t) ==> DotFree(Parsed(t)) && t == LabelOf(KindOf(t), Parsed(t)))
    && (forall s, t :: s in nodeLabels && t in nodeLabels && IsVersionLabel(s) && IsVersionLabel(t) ==>
                         (MapKey(Parsed(s)) == MapKey(Parsed(t)) ==> Parsed(s) == Parsed(t)))
  }

  function Value(nodeLabels: map<string, string>, text: string): string {
    if text in nodeLabels then nodeLabels[text] else ""
  }

  /** The three labels of one module. */
  function Extract(nodeLabels: map<string, string>, k: Key): Labels {
    Labels(Value(nodeLabels, LabelOf(ModuleVersion, k)),
           Value(nodeLabels, LabelOf(WorkerPodVersion, k)),
           Value(nodeLabels, LabelOf(SchedulePodVersion, k)))
  }

  /** The node carries some version label of the module. */
  predicate Has(nodeLabels: map<string, string>, k: Key) {
    || LabelOf(ModuleVersion, k) in nodeLabels
    || LabelOf(WorkerPodVersion, k) in nodeLabels
    || LabelOf(SchedulePodVersion, k) in nodeLabels
  }

  ghost predicate Ready(nodeLabels: map<string, string>, k: Key) {
    exists t :: t in nodeLabels && IsKernelModuleReadyLabel(t) == Some(k)
  }

  // ----- Collecting the labels of each module -----

  /** `m` has one entry for each module with a version label, holding that module's three labels. */
  ghost predicate IsPerModule(m: map<string, ModuleLabels>, nodeLabels: map<string, string>) {
    && (forall mk :: mk in m ==> DotFree(m[mk].key) && mk == MapKey(m[mk].key) && Has(nodeLabels, m[mk].key)
                                 && m[mk].labels == Extract(nodeLabels, m[mk].key))
    && (forall k :: DotFree(k) && Has(nodeLabels, k) ==> MapKey(k) in m && m[MapKey(k)].key == k)
  }

  /** A printed label parses back to its kind and module. */
  lemma LabelOfParses(kind: Kind, k: Key)
    requires DotFree(k)
    ensures var t := LabelOf(kind, k); IsVersionLabel(t) && KindOf(t) == kind && Parsed(t) == k
  {
    var t := LabelOf(kind, k);
    VersionLabelRoundTripIff(kind, k.namespace, k.name);
    VersionLabelIsOfKind(kind, k);
    KindsAreDisjoint(t, kind, KindOf(t));
  }

  function WithEntry(m: map<string, ModuleLabels>, text: string, value: string): map<string, ModuleLabels> {
    var k := Parsed(text);
    var e := if MapKey(k) in m then m[MapKey(k)] else ModuleLabels(k, Labels("", "", ""));
    m[MapKey(k) := e.(labels := WithLabel(e.labels, KindOf(text), value))]
  }

  /** One more label changes the labels of its own module only. */
  lemma ExtractWithLabel(done: map<string, string>, kind: Kind, k: Key, value: string, j: Key)
    requires DotFree(j) && DotFree(k)
    ensures var t := LabelOf(kind, k);
            && Extract(done[t := value], j) == (if j == k then WithLabel(Extract(done, k), kind, value) else Extract(done, j))
            && (Has(done[t := value], j) <==> Has(done, j) || j == k)
  {
    LabelOfParses(kind, k);
    LabelOfParses(ModuleVersion, j);
    LabelOfParses(WorkerPodVersion, j);
    LabelOfParses(SchedulePodVersion, j);
  }

  // ----- What the collecting loop leaves, on any labels -----

  /** A version label whose module has this map key. */
  predicate IsAbout(nodeLabels: map<string, string>, text: string, mk: string) {
    text in nodeLabels && IsVersionLabel(text) && MapKey(Parsed(text)) == mk
  }

  function LabelAt(l: Labels, kind: Kind): string {
    match kind
    case ModuleVersion => l.mod
    case WorkerPodVersion => l.worker
    case SchedulePodVersion => l.schedule
  }

  /** The value comes from some label of that kind about `mk`, or is empty when there is none. */
  ghost predicate ComesFrom(nodeLabels: map<string, string>, mk: string, kind: Kind, value: string) {
    || (exists t :: IsAbout(nodeLabels, t, mk) && KindOf(t) == kind && nodeLabels[t] == value)
    || (value == "" && forall t :: IsAbout(nodeLabels, t, mk) ==> KindOf(t) != kind)
  }

  /** One entry per map key that some label has, for a module with that key, with values from labels of that key. */
  ghost predicate IsGathered(m: map<string, ModuleLabels>, nodeLabels: map<string, string>) {
    && (forall t :: t in nodeLabels && IsVersionLabel(t) ==> MapKey(Parsed(t)) in m)
    && (forall mk :: mk in m ==> exists t :: IsAbout(nodeLabels, t, mk) && Parsed(t) == m[mk].key)
    && (forall mk, kind :: mk in m ==> ComesFrom(nodeLabels, mk, kind, LabelAt(m[mk].labels, kind)))
  }

  lemma ValueStep(done: map<string, string>, text: string, value: string, mk: string, kind: Kind, was: string)
    requires text !in done && ComesFrom(done, mk, kind, was)
    ensures var about := IsVersionLabel(text) && MapKey(Parsed(text)) == mk && KindOf(text) == kind;
            ComesFrom(done[text := value], mk, kind, if about then value else was)
  {
    var done' := done[text := value];
    assert forall t :: IsAbout(done', t, mk) <==> IsAbout(done, t, mk) || (t == text && IsVersionLabel(text) && MapKey(Parsed(text)) == mk);
    if IsVersionLabel(text) && MapKey(Parsed(text)) == mk && KindOf(text) == kind {
      assert IsAbout(done', text, mk);
    } else if t :| IsAbout(done, t, mk) && KindOf(t) == kind && done[t] == was {
      assert IsAbout(done', t, mk) && done'[t] == was;
    }
  }

  /** The values of one entry after one more label. */
  lemma EntryValueStep(m: map<string, ModuleLabels>, done: map<string, string>, text: string, value: string, mk: string, kind: Kind)
    requires IsGathered(m, done) && text !in done
    requires mk in m || (IsVersionLabel(text) && MapKey(Parsed(text)) == mk)
    ensures var l := if mk in m then m[mk].labels else Labels("", "", "");
            var l' := if IsVersionLabel(text) && MapKey(Parsed(text)) == mk then WithLabel(l, KindOf(text), value) else l;
            ComesFrom(done[text := value], mk, kind, LabelAt(l', kind))
  {
    if mk in m {
      ValueStep(done, text, value, mk, kind, LabelAt(m[mk].labels, kind));
    } else {
      assert forall t :: IsAbout(done, t, mk) ==> t in done && IsVersionLabel(t) && MapKey(Parsed(t)) in m;
      ValueStep(done, text, value, mk, kind, "");
    }
  }

  /** Keys and entries after one more label. */
  lemma GatherStep(m: map<string, ModuleLabels>, done: map<string, string>, text: string, value: string)
    requires IsGathered(m, done) && text !in done
    ensures IsGathered(if IsVersionLabel(text) then WithEntry(m, text, value) else m, done[text := value])
  {
    var m' := if IsVersionLabel(text) then WithEntry(m, text, value) else m;
    var done' := done[text := value];
    forall mk | mk in m'
      ensures exists t :: IsAbout(done', t, mk) && Parsed(t) == m'[mk].key
    {
      if mk in m {
        var t :| IsAbout(done, t, mk) && Parsed(t) == m[mk].key;
        assert IsAbout(done', t, mk) && Parsed(t) == m'[mk].key;
      } else {
        assert IsAbout(done', text, mk) && Parsed(text) == m'[mk].key;
      }
    }
    forall mk, kind | mk in m'
      ensures ComesFrom(done', mk, kind, LabelAt(m'[mk].labels, kind))
    {
      EntryValueStep(m, done, text, value, mk, kind);
    }
  }

  /** The parser's error path is never taken for a version label. */
  lemma VersionLabelParses(text: string)
    requires IsVersionLabel(text)
    ensures GetNamespaceNameFromVersionLabel(text).Some?
  {
    var kind := KindOf(text);
    PrefixChars(kind);
    assert text[..|Prefix(kind)|] == Prefix(kind);
    assert Prefix(kind)[if kind == ModuleVersion then 3 else 4] == '.';
    assert text[if kind == ModuleVersion then 3 else 4] == '.';
    SplitHasTwoParts(text, '.');
  }

  method GetLabelsPerModules(nodeLabels: map<string, string>) returns (m: map<string, ModuleLabels>)
    ensures IsGathered(m, nodeLabels)
    ensures WellFormed(nodeLabels) ==> IsPerModule(m, nodeLabels)
  {
    m := map[];
    var rest := nodeLabels.Keys;
    ghost var done: map<string, string> := map[];
    while rest != {}
      invariant done.Keys == nodeLabels.Keys - rest && rest <= nodeLabels.Keys
      invariant forall t :: t in done ==> done[t] == nodeLabels[t]
      invariant IsGathered(m, done)
      decreases rest
    {
      var text :| text in rest;
      GatherStep(m, done, text, nodeLabels[text]);
      if IsVersionLabel(text) {
        VersionLabelParses(text);
        if GetNamespaceNameFromVersionLabel(text).Some? {
          m := WithEntry(m, text, nodeLabels[text]);
        }
      }
      done := done[text := nodeLabels[text]];
      rest := rest - {text};
    }
    assert done == nodeLabels;
    if WellFormed(nodeLabels) {
      GatheredIsPerModule(m, nodeLabels);
    }
  }

  // ----- On well-formed labels -----

  lemma GatheredValue(nodeLabels: map<string, string>, k: Key, kind: Kind, value: string, text: string)
    requires WellFormed(nodeLabels) && IsAbout(nodeLabels, text, MapKey(k)) && Parsed(text) == k
    requires ComesFrom(nodeLabels, MapKey(k), kind, value)
    ensures value == Value(nodeLabels, LabelOf(kind, k))
  {
    LabelOfParses(kind, k);
    if t :| IsAbout(nodeLabels, t, MapKey(k)) && KindOf(t) == kind && nodeLabels[t] == value {
      assert Parsed(t) == k && t == LabelOf(kind, k);
    } else {
      assert !IsAbout(nodeLabels, LabelOf(kind, k), MapKey(k));
    }
  }

  lemma GatheredKey(m: map<string, ModuleLabels>, nodeLabels: map<string, string>, mk: string) returns (text: string)
    requires WellFormed(nodeLabels) && IsGathered(m, nodeLabels) && mk in m
    ensures DotFree(m[mk].key) && mk == MapKey(m[mk].key) && Has(nodeLabels, m[mk].key)
    ensures IsAbout(nodeLabels, text, mk) && Parsed(text) == m[mk].key
  {
    text :| IsAbout(nodeLabels, text, mk) && Parsed(text) == m[mk].key;
    assert LabelOf(KindOf(text), m[mk].key) in nodeLabels;
  }

  lemma GatheredEntry(m: map<string, ModuleLabels>, nodeLabels: map<string, string>, mk: string)
    requires WellFormed(nodeLabels) && IsGathered(m, nodeLabels) && mk in m
    ensures DotFree(m[mk].key) && mk == MapKey(m[mk].key) && Has(nodeLabels, m[mk].key)
    ensures m[mk].labels == Extract(nodeLabels, m[mk].key)
  {
    var text := GatheredKey(m, nodeLabels, mk);
    var k, l := m[mk].key, m[mk].labels;
    forall kind
      ensures LabelAt(l, kind) == Value(nodeLabels, LabelOf(kind, k))
    {
      GatheredValue(nodeLabels, k, kind, LabelAt(l, kind), text);
    }
    assert l == Labels(LabelAt(l, ModuleVersion), LabelAt(l, WorkerPodVersion), LabelAt(l, SchedulePodVersion));
  }

  function SomeKind(nodeLabels: map<string, string>, k: Key): Kind {
    if LabelOf(ModuleVersion, k) in nodeLabels then ModuleVersion
    else if LabelOf(WorkerPodVersion, k) in nodeLabels then WorkerPodVersion
    else SchedulePodVersion
  }

  /** Without collisions every entry is one module's own. */
  lemma GatheredIsPerModule(m: map<string, ModuleLabels>, nodeLabels: map<string, string>)
    requires WellFormed(nodeLabels) && IsGathered(m, nodeLabels)
    ensures IsPerModule(m, nodeLabels)
  {
    forall mk | mk in m
      ensures DotFree(m[mk].key) && mk == MapKey(m[mk].key) && Has(nodeLabels, m[mk].key)
      ensures m[mk].labels == Extract(nodeLabels, m[mk].key)
    {
      GatheredEntry(m, nodeLabels, mk);
    }
    forall k | DotFree(k) && Has(nodeLabels, k)
      ensures MapKey(k) in m && m[MapKey(k)].key == k
    {
      var text := LabelOf(SomeKind(nodeLabels, k), k);
      LabelOfParses(SomeKind(nodeLabels, k), k);
      var t :| IsAbout(nodeLabels, t, MapKey(k)) && Parsed(t) == m[MapKey(k)].key;
      assert text in nodeLabels && IsVersionLabel(text) && MapKey(Parsed(text)) == MapKey(Parsed(t));
    }
  }

  /** The hypothesis on map keys is needed: of two modules that share one, the loop leaves an entry for only one. */
  lemma CollidingModulesShareAnEntry(m: map<string, ModuleLabels>, nodeLabels: map<string, string>, j: Key, k: Key)
    requires IsGathered(m, nodeLabels) && j != k && MapKey(j) == MapKey(k)
    requires DotFree(j) && DotFree(k) && Has(nodeLabels, j) && Has(nodeLabels, k)
    ensures MapKey(k) in m
    ensures !((exists mk :: mk in m && m[mk].key == j) && exists mk :: mk in m && m[mk].key == k)
    ensures !IsPerModule(m, nodeLabels)
  {
    LabelOfParses(SomeKind(nodeLabels, k), k);
    assert LabelOf(SomeKind(nodeLabels, k), k) in nodeLabels;
    forall mk | mk in m
      ensures mk == MapKey(m[mk].key)
    {
      var t :| IsAbout(nodeLabels, t, mk) && Parsed(t) == m[mk].key;
    }
  }

  const DASH_LEFT := Key("a-b", "c")
  const DASH_RIGHT := Key("a", "b-c")

  lemma DashesCollide()
    ensures DotFree(DASH_LEFT) && DotFree(DASH_RIGHT) && DASH_LEFT != DASH_RIGHT && MapKey(DASH_LEFT) == MapKey(DASH_RIGHT)
  {
    assert "a-b" + "-" + "c" == "a-b-c" == "a" + "-" + "b-c";
    assert |DASH_LEFT.name| != |DASH_RIGHT.name|;
  }

  /** A node with a version label for each of a-b/c and a/b-c: whatever order the loop takes, its map is not per module. */
  lemma MapKeysCanCollide(m: map<string, ModuleLabels>)
    requires IsGathered(m, map[LabelOf(ModuleVersion, DASH_LEFT) := "1", LabelOf(ModuleVersion, DASH_RIGHT) := "2"])
    ensures !IsPerModule(m, map[LabelOf(ModuleVersion, DASH_LEFT) := "1", LabelOf(ModuleVersion, DASH_RIGHT) := "2"])
  {
    DashesCollide();
    CollidingModulesShareAnEntry(m, map[LabelOf(ModuleVersion, DASH_LEFT) := "1", LabelOf(ModuleVersion, DASH_RIGHT) := "2"], DASH_LEFT, DASH_RIGHT);
  }

  method GetLoadedKernelModules(nodeLabels: map<string, string>) returns (loaded: seq<Key>)
    ensures forall k :: k in loaded <==> Ready(nodeLabels, k)
  {
    loaded := [];
    var rest := nodeLabels.Keys;
    while rest != {}
      invariant rest <= nodeLabels.Keys
      invariant forall k :: k in loaded <==> exists t :: t in nodeLabels && t !in rest && IsKernelModuleReadyLabel(t) == Some(k)
      decreases rest
    {
      var text :| text in rest;
      ghost var was := loaded;
      match IsKernelModuleReadyLabel(text) {
        case None =>
        case Some(k) => loaded := loaded + [k];
      }
      rest := rest - {text};
      forall k
        ensures k in loaded <==> exists t :: t in nodeLabels && t !in rest && IsKernelModuleReadyLabel(t) == Some(k)
      {
        assert k in loaded <==> k in was || IsKernelModuleReadyLabel(text) == Some(k);
      }
    }
  }

  // ----- Deciding -----

  function DecisionFor(e: ModuleLabels, pods: seq<Key>, loaded: seq<Key>): Decision {
    Decide(e.labels, e.key in pods, e.key in loaded)
  }

  /** A module and what is decided for it. */
  datatype Ask = Ask(key: Key, decision: Decision)

  function Plan(m: map<string, ModuleLabels>, pods: seq<Key>, loaded: seq<Key>): map<string, Ask> {
    map mk | mk in m :: Ask(m[mk].key, DecisionFor(m[mk], pods, loaded))
  }

  ghost predicate Asks(plan: map<string, Ask>, mk: string, d: Decision, text: string) {
    mk in plan && plan[mk].decision == d && d != Keep && text == LabelOf(d.kind, plan[mk].key)
  }

  /** The additions and deletions are exactly those asked for. */
  ghost predicate Collected(plan: map<string, Ask>, adds: map<string, string>, deletes: seq<string>) {
    && (forall mk, d, t :: Asks(plan, mk, d, t) ==> if d.Remove? then t in deletes else t in adds)
    && (forall t :: t in deletes ==> exists mk, kind :: Asks(plan, mk, Remove(kind), t))
    && (forall t :: t in adds ==> exists mk, kind :: Asks(plan, mk, Set(kind, adds[t]), t))
  }

  lemma CollectedStep(plan: map<string, Ask>, adds: map<string, string>, deletes: seq<string>, mk: string, a: Ask)
    requires Collected(plan, adds, deletes) && mk !in plan
    ensures var d := a.decision;
            Collected(plan[mk := a],
                      if d.Set? then adds[LabelOf(d.kind, a.key) := d.value] else adds,
                      if d.Remove? then deletes + [LabelOf(d.kind, a.key)] else deletes)
  {
    var d := a.decision;
    var plan' := plan[mk := a];
    var adds' := if d.Set? then adds[LabelOf(d.kind, a.key) := d.value] else adds;
    var deletes' := if d.Remove? then deletes + [LabelOf(d.kind, a.key)] else deletes;
    forall k, c, t | Asks(plan', k, c, t)
      ensures if c.Remove? then t in deletes' else t in adds'
    {
      assert k != mk ==> Asks(plan, k, c, t);
    }
    forall t | t in deletes'
      ensures exists k, kind :: Asks(plan', k, Remove(kind), t)
    {
      if t in deletes {
        var k, kind :| Asks(plan, k, Remove(kind), t);
        assert Asks(plan', k, Remove(kind), t);
      } else {
        assert Asks(plan', mk, Remove(d.kind), t);
      }
    }
    forall t | t in adds'
      ensures exists k, kind :: Asks(plan', k, Set(kind, adds'[t]), t)
    {
      if d.Set? && t == LabelOf(d.kind, a.key) {
        assert Asks(plan', mk, Set(d.kind, adds'[t]), t);
      } else {
        var k, kind :| Asks(plan, k, Set(kind, adds[t]), t);
        assert Asks(plan', k, Set(kind, adds'[t]), t);
      }
    }
  }

  method ReconcileLabels(m: map<string, ModuleLabels>, pods: seq<Key>, loaded: seq<Key>)
    returns (adds: map<string, string>, deletes: seq<string>, requeue: bool)
    ensures Collected(Plan(m, pods, loaded), adds, deletes)
    ensures requeue <==> exists mk :: mk in m && Waits(m[mk].labels, m[mk].key in pods, m[mk].key in loaded)
  {
    adds, deletes, requeue := map[], [], false;
    var rest := m.Keys;
    ghost var plan := Plan(m, pods, loaded);
    ghost var done: map<string, Ask> := map[];
    while rest != {}
      invariant rest <= m.Keys && done.Keys == m.Keys - rest
      invariant forall mk :: mk in done ==> done[mk] == plan[mk]
      invariant Collected(done, adds, deletes)
      invariant requeue <==> exists mk :: mk in done && Waits(m[mk].labels, m[mk].key in pods, m[mk].key in loaded)
      decreases rest
    {
      var mk :| mk in rest;
      var e := m[mk];
      CollectedStep(done, adds, deletes, mk, plan[mk]);
      DecisionIff(e.labels, e.key in pods, e.key in loaded);
      match LabelAndAction(e.labels) {
        case Keep =>
        case Remove(kind) =>
          if kind == WorkerPodVersion && e.key in pods {
            requeue := true;
          } else {
            deletes := deletes + [LabelOf(kind, e.key)];
          }
        case Set(kind, value) =>
          if kind == WorkerPodVersion && e.key in loaded {
            requeue := true;
          } else {
            adds := adds[LabelOf(kind, e.key) := value];
          }
      }
      done := done[mk := plan[mk]];
      rest := rest - {mk};
    }
    assert done == plan;
  }

  // ----- Patching the node -----

  /** The node's labels after a patch: deletions win, then additions, then what is there. */
  ghost predicate IsPatched(updated: map<string, string>, current: map<string, string>, adds: map<string, string>, deletes: seq<string>) {
    forall t :: Lookup(updated, t) == if t in deletes then None else if t in adds then Some(adds[t]) else Lookup(current, t)
  }

  method UpdateNodeLabels(current: map<string, string>, adds: map<string, string>, deletes: seq<string>)
    returns (updated: map<string, string>)
    ensures IsPatched(updated, current, adds, deletes)
  {
    updated := current;
    var rest := adds.Keys;
    while rest != {}
      invariant rest <= adds.Keys
      invariant forall t :: Lookup(updated, t) == if t in adds && t !in rest then Some(adds[t]) else Lookup(current, t)
      decreases rest
    {
      var text :| text in rest;
      updated := updated[text := adds[text]];
      rest := rest - {text};
    }
    for i := 0 to |deletes|
      invariant forall t :: Lookup(updated, t) == if t in deletes[..i] then None else if t in adds then Some(adds[t]) else Lookup(current, t)
    {
      PrefixStep(deletes, i);
      updated := Put(updated, deletes[i], None);
    }
    assert deletes[..|deletes|] == deletes;
  }

  // ----- The whole pass -----

  /** What the single-module protocol decides for module `k` from the labels and pods read. */
  ghost function ModuleDecision(nodeLabels: map<string, string>, pods: seq<Key>, k: Key): Decision {
    if Has(nodeLabels, k) then Decide(Extract(nodeLabels, k), k in pods, Ready(nodeLabels, k)) else Keep
  }

  /** The plan has the single-module decision of every module read, and nothing else. */
  ghost predicate IsPlanFor(plan: map<string, Ask>, read: map<string, string>, pods: seq<Key>) {
    && (forall mk :: mk in plan ==> DotFree(plan[mk].key) && Has(read, plan[mk].key)
                                    && plan[mk].decision == ModuleDecision(read, pods, plan[mk].key))
    && (forall k :: DotFree(k) && Has(read, k) ==> exists mk :: mk in plan && plan[mk].key == k)
  }

  lemma PlanIsForAll(m: map<string, ModuleLabels>, read: map<string, string>, pods: seq<Key>, loaded: seq<Key>)
    requires IsPerModule(m, read) && (forall j :: j in loaded <==> Ready(read, j))
    ensures IsPlanFor(Plan(m, pods, loaded), read, pods)
  {
    forall k | DotFree(k) && Has(read, k)
      ensures exists mk :: mk in Plan(m, pods, loaded) && Plan(m, pods, loaded)[mk].key == k
    {
      assert MapKey(k) in Plan(m, pods, loaded) && Plan(m, pods, loaded)[MapKey(k)].key == k;
    }
  }

  /** A patched label of module `k` is the one its own decision names. */
  lemma PatchedLabelIsOwn(plan: map<string, Ask>, read: map<string, string>, pods: seq<Key>, mk: string, d: Decision, k: Key, kind: Kind)
    requires IsPlanFor(plan, read, pods) && DotFree(k) && Asks(plan, mk, d, LabelOf(kind, k))
    ensures d == ModuleDecision(read, pods, k) && d != Keep && d.kind == kind
  {
    VersionLabelsInjective(d.kind, plan[mk].key, kind, k);
  }

  lemma PassOnLabel(plan: map<string, Ask>, read: map<string, string>, pods: seq<Key>,
                    adds: map<string, string>, deletes: seq<string>, k: Key, kind: Kind)
    requires IsPlanFor(plan, read, pods) && Collected(plan, adds, deletes) && DotFree(k)
    ensures var d := ModuleDecision(read, pods, k);
            var t := LabelOf(kind, k);
            && (t in deletes <==> d == Remove(kind))
            && (t in adds <==> d.Set? && d.kind == kind)
            && (t in adds ==> adds[t] == d.value)
  {
    var t := LabelOf(kind, k);
    var d := ModuleDecision(read, pods, k);
    if t in deletes {
      var mk, c :| Asks(plan, mk, Remove(c), t);
      PatchedLabelIsOwn(plan, read, pods, mk, Remove(c), k, kind);
    }
    if t in adds {
      var mk, c :| Asks(plan, mk, Set(c, adds[t]), t);
      PatchedLabelIsOwn(plan, read, pods, mk, Set(c, adds[t]), k, kind);
    }
    if d != Keep && d.kind == kind {
      var mk :| mk in plan && plan[mk].key == k;
      assert Asks(plan, mk, d, t);
    }
  }

  lemma PassOnModule(plan: map<string, Ask>, read: map<string, string>, pods: seq<Key>,
                     adds: map<string, string>, deletes: seq<string>, current: map<string, string>, updated: map<string, string>, k: Key)
    requires IsPlanFor(plan, read, pods) && Collected(plan, adds, deletes) && DotFree(k)
    requires IsPatched(updated, current, adds, deletes)
    ensures Extract(updated, k) == Apply(Extract(current, k), ModuleDecision(read, pods, k))
  {
    PatchedValue(plan, read, pods, adds, deletes, current, updated, k, ModuleVersion);
    PatchedValue(plan, read, pods, adds, deletes, current, updated, k, WorkerPodVersion);
    PatchedValue(plan, read, pods, adds, deletes, current, updated, k, SchedulePodVersion);
  }

  lemma PatchedValue(plan: map<string, Ask>, read: map<string, string>, pods: seq<Key>, adds: map<string, string>, deletes: seq<string>,
                     current: map<string, string>, updated: map<string, string>, k: Key, kind: Kind)
    requires IsPlanFor(plan, read, pods) && Collected(plan, adds, deletes) && DotFree(k)
    requires IsPatched(updated, current, adds, deletes)
    ensures var d := ModuleDecision(read, pods, k);
            Value(updated, LabelOf(kind, k)) ==
            if d == Keep || d.kind != kind then Value(current, LabelOf(kind, k)) else if d.Set? then d.value else ""
  {
    PassOnLabel(plan, read, pods, adds, deletes, k, kind);
    assert Lookup(updated, LabelOf(kind, k)).Some? <==> LabelOf(kind, k) in updated;
  }

  /** The pass may touch this label: a worker-pod or schedule-pod version label of a module some version label of the node names. */
  ghost predicate MayTouch(read: map<string, string>, text: string) {
    exists t :: t in read && IsVersionLabel(t) && (text == LabelOf(WorkerPodVersion, Parsed(t)) || text == LabelOf(SchedulePodVersion, Parsed(t)))
  }

  /** No module's own version label is ever written. */
  lemma NeverModuleLabel(l: Labels, hasPods: bool, ready: bool)
    ensures var d := Decide(l, hasPods, ready); d == Keep || d.kind != ModuleVersion
  {
  }

  lemma AskedMayBeTouched(m: map<string, ModuleLabels>, read: map<string, string>, pods: seq<Key>, loaded: seq<Key>, mk: string, d: Decision, text: string)
    requires IsGathered(m, read) && Asks(Plan(m, pods, loaded), mk, d, text)
    ensures MayTouch(read, text)
  {
    NeverModuleLabel(m[mk].labels, m[mk].key in pods, m[mk].key in loaded);
    var t :| IsAbout(read, t, mk) && Parsed(t) == m[mk].key;
    assert t in read && IsVersionLabel(t);
  }

  lemma TouchedWasAsked(m: map<string, ModuleLabels>, read: map<string, string>, pods: seq<Key>, loaded: seq<Key>,
                        adds: map<string, string>, deletes: seq<string>, current: map<string, string>, updated: map<string, string>, t: string)
    requires IsGathered(m, read) && Collected(Plan(m, pods, loaded), adds, deletes)
    requires IsPatched(updated, current, adds, deletes) && Lookup(updated, t) != Lookup(current, t)
    ensures MayTouch(read, t)
  {
    if t in deletes {
      var mk, c :| Asks(Plan(m, pods, loaded), mk, Remove(c), t);
      AskedMayBeTouched(m, read, pods, loaded, mk, Remove(c), t);
    } else {
      var mk, c :| Asks(Plan(m, pods, loaded), mk, Set(c, adds[t]), t);
      AskedMayBeTouched(m, read, pods, loaded, mk, Set(c, adds[t]), t);
    }
  }

  /** No label is both added and deleted, so the order of the two loops of the patch does not matter. */
  lemma AddsAndDeletesAreDisjoint(plan: map<string, Ask>, read: map<string, string>, pods: seq<Key>,
                                  adds: map<string, string>, deletes: seq<string>)
    requires IsPlanFor(plan, read, pods) && Collected(plan, adds, deletes)
    ensures forall t :: t in adds ==> t !in deletes
  {
    forall t | t in adds
      ensures t !in deletes
    {
      var mk, kind :| Asks(plan, mk, Set(kind, adds[t]), t);
      PassOnLabel(plan, read, pods, adds, deletes, plan[mk].key, kind);
    }
  }

  lemma RequeueByModule(m: map<string, ModuleLabels>, read: map<string, string>, pods: seq<Key>, loaded: seq<Key>)
    requires IsPerModule(m, read) && (forall j :: j in loaded <==> Ready(read, j))
    ensures (exists mk :: mk in m && Waits(m[mk].labels, m[mk].key in pods, m[mk].key in loaded))
       <==> (exists k :: DotFree(k) && Waits(Extract(read, k), k in pods, Ready(read, k)))
  {
    if mk :| mk in m && Waits(m[mk].labels, m[mk].key in pods, m[mk].key in loaded) {
      var k := m[mk].key;
      assert DotFree(k) && Waits(Extract(read, k), k in pods, Ready(read, k));
    }
    if k :| DotFree(k) && Waits(Extract(read, k), k in pods, Ready(read, k)) {
      assert Has(read, k);
      assert MapKey(k) in m;
    }
  }

  /** A module a version label names is dot-free. */
  lemma ParsedIsDotFree(text: string)
    ensures DotFree(Parsed(text))
  {
    SplitPartsHaveNoSeparator(text, '.');
  }

  /** On any labels: a worker label is set only for a module without a ready label, and removed only for one without schedule pods. */
  lemma WorkerLabelIsClear(m: map<string, ModuleLabels>, read: map<string, string>, pods: seq<Key>, loaded: seq<Key>, mk: string, d: Decision, k: Key)
    requires IsGathered(m, read) && (forall j :: j in loaded <==> Ready(read, j)) && DotFree(k)
    requires Asks(Plan(m, pods, loaded), mk, d, LabelOf(WorkerPodVersion, k))
    ensures if d.Set? then !Ready(read, k) else k !in pods
  {
    var t :| IsAbout(read, t, mk) && Parsed(t) == m[mk].key;
    ParsedIsDotFree(t);
    VersionLabelsInjective(d.kind, m[mk].key, WorkerPodVersion, k);
    DecisionIff(m[mk].labels, k in pods, k in loaded);
  }

  lemma WorkerLabelWasClear(m: map<string, ModuleLabels>, read: map<string, string>, pods: seq<Key>, loaded: seq<Key>,
                            adds: map<string, string>, deletes: seq<string>, current: map<string, string>, updated: map<string, string>, k: Key)
    requires IsGathered(m, read) && (forall j :: j in loaded <==> Ready(read, j)) && DotFree(k)
    requires Collected(Plan(m, pods, loaded), adds, deletes) && IsPatched(updated, current, adds, deletes)
    ensures WorkerLabelMoves(current, updated, k) ==> if LabelOf(WorkerPodVersion, k) in updated then !Ready(read, k) else k !in pods
  {
    var t := LabelOf(WorkerPodVersion, k);
    if t in deletes {
      var mk, c :| Asks(Plan(m, pods, loaded), mk, Remove(c), t);
      WorkerLabelIsClear(m, read, pods, loaded, mk, Remove(c), k);
      assert Lookup(updated, t) == None;
    } else if t in adds {
      var mk, c :| Asks(Plan(m, pods, loaded), mk, Set(c, adds[t]), t);
      WorkerLabelIsClear(m, read, pods, loaded, mk, Set(c, adds[t]), k);
      assert Lookup(updated, t) == Some(adds[t]);
    }
  }

  /** The pass gave the module another worker label, or took it away. */
  predicate WorkerLabelMoves(current: map<string, string>, updated: map<string, string>, k: Key) {
    Lookup(updated, LabelOf(WorkerPodVersion, k)) != Lookup(current, LabelOf(WorkerPodVersion, k))
  }

  /**
   Reads the node once, lists its schedule pods, reads the node again and patches it. On each module
   this is the single-module protocol, whatever order the maps are visited in and whatever changed on
   the node in between, and it is requeued exactly when some module has to wait. On any labels at all,
   only worker-pod and schedule-pod labels of modules named on the node are touched, a worker label is
   set only where no ready label was read and removed only where no schedule pod was listed.
   */
  method Reconcile(read: map<string, string>, pods: seq<Key>, current: map<string, string>)
    returns (updated: map<string, string>, requeue: bool)
    ensures WellFormed(read) ==> forall k :: DotFree(k) ==>
              Extract(updated, k) == Apply(Extract(current, k), ModuleDecision(read, pods, k))
    ensures forall t :: Lookup(updated, t) != Lookup(current, t) ==> MayTouch(read, t)
    ensures forall k :: DotFree(k) && WorkerLabelMoves(current, updated, k) ==>
              if LabelOf(WorkerPodVersion, k) in updated then !Ready(read, k) else k !in pods
    ensures WellFormed(read) ==> (requeue <==> exists k :: DotFree(k) && Waits(Extract(read, k), k in pods, Ready(read, k)))
  {
    var m := GetLabelsPerModules(read);
    var loaded := GetLoadedKernelModules(read);
    var adds, deletes;
    adds, deletes, requeue := ReconcileLabels(m, pods, loaded);
    updated := UpdateNodeLabels(current, adds, deletes);
    forall t | Lookup(updated, t) != Lookup(current, t)
      ensures MayTouch(read, t)
    {
      TouchedWasAsked(m, read, pods, loaded, adds, deletes, current, updated, t);
    }
    forall k | DotFree(k)
      ensures WorkerLabelMoves(current, updated, k) ==> if LabelOf(WorkerPodVersion, k) in updated then !Ready(read, k) else k !in pods
    {
      WorkerLabelWasClear(m, read, pods, loaded, adds, deletes, current, updated, k);
    }
    if WellFormed(read) {
      ghost var plan := Plan(m, pods, loaded);
      PlanIsForAll(m, read, pods, loaded);
      forall k | DotFree(k)
        ensures Extract(updated, k) == Apply(Extract(current, k), ModuleDecision(read, pods, k))
      {
        PassOnModule(plan, read, pods, adds, deletes, current, updated, k);
      }
      RequeueByModule(m, read, pods, loaded);
    }
  }
}
