/**
 Which nodes the Module reconciler enables or disables a module on
 (internal/controllers/module_reconciler.go:323-350, 632-659).
 */
module Scheduling {
  import opened Basics
  import opened LabelCodecs
  import opened VersionLabelPass
  import Upgrade = OrderedUpgrade

  /** What the kernel mapper found for a node: module loader data with its version, no mapping, or an internal error. */
  datatype Mapping = Resolved(version: string) | NoMapping | Failed

  datatype Node = Node(name: string, labels: map<string, string>, mapping: Mapping)

  datatype Action = Leave | Add | Delete

  function NodeAction(node: Node, mod: Key, nmcs: set<string>): Action
    requires !node.mapping.Failed?
  {
    var text := LabelOf(WorkerPodVersion, mod);
    match node.mapping
    case NoMapping => if node.name in nmcs then Delete else Leave
    case Resolved(version) =>
      if version == "" then Add
      else if text !in node.labels then Delete
      else if node.labels[text] == version then Add
      else Leave
  }

  /** Whether the node's NMC has the module once the action is carried out. */
  predicate Configured(action: Action, before: bool) {
    match action
    case Leave => before
    case Add => true
    case Delete => false
  }

  /**
   The module ends up configured where its version may run: everywhere when it has no version, where
   the worker-pod label names its version, and where another version is still being moved off it
   stays as it is; nowhere else.
   */
  lemma NodeActionMeaning(node: Node, mod: Key, nmcs: set<string>)
    requires !node.mapping.Failed?
    ensures var before := node.name in nmcs;
            var worker := Lookup(node.labels, LabelOf(WorkerPodVersion, mod));
            Configured(NodeAction(node, mod, nmcs), before) <==>
              node.mapping.Resolved? && (node.mapping.version == "" || (worker.Some? && (worker.value == node.mapping.version || before)))
    ensures NodeAction(node, mod, nmcs) == Add <==>
              node.mapping.Resolved? && (node.mapping.version == "" || Lookup(node.labels, LabelOf(WorkerPodVersion, mod)) == Some(node.mapping.version))
    ensures NodeAction(node, mod, nmcs) == Delete <==>
              if node.mapping.NoMapping? then node.name in nmcs else node.mapping.version != "" && LabelOf(WorkerPodVersion, mod) !in node.labels
  {
  }

  predicate DistinctNames(nodes: seq<Node>) {
    forall i, j :: 0 <= i < j < |nodes| ==> nodes[i].name != nodes[j].name
  }

  predicate Targeted(nodes: seq<Node>, name: string) {
    exists i :: 0 <= i < |nodes| && nodes[i].name == name
  }

  /**
   A node whose mapping errored is never touched, every other targeted node gets its own action, and
   every NMC outside the targeted nodes gets a delete.
   */
  method PrepareSchedulingData(nodes: seq<Node>, mod: Key, nmcs: set<string>) returns (result: map<string, Action>, errs: seq<string>)
    requires DistinctNames(nodes)
    ensures forall i :: 0 <= i < |nodes| ==>
              Lookup(result, nodes[i].name) == if nodes[i].mapping.Failed? then None else Some(NodeAction(nodes[i], mod, nmcs))
    ensures forall name :: !Targeted(nodes, name) ==> Lookup(result, name) == if name in nmcs then Some(Delete) else None
    ensures forall i :: 0 <= i < |nodes| ==> (nodes[i].name in errs <==> nodes[i].mapping.Failed?)
  {
    result, errs := map[], [];
    var current := nmcs;
    for i := 0 to |nodes|
      invariant forall name :: name in current <==> name in nmcs && !Targeted(nodes[..i], name)
      invariant forall j :: 0 <= j < i ==>
                  Lookup(result, nodes[j].name) == if nodes[j].mapping.Failed? then None else Some(NodeAction(nodes[j], mod, nmcs))
      invariant forall name :: name in result || name in errs ==> Targeted(nodes[..i], name)
      invariant forall j :: 0 <= j < i ==> (nodes[j].name in errs <==> nodes[j].mapping.Failed?)
    {
      var node := nodes[i];
      TargetedStep(nodes, i);
      assert !Targeted(nodes[..i], node.name);
      if node.mapping.Failed? {
        current := current - {node.name};
        errs := errs + [node.name];
      } else {
        var action := NodeAction(node, mod, current);
        result := result[node.name := action];
        current := current - {node.name};
      }
    }
    assert nodes[..|nodes|] == nodes;
    result := result + map name | name in current :: Delete;
  }

  lemma TargetedStep(nodes: seq<Node>, i: nat)
    requires i < |nodes|
    ensures forall name :: Targeted(nodes[..i + 1], name) <==> Targeted(nodes[..i], name) || nodes[i].name == name
  {
    forall name
      ensures Targeted(nodes[..i + 1], name) <==> Targeted(nodes[..i], name) || nodes[i].name == name
    {
      if Targeted(nodes[..i], name) {
        var j :| 0 <= j < i && nodes[..i][j].name == name;
        assert nodes[..i + 1][j].name == name;
      }
      if nodes[i].name == name {
        assert nodes[..i + 1][i].name == name;
      }
      if Targeted(nodes[..i + 1], name) && nodes[i].name != name {
        var j :| 0 <= j < i + 1 && nodes[..i + 1][j].name == name;
        assert nodes[..i][j].name == name;
      }
    }
  }

  /**
   Composed with the upgrade protocol: after any run of it, while a schedule pod of version v is on a
   targeted node, a versioned mapping never disables the module there and enables it only for v.
   */
  lemma SchedulePodKeepsItsVersion(steps: seq<Upgrade.Step>, node: Node, mod: Key, nmcs: set<string>, v: string)
    requires Upgrade.IsRun(Upgrade.START, steps)
    requires Extract(node.labels, mod) == Upgrade.After(Upgrade.START, steps).labels
    requires v in Upgrade.After(Upgrade.START, steps).pods && v != ""
    requires node.mapping.Resolved? && node.mapping.version != ""
    ensures NodeAction(node, mod, nmcs) == if node.mapping.version == v then Add else Leave
  {
    Upgrade.UpgradeSafety(steps);
  }
}
