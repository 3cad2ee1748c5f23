/** Declarative convergence of a Module's DeviceClasses (internal/controllers/dra_reconciler.go:502-564). */
module DeviceClasses {
  import opened Basics

  /** `owner` is the Module named by the class's labels. */
  datatype DeviceClass = DeviceClass(owner: Option<Key>, spec: string)

  datatype Desired = Desired(name: string, spec: string)

  /** The spec that counts for a name: the last one listed. */
  function Wanted(desired: seq<Desired>, name: string): Option<string> {
    if desired == [] then None
    else
      var last := desired[|desired| - 1];
      if last.name == name then Some(last.spec) else Wanted(desired[..|desired| - 1], name)
  }

  /** What a pass makes of one class, given the names it had listed as the Module's own. */
  function Outcome(classes: map<string, DeviceClass>, mod: Key, listed: seq<string>, desired: seq<Desired>, failing: set<string>, name: string)
    : Option<DeviceClass>
  {
    if name in failing then Lookup(classes, name)
    else
      match Wanted(desired, name)
      case Some(spec) => Some(DeviceClass(Some(mod), spec))
      case None => if name in listed then None else Lookup(classes, name)
  }

  class DraReconciler {
    var classes: map<string, DeviceClass>

    method HandleDeviceClasses(mod: Key, listed: seq<string>, desired: seq<Desired>, failing: set<string>) returns (failed: bool)
      modifies this
      ensures forall name :: Lookup(classes, name) == Outcome(old(classes), mod, listed, desired, failing, name)
      ensures forall name :: name in failing ==> Lookup(classes, name) == Lookup(old(classes), name)
      ensures failed <==> exists name :: name in failing && (Wanted(desired, name).Some? || name in listed)
    {
      var existing := set name | name in listed;
      failed := false;
      for i := 0 to |desired|
        invariant forall name :: name in existing <==> name in listed && Wanted(desired[..i], name).None?
        invariant forall name :: Lookup(classes, name) == Outcome(old(classes), mod, [], desired[..i], failing, name)
        invariant failed <==> exists name :: name in failing && Wanted(desired[..i], name).Some?
      {
        var d := desired[i];
        WantedStep(desired, i);
        if d.name in failing {
          failed := true;
        } else {
          classes := Put(classes, d.name, Some(DeviceClass(Some(mod), d.spec)));
        }
        existing := existing - {d.name};
      }
      assert desired[..|desired|] == desired;
      var staleFailed := DeleteStale(existing, failing);
      failed := failed || staleFailed;
    }

    /** Deletes the classes that are no longer desired. */
    method DeleteStale(stale: set<string>, failing: set<string>) returns (failed: bool)
      modifies this
      ensures forall name :: Lookup(classes, name) == if name in stale && name !in failing then None else Lookup(old(classes), name)
      ensures failed <==> exists name :: name in failing && name in stale
    {
      var rest := stale;
      failed := false;
      while rest != {}
        invariant rest <= stale
        invariant forall name :: Lookup(classes, name) == if name in stale - rest && name !in failing then None else Lookup(old(classes), name)
        invariant failed <==> exists name :: name in failing && name in stale && name !in rest
        decreases rest
      {
        var name :| name in rest;
        if name in failing {
          failed := true;
        } else {
          classes := Put(classes, name, None);
        }
        rest := rest - {name};
      }
    }
  }

  /** Of several entries for one name the last one counts. */
  lemma {:induction false} WantedIsLast(desired: seq<Desired>, name: string, i: nat)
    requires i <= |desired| && (forall j :: i < j < |desired| ==> desired[j].name != name) && (i < |desired| ==> desired[i].name == name)
    requires i == |desired| ==> forall j :: 0 <= j < |desired| ==> desired[j].name != name
    ensures Wanted(desired, name) == if i < |desired| then Some(desired[i].spec) else None
    decreases |desired|
  {
    if desired != [] && i != |desired| - 1 {
      var front := desired[..|desired| - 1];
      assert forall j :: 0 <= j < |front| ==> front[j] == desired[j];
      WantedIsLast(front, name, if i < |desired| then i else |front|);
    }
  }

  lemma WantedStep(desired: seq<Desired>, i: nat)
    requires i < |desired|
    ensures forall name :: Wanted(desired[..i + 1], name) == if desired[i].name == name then Some(desired[i].spec) else Wanted(desired[..i], name)
  {
    var p := desired[..i + 1];
    assert p != [] && p[|p| - 1] == desired[i] && p[..|p| - 1] == desired[..i];
    forall name
      ensures Wanted(p, name) == if desired[i].name == name then Some(desired[i].spec) else Wanted(desired[..i], name)
    {
    }
  }

  ghost predicate IsOutcome(after: map<string, DeviceClass>, classes: map<string, DeviceClass>, mod: Key, listed: seq<string>, desired: seq<Desired>) {
    forall name :: Lookup(after, name) == Outcome(classes, mod, listed, desired, {}, name)
  }

  ghost predicate Owned(classes: map<string, DeviceClass>, mod: Key, name: string) {
    name in classes && classes[name].owner == Some(mod)
  }

  /**
   A pass without failures, started from an up-to-date listing, leaves the Module owning exactly the
   desired classes with the desired specs, and every class that was not its own and is not desired as
   it was; a second pass then changes nothing.
   */
  lemma PassConverges(classes: map<string, DeviceClass>, after: map<string, DeviceClass>, mod: Key, listed: seq<string>, desired: seq<Desired>)
    requires forall name :: name in listed <==> Owned(classes, mod, name)
    requires IsOutcome(after, classes, mod, listed, desired)
    ensures forall name :: Owned(after, mod, name) <==> Wanted(desired, name).Some?
    ensures forall name :: Owned(after, mod, name) ==> Wanted(desired, name) == Some(after[name].spec)
    ensures forall name :: !Owned(after, mod, name) && !Owned(classes, mod, name) ==> Lookup(after, name) == Lookup(classes, name)
    ensures forall again: map<string, DeviceClass>, relisted: seq<string> ::
              (forall name :: name in relisted <==> Owned(after, mod, name)) && IsOutcome(again, after, mod, relisted, desired) ==> again == after
  {
    forall name
      ensures Owned(after, mod, name) <==> Wanted(desired, name).Some?
      ensures Owned(after, mod, name) ==> Wanted(desired, name) == Some(after[name].spec)
      ensures !Owned(after, mod, name) && !Owned(classes, mod, name) ==> Lookup(after, name) == Lookup(classes, name)
    {
      assert Lookup(after, name) == Outcome(classes, mod, listed, desired, {}, name);
    }
    forall again: map<string, DeviceClass>, relisted: seq<string> |
      (forall name :: name in relisted <==> Owned(after, mod, name)) && IsOutcome(again, after, mod, relisted, desired)
      ensures again == after
    {
      forall name
        ensures Lookup(again, name) == Lookup(after, name)
      {
        assert Lookup(again, name) == Outcome(after, mod, relisted, desired, {}, name);
      }
      MapsEqualByLookup(again, after);
    }
  }
}
