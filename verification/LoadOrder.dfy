/**
 The order in which dependent kernel modules are loaded and unloaded: the loading order accepted by
 the webhook (internal/webhook/module.go:313-349), the softdep lines written for modprobe
 (internal/pod/workerpodmanager.go:661-667) and the unload arguments (internal/worker/worker.go:141-162).
 */
module LoadOrder {
  import opened Basics
  import opened Strings
  import opened Paths

  datatype Args = Args(load: seq<string>, unload: seq<string>)

  /** `order` is `None` when no loading order is given. */
  datatype Modprobe = Modprobe(moduleName: string, dir: string, rawArgs: Option<Args>, args: Option<Args>,
                               parameters: seq<string>, order: Option<seq<string>>, modprobedDir: string)

  ghost predicate Distinct(names: seq<string>) {
    forall i, j :: 0 <= i < j < |names| ==> names[i] != names[j]
  }

  // ----- Validation -----

  ghost predicate OrderIsValid(m: Modprobe) {
    match m.order
    case None => true
    case Some(order) => |order| >= 2 && m.moduleName != "" && order[0] == m.moduleName && Distinct(order)
  }

  ghost predicate ArgsAreValid(m: Modprobe) {
    if m.moduleName != "" then m.rawArgs.Some? ==> m.rawArgs.value == Args([], [])
    else m.rawArgs.Some? && m.rawArgs.value.load != [] && m.rawArgs.value.unload != []
  }

  method ValidateModprobe(m: Modprobe) returns (ok: bool)
    ensures ok <==> ArgsAreValid(m) && OrderIsValid(m) && (m.modprobedDir != "" ==> IsPlainPath(m.modprobedDir))
  {
    WellFormedIff(m.modprobedDir);
    var named := m.moduleName != "";
    var rawLoad := m.rawArgs.Some? && |m.rawArgs.value.load| > 0;
    var rawUnload := m.rawArgs.Some? && |m.rawArgs.value.unload| > 0;
    if named {
      if rawLoad || rawUnload {
        return false;
      }
    } else if !rawLoad || !rawUnload {
      return false;
    }
    if m.order.Some? {
      var order := m.order.value;
      if |order| < 2 || !named || order[0] != m.moduleName {
        return false;
      }
      var seen: set<string> := {};
      for i := 0 to |order|
        invariant seen == set n | n in order[..i]
        invariant Distinct(order[..i])
      {
        if order[i] in seen {
          var j :| 0 <= j < i && order[j] == order[i];
          return false;
        }
        PrefixStep(order, i);
        seen := seen + {order[i]};
      }
      assert order[..|order|] == order;
    }
    return m.modprobedDir == "" || IsWellFormedAbsolutePath(m.modprobedDir);
  }

  // ----- Softdep lines -----

  function Line(a: string, b: string): string { "softdep " + a + " pre: " + b }

  function Softdeps(names: seq<string>): string {
    if |names| < 2 then "" else Line(names[0], names[1]) + "\n" + Softdeps(names[1..])
  }

  method GetModulesOrderAnnotationValue(names: seq<string>) returns (text: string)
    ensures text == Softdeps(names)
  {
    text := "";
    var i := 0;
    while i < |names| - 1
      invariant 0 <= i <= |names| && (names != [] ==> i < |names|)
      invariant text + Softdeps(names[i..]) == Softdeps(names)
    {
      SoftdepsStep(names, i);
      var line := Line(names[i], names[i + 1]) + "\n";
      Associative(text, line, Softdeps(names[i + 1..]));
      text := text + line;
      i := i + 1;
    }
    assert Softdeps(names[i..]) == "";
  }

  lemma SoftdepsStep(names: seq<string>, i: nat)
    requires i + 1 < |names|
    ensures Softdeps(names[i..]) == (Line(names[i], names[i + 1]) + "\n") + Softdeps(names[i + 1..])
  {
    assert names[i..][0] == names[i] && names[i..][1] == names[i + 1] && names[i..][1..] == names[i + 1..];
  }

  lemma Associative(a: string, b: string, c: string)
    ensures a + (b + c) == (a + b) + c
  {
  }

  // ----- What modprobe reads -----

  /** A backslash at the end of a line continues it. */
  function Unwrapped(text: string): string {
    if text == "" then ""
    else if |text| >= 2 && text[0] == '\\' && text[1] == '\n' then Unwrapped(text[2..])
    else [text[0]] + Unwrapped(text[1..])
  }

  function NonEmpty(parts: seq<string>): seq<string> {
    if parts == [] then [] else (if parts[0] == "" then [] else [parts[0]]) + NonEmpty(parts[1..])
  }

  /** The names after "pre:" and before "post:". */
  function PreDeps(tokens: seq<string>, inPre: bool): seq<string> {
    if tokens == [] then []
    else if tokens[0] == "pre:" then PreDeps(tokens[1..], true)
    else if tokens[0] == "post:" then PreDeps(tokens[1..], false)
    else (if inPre then [tokens[0]] else []) + PreDeps(tokens[1..], inPre)
  }

  /** The dependencies to load first; the first line about a module counts. */
  function ReadLines(lines: seq<string>): map<string, seq<string>> {
    if lines == [] then map[]
    else
      var tokens := NonEmpty(Split(lines[0], ' '));
      var rest := ReadLines(lines[1..]);
      if |tokens| >= 2 && tokens[0] == "softdep" then rest[tokens[1] := PreDeps(tokens[2..], false)] else rest
  }

  function ReadSoftdeps(text: string): map<string, seq<string>> {
    ReadLines(Split(Unwrapped(text), '\n'))
  }

  /** Loading `m`: its dependencies first, each module once, modules being loaded are not entered again. */
  function Load(deps: map<string, seq<string>>, m: string, active: set<string>, loaded: seq<string>): seq<string>
    decreases deps.Keys - active, 0
  {
    if m in active || m in loaded then loaded
    else if m !in deps then loaded + [m]
    else LoadEach(deps, deps[m], active + {m}, loaded) + [m]
  }

  function LoadEach(deps: map<string, seq<string>>, ms: seq<string>, active: set<string>, loaded: seq<string>): seq<string>
    decreases deps.Keys - active, 1 + |ms|
  {
    if ms == [] then loaded else LoadEach(deps, ms[1..], active, Load(deps, ms[0], active, loaded))
  }

  // ----- Reading back what was written -----

  /** A module name that modprobe's configuration can carry. */
  predicate IsPlain(name: string) {
    && name != "" && name != "pre:" && name != "post:"
    && ' ' !in name && '\t' !in name && '\n' !in name && '\\' !in name
  }

  ghost predicate ArePlain(names: seq<string>) { forall n :: n in names ==> IsPlain(n) }

  lemma {:induction false} UnwrappedIsSame(text: string)
    requires '\\' !in text
    ensures Unwrapped(text) == text
  {
    if text != "" {
      UnwrappedIsSame(text[1..]);
      assert text == [text[0]] + text[1..];
    }
  }

  lemma FourParts(a: string, b: string, c: string, d: string)
    requires ' ' !in a && ' ' !in b && ' ' !in c && ' ' !in d
    ensures Split(a + [' '] + (b + [' '] + (c + [' '] + d)), ' ') == [a, b, c, d]
  {
    SplitOfConcat(a, b + [' '] + (c + [' '] + d), ' ');
    SplitOfConcat(b, c + [' '] + d, ' ');
    SplitOfConcat(c, d, ' ');
    SplitOfPlain(a, ' ');
    SplitOfPlain(b, ' ');
    SplitOfPlain(c, ' ');
    SplitOfPlain(d, ' ');
  }

  lemma {:induction false} AllNonEmpty(parts: seq<string>)
    requires "" !in parts
    ensures NonEmpty(parts) == parts
  {
    if parts != [] {
      AllNonEmpty(parts[1..]);
      assert parts == [parts[0]] + parts[1..];
    }
  }

  lemma LineTokens(a: string, b: string)
    requires IsPlain(a) && IsPlain(b)
    ensures NonEmpty(Split(Line(a, b), ' ')) == ["softdep", a, "pre:", b]
  {
    assert Line(a, b) == "softdep" + [' '] + (a + [' '] + ("pre:" + [' '] + b));
    FourParts("softdep", a, "pre:", b);
    AllNonEmpty(["softdep", a, "pre:", b]);
  }

  lemma LineIsOneLine(a: string, b: string)
    requires IsPlain(a) && IsPlain(b)
    ensures '\n' !in Line(a, b) && '\\' !in Line(a, b)
  {
  }

  lemma {:induction false} NoBackslash(names: seq<string>)
    requires ArePlain(names)
    ensures '\\' !in Softdeps(names)
  {
    if |names| >= 2 {
      assert names[0] in names && names[1] in names;
      LineIsOneLine(names[0], names[1]);
      NoBackslash(names[1..]);
    }
  }

  /** Each module but the last waits for the next one in the list. */
  function Chain(names: seq<string>): map<string, seq<string>> {
    if |names| < 2 then map[] else Chain(names[1..])[names[0] := [names[1]]]
  }

  lemma OnePreDep(b: string)
    requires IsPlain(b)
    ensures PreDeps(["pre:", b], false) == [b]
  {
    assert ["pre:", b][1..] == [b] && [b][1..] == [];
    assert PreDeps([b], true) == [b] + PreDeps([], true);
  }

  lemma {:induction false} LinesReadBack(names: seq<string>)
    requires ArePlain(names)
    ensures ReadLines(Split(Softdeps(names), '\n')) == Chain(names)
  {
    if |names| < 2 {
      assert Split("", '\n') == [""] && NonEmpty(Split("", ' ')) == [];
      assert [""][1..] == [];
    } else {
      assert names[0] in names && names[1] in names;
      var line, rest := Line(names[0], names[1]), Softdeps(names[1..]);
      LineIsOneLine(names[0], names[1]);
      SplitOffLine(line, rest);
      LinesReadBack(names[1..]);
      ReadOneLine(names[0], names[1], Split(rest, '\n'));
    }
  }

  lemma SplitOffLine(line: string, rest: string)
    requires '\n' !in line
    ensures Split(line + "\n" + rest, '\n') == [line] + Split(rest, '\n')
  {
    SplitOfConcat(line, rest, '\n');
    SplitOfPlain(line, '\n');
  }

  lemma ReadOneLine(a: string, b: string, lines: seq<string>)
    requires IsPlain(a) && IsPlain(b)
    ensures ReadLines([Line(a, b)] + lines) == ReadLines(lines)[a := [b]]
  {
    LineTokens(a, b);
    OnePreDep(b);
    assert ([Line(a, b)] + lines)[1..] == lines;
    assert ["softdep", a, "pre:", b][2..] == ["pre:", b];
  }

  lemma SoftdepsReadBack(names: seq<string>)
    requires ArePlain(names)
    ensures ReadSoftdeps(Softdeps(names)) == Chain(names)
  {
    NoBackslash(names);
    UnwrappedIsSame(Softdeps(names));
    LinesReadBack(names);
  }

  // ----- Orders -----

  function Reversed(s: seq<string>): seq<string> {
    if s == [] then [] else Reversed(s[1..]) + [s[0]]
  }

  lemma {:induction false} ReversedTwice(s: seq<string>)
    ensures Reversed(Reversed(s)) == s
  {
    if s != [] {
      ReversedAppend(Reversed(s[1..]), s[0]);
      ReversedTwice(s[1..]);
      assert s == [s[0]] + s[1..];
    }
  }

  lemma {:induction false} ReversedAppend(s: seq<string>, x: string)
    ensures Reversed(s + [x]) == [x] + Reversed(s)
  {
    if s == [] {
      assert s + [x] == [x] && [x][1..] == [];
    } else {
      assert (s + [x])[1..] == s[1..] + [x];
      ReversedAppend(s[1..], x);
    }
  }

  /** Where the chain leads from the i-th module. */
  lemma {:induction false} ChainAt(names: seq<string>, i: nat)
    requires Distinct(names) && i < |names|
    ensures Lookup(Chain(names), names[i]) == if i + 1 < |names| then Some([names[i + 1]]) else None
    ensures forall n :: n in Chain(names) ==> n in names
    decreases |names|
  {
    if |names| >= 2 {
      ChainAt(names[1..], if i == 0 then 0 else i - 1);
    }
  }

  /** From the i-th module on, loading ends after one visit of each later module, last first. */
  lemma {:induction false} LoadFrom(names: seq<string>, i: nat, active: set<string>)
    requires Distinct(names) && i < |names| && active == set n | n in names[..i]
    ensures Load(Chain(names), names[i], active, []) == Reversed(names[i..])
    decreases |names| - i
  {
    ChainAt(names, i);
    assert names[i] !in active;
    assert names[i..][0] == names[i] && names[i..][1..] == names[i + 1..];
    if i + 1 < |names| {
      PrefixStep(names, i);
      var next := [names[i + 1]];
      LoadFrom(names, i + 1, active + {names[i]});
      assert next[1..] == [];
      assert LoadEach(Chain(names), next, active + {names[i]}, []) ==
             LoadEach(Chain(names), [], active + {names[i]}, Load(Chain(names), names[i + 1], active + {names[i]}, []));
    } else {
      assert names[i + 1..] == [];
    }
  }

  // ----- Worker arguments -----

  const SHARED_FILES_DIR := "/tmp"

  function ModulesDir(m: Modprobe): string { JoinPath(SHARED_FILES_DIR, m.dir) }

  /** The loading modprobe is given the module's name, unless raw arguments replace everything. */
  ghost predicate AreLoadArgs(m: Modprobe, args: seq<string>) {
    if m.rawArgs.Some? then args == m.rawArgs.value.load
    else args == ["-vd", ModulesDir(m)] + (if m.args.Some? then m.args.value.load else []) + [m.moduleName] + m.parameters
  }

  /** The unloading modprobe is given the listed modules after `options` other arguments, unless raw arguments replace everything. */
  ghost predicate AreUnloadArgs(m: Modprobe, args: seq<string>, options: nat) {
    && options <= |args|
    && if m.rawArgs.Some? then args == m.rawArgs.value.unload && options == |args|
       else
         && args[..options] == ["-rvd", ModulesDir(m)] + (if m.args.Some? then m.args.value.unload else [])
         && args[options..] == if m.order.Some? && m.order.value != [] then m.order.value else [m.moduleName]
  }

  method LoadArgs(m: Modprobe) returns (args: seq<string>)
    ensures AreLoadArgs(m, args)
    ensures m.rawArgs.None? ==> |args| >= 2 && args[..2] == ["-vd", JoinPath("/tmp", m.dir)]
    ensures m.rawArgs.None? && m.args.Some? ==> |args| >= 2 + |m.args.value.load| && args[2..2 + |m.args.value.load|] == m.args.value.load
  {
    if m.rawArgs.Some? {
      args := m.rawArgs.value.load;
    } else {
      args := ["-vd", ModulesDir(m)];
      if m.args.Some? {
        args := args + m.args.value.load;
      }
      args := args + [m.moduleName];
      args := args + m.parameters;
    }
  }

  method UnloadArgs(m: Modprobe) returns (args: seq<string>, options: nat)
    ensures AreUnloadArgs(m, args, options)
    ensures m.rawArgs.None? ==> |args| > options >= 2 && args[..2] == ["-rvd", JoinPath("/tmp", m.dir)]
    ensures m.rawArgs.None? && m.args.Some? ==> args[2..options] == m.args.value.unload
    ensures m.rawArgs.None? && m.args.None? ==> options == 2
    ensures m.rawArgs.None? && m.order.Some? && m.order.value != [] ==> args[options..] == m.order.value
    ensures m.rawArgs.None? && (m.order.None? || m.order.value == []) ==> args[options..] == [m.moduleName]
  {
    if m.rawArgs.Some? {
      return m.rawArgs.value.unload, |m.rawArgs.value.unload|;
    }
    args := ["-rvd", ModulesDir(m)];
    if m.args.Some? {
      args := args + m.args.value.unload;
    }
    options := |args|;
    if m.order.Some? && |m.order.value| > 0 {
      args := args + m.order.value;
    } else {
      args := args + [m.moduleName];
    }
  }

  /**
   The two commands take different things from the configuration. Loading names one module, just
   before the parameters, and does not depend on the loading order, which reaches modprobe through
   the softdep lines alone; unloading does not depend on the parameters.
   */
  lemma CommandsUseDifferentParts(m: Modprobe, other: Modprobe, load: seq<string>, load': seq<string>,
                                  unload: seq<string>, unload': seq<string>, options: nat, options': nat)
    requires other == m.(order := other.order, parameters := other.parameters) && m.rawArgs.None?
    requires AreLoadArgs(m, load) && AreLoadArgs(other, load') && AreUnloadArgs(m, unload, options) && AreUnloadArgs(other, unload', options')
    ensures |m.parameters| < |load| && load[|load| - |m.parameters|..] == m.parameters && load[|load| - |m.parameters| - 1] == m.moduleName
    ensures m.parameters == other.parameters ==> load == load'
    ensures m.order == other.order ==> unload == unload' && options == options'
  {
    assert |unload[..options]| == options && |unload'[..options']| == options';
    if m.order == other.order {
      assert unload == unload[..options] + unload[options..];
      assert unload' == unload'[..options'] + unload'[options'..];
    }
  }

  // ----- The two orders -----

  /** Following the softdep lines of an accepted order from the module name ends and loads each listed module once, last first. */
  lemma LoadsInReverse(m: Modprobe, order: seq<string>)
    requires OrderIsValid(m) && m.order == Some(order) && ArePlain(order)
    ensures Load(ReadSoftdeps(Softdeps(order)), m.moduleName, {}, []) == Reversed(order)
  {
    SoftdepsReadBack(order);
    assert order[..0] == [] && order[0..] == order;
    LoadFrom(order, 0, {});
  }

  /**
   For every accepted loading order of plain names, what the softdep lines load from the module name
   is unloaded in exactly the opposite order by the names in the unload arguments, if and only if no
   raw arguments are given.
   */
  lemma OrdersMirror(m: Modprobe, order: seq<string>, args: seq<string>, options: nat)
    requires ArgsAreValid(m) && OrderIsValid(m) && m.order == Some(order) && ArePlain(order)
    requires AreUnloadArgs(m, args, options)
    ensures var loaded := Load(ReadSoftdeps(Softdeps(order)), m.moduleName, {}, []);
            args[options..] == Reversed(loaded) <==> m.rawArgs.None?
  {
    LoadsInReverse(m, order);
    ReversedTwice(order);
  }

  /** Of an accepted configuration both commands get arguments, unless it has a name and empty raw arguments beside it. */
  lemma AcceptedCommandsSaySomething(m: Modprobe, load: seq<string>, unload: seq<string>, options: nat)
    requires ArgsAreValid(m) && AreLoadArgs(m, load) && AreUnloadArgs(m, unload, options)
    ensures load != [] && unload != [] <==> m.moduleName == "" || m.rawArgs.None?
    ensures load == [] <==> unload == []
  {
    assert m.rawArgs.None? ==> |unload[options..]| > 0;
  }

  /** Empty raw arguments beside a module name and a loading order are accepted, and both commands then name no module at all. */
  lemma EmptyRawArgsNameNothing()
    ensures var m := Modprobe("a", "dir", Some(Args([], [])), None, [], Some(["a", "b"]), "");
            && ArgsAreValid(m) && OrderIsValid(m)
            && (forall args :: AreLoadArgs(m, args) <==> args == [])
            && (forall args, options :: AreUnloadArgs(m, args, options) <==> args == [] && options == 0)
  {
    assert "a"[0] != "b"[0];
  }
}
