/**
 Rewriting a hub Module for a spoke cluster: kernel mappings become literals, builds and signatures
 stay on the hub (internal/manifestwork/manifestwork.go:122-187, 204-251).
 */
module HubToSpoke {
  import opened Basics
  import opened Strings
  import opened KernelMapper
  import KernelClaim

  function TrimPlus(kernel: string): string {
    if HasSuffix(kernel, "+") then kernel[..|kernel| - 1] else kernel
  }

  function Stripped(mod: Module): Module {
    mod.(container := mod.container.(build := false, sign := None))
  }

  function MappingFrom(mld: Mld): KernelMapping {
    KernelMapping(mld.kernel, "", mld.image, false, None, "", mld.inTrees)
  }

  /** A literal mapping for each kernel that resolves on the hub; the others are skipped. */
  function Literals(regexp: Regexp, subst: Envsubst, mod: Module, kernels: seq<string>): seq<KernelMapping> {
    if kernels == [] then []
    else
      var rest := Literals(regexp, subst, mod, kernels[1..]);
      match Resolve(regexp, subst, mod, TrimPlus(kernels[0]))
      case Resolved(mld) => [MappingFrom(mld)] + rest
      case _ => rest
  }

  function SpokeModule(regexp: Regexp, subst: Envsubst, mod: Module, kernels: seq<string>): Module {
    Stripped(mod).(container := Stripped(mod).container.(mappings := Literals(regexp, subst, Stripped(mod), kernels)))
  }

  // ----- The rewrite as it runs -----

  /** The loader section, shared between the caller's copies of the hub object. */
  class ModuleLoader {
    var container: Container
  }

  method ManagedClusterKernelMappings(regexp: Regexp, subst: Envsubst, mod: Module, kernels: seq<string>) returns (mappings: seq<KernelMapping>)
    ensures mappings == Literals(regexp, subst, mod, kernels)
  {
    mappings := [];
    for i := 0 to |kernels|
      invariant mappings + Literals(regexp, subst, mod, kernels[i..]) == Literals(regexp, subst, mod, kernels)
    {
      assert kernels[i..][0] == kernels[i] && kernels[i..][1..] == kernels[i + 1..];
      var r := GetModuleLoaderDataForKernel(regexp, subst, mod, TrimPlus(kernels[i]));
      if r.Resolved? {
        mappings := mappings + [MappingFrom(r.mld)];
      }
    }
    assert kernels[|kernels|..] == [];
  }

  /** Overwrites the shared loader in place and returns the Module sent to the spoke, built from the loader as it was on entry. */
  method SetManifestWorkAsDesired(regexp: Regexp, subst: Envsubst, name: string, namespace: string, loader: ModuleLoader, kernels: seq<string>)
    returns (spoke: Module)
    modifies loader
    ensures spoke == SpokeModule(regexp, subst, Module(name, namespace, old(loader.container)), kernels)
    ensures loader.container == spoke.container
  {
    loader.container := loader.container.(build := false);
    loader.container := loader.container.(sign := None);
    var mappings := ManagedClusterKernelMappings(regexp, subst, Module(name, namespace, loader.container), kernels);
    loader.container := loader.container.(mappings := mappings);
    spoke := Module(name, namespace, loader.container);
  }

  // ----- Meaning -----

  /** Looking up a kernel among the literals finds what the hub resolved it to, wherever it is in the list. */
  lemma {:induction false} LiteralsFind(regexp: Regexp, subst: Envsubst, mod: Module, kernels: seq<string>, kernel: string)
    requires kernel in kernels
    ensures var k := TrimPlus(kernel);
            var hub := Resolve(regexp, subst, mod, k);
            FindKernelMapping(regexp, Literals(regexp, subst, mod, kernels), k) ==
            if hub.Resolved? && k != "" then Match(MappingFrom(hub.mld)) else NoMatch
    decreases |kernels|
  {
    LiteralsFindOnly(regexp, subst, mod, kernels[1..], TrimPlus(kernel));
    if kernel in kernels[1..] {
      LiteralsFind(regexp, subst, mod, kernels[1..], kernel);
    }
    ResolvedKernel(regexp, subst, mod, TrimPlus(kernels[0]));
  }

  lemma {:induction false} LiteralsFindOnly(regexp: Regexp, subst: Envsubst, mod: Module, kernels: seq<string>, k: string)
    ensures var hub := Resolve(regexp, subst, mod, k);
            var found := FindKernelMapping(regexp, Literals(regexp, subst, mod, kernels), k);
            found == NoMatch || (hub.Resolved? && k != "" && found == Match(MappingFrom(hub.mld)))
    decreases |kernels|
  {
    if kernels != [] {
      ResolvedKernel(regexp, subst, mod, TrimPlus(kernels[0]));
      LiteralsFindOnly(regexp, subst, mod, kernels[1..], k);
    }
  }

  lemma ResolvedKernel(regexp: Regexp, subst: Envsubst, mod: Module, kernel: string)
    ensures var r := Resolve(regexp, subst, mod, kernel); r.Resolved? ==> r.mld.kernel == kernel
  {
  }

  lemma EmptyKernelNeverResolves(regexp: Regexp, subst: Envsubst, mod: Module)
    ensures !Resolve(regexp, subst, mod, "").Resolved?
  {
    assert Normalize("") == "" && |Components("")| == 1;
  }

  /** The deprecated single module of the container does not fight with that of the mapping the hub picked. */
  predicate InTreeAgrees(container: Container, m: KernelMapping) {
    container.inTree == "" || m.inTree == "" || m.inTree == container.inTree
  }

  /** An image the spoke's own substitution and fallback leave alone. */
  predicate IsPlain(image: string) { image != "" && '$' !in image }

  lemma LiteralResolves(subst: Envsubst, mod: Module, spoke: Module, m: KernelMapping, kernel: string)
    requires KeepsPlain(subst)
    requires spoke == mod.(container := mod.container.(mappings := spoke.container.mappings)) && mod == Stripped(mod)
    requires Prepared(subst, mod, m, kernel).Resolved? && IsPlain(Prepared(subst, mod, m, kernel).mld.image)
    ensures var hub := Prepared(subst, mod, m, kernel).mld;
            var r := Prepared(subst, spoke, MappingFrom(hub), kernel);
            && r.Resolved? && r.mld.image == hub.image && !r.mld.build && r.mld.sign == None
            && (r.mld.inTrees == hub.inTrees <==> InTreeAgrees(mod.container, m))
  {
    var hub := Prepared(subst, mod, m, kernel).mld;
    var spokeMapping := MappingFrom(hub);
    assert ResolvedImage(subst, spoke, spokeMapping, kernel) == Some(hub.image);
    var c := mod.container.inTree;
    if c != "" {
      assert ResolvedInTrees(spoke.container, spokeMapping) == Some([c]);
      assert hub.inTrees == Some([if m.inTree != "" then m.inTree else c]);
      assert [m.inTree][0] == m.inTree && [c][0] == c;
    }
  }

  /** What the stripped hub Module and the rewritten Module make of a kernel in the list. */
  lemma SpokeFollowsStripped(regexp: Regexp, subst: Envsubst, mod: Module, kernels: seq<string>, kernel: string)
    requires KeepsPlain(subst) && kernel in kernels && mod == Stripped(mod)
    requires var hub := Resolve(regexp, subst, mod, TrimPlus(kernel)); hub.Resolved? ==> IsPlain(hub.mld.image)
    ensures var k := TrimPlus(kernel);
            var hub := Resolve(regexp, subst, mod, k);
            var spoke := Resolve(regexp, subst, SpokeModule(regexp, subst, mod, kernels), k);
            && (!hub.Resolved? ==> spoke == NoMapping)
            && (hub.Resolved? ==>
                  && spoke.Resolved? && spoke.mld.image == hub.mld.image && !spoke.mld.build && spoke.mld.sign == None
                  && (spoke.mld.inTrees == hub.mld.inTrees <==>
                      InTreeAgrees(mod.container, FindKernelMapping(regexp, mod.container.mappings, k).mapping)))
  {
    var k := TrimPlus(kernel);
    LiteralsFind(regexp, subst, mod, kernels, kernel);
    EmptyKernelNeverResolves(regexp, subst, mod);
    if Resolve(regexp, subst, mod, k).Resolved? {
      var m := FindKernelMapping(regexp, mod.container.mappings, k).mapping;
      LiteralResolves(subst, mod, SpokeModule(regexp, subst, mod, kernels), m, k);
    }
  }

  /** The container's sign section keeps a kernel from resolving on the hub although everything else would. */
  predicate OnlySignFails(regexp: Regexp, subst: Envsubst, mod: Module, k: string) {
    match FindKernelMapping(regexp, mod.container.mappings, k)
    case Match(m) =>
      && SignFails(subst, mod.container, m, k)
      && !SignFails(subst, Stripped(mod).container, m, k)
      && ResolvedImage(subst, mod, m, k).Some?
    case _ => false
  }

  /** Dropping builds and signatures changes neither image nor in-tree list, and makes a kernel resolve only where its sign section was at fault. */
  lemma StrippingKeepsMeaning(regexp: Regexp, subst: Envsubst, mod: Module, k: string)
    requires KeepsPlain(subst)
    ensures var hub, stripped := Resolve(regexp, subst, mod, k), Resolve(regexp, subst, Stripped(mod), k);
            && (hub.Resolved? ==> stripped.Resolved? && stripped.mld.image == hub.mld.image && stripped.mld.inTrees == hub.mld.inTrees)
            && (stripped.Resolved? && !hub.Resolved? <==> OnlySignFails(regexp, subst, mod, k))
  {
    var found := FindKernelMapping(regexp, mod.container.mappings, k);
    if found.Match? {
      SignWithoutContainer(subst, mod.container, found.mapping, k);
      assert ResolvedImage(subst, Stripped(mod), found.mapping, k) == ResolvedImage(subst, mod, found.mapping, k);
    }
  }

  /** The mapping's own sign templates are part of the merged ones. */
  lemma SignWithoutContainer(subst: Envsubst, container: Container, m: KernelMapping, k: string)
    requires KeepsPlain(subst)
    ensures !SignFails(subst, container, m, k) ==> !SignFails(subst, container.(build := false, sign := None), m, k)
  {
    if container.sign.Some? && m.sign.Some? {
      var env := KernelComponentsAsEnvVars(Normalize(k));
      if env.Some? {
        ReplaceSuffix(subst, env.value, container.sign.value.files, m.sign.value.files);
      }
    }
  }

  lemma {:induction false} ReplaceSuffix(subst: Envsubst, env: seq<string>, a: seq<string>, b: seq<string>)
    ensures ReplaceInTemplates(subst, env, a + b).Some? ==> ReplaceInTemplates(subst, env, b).Some?
    decreases |a|
  {
    if a == [] {
      assert a + b == b;
    } else {
      assert (a + b)[1..] == a[1..] + b && (a + b)[0] == a[0];
      ReplaceSuffix(subst, env, a[1..], b);
    }
  }

  /**
   For every node of a spoke whose kernel has no newline, on the hub's list as read from the spoke's
   claim, a plus sign at the end of the kernel left out on both sides: if the hub Module resolves the kernel, the spoke's Module resolves it to the same image,
   with nothing to build or sign, and to the same in-tree list exactly when the deprecated fields
   agree; if it does not, the spoke's Module has no mapping for it, unless only the hub's sign
   templates were at fault.
   */
  lemma SpokeResolvesLikeHub(regexp: Regexp, subst: Envsubst, mod: Module, nodes: seq<string>, claimed: seq<string>, kernels: seq<string>, node: string, k: string)
    requires KeepsPlain(subst) && (node == k + "+" || (node == k && (k == "" || k[|k| - 1] != '+')))
    requires KernelClaim.IsCanonical(claimed, nodes) && multiset(kernels) == multiset(Split(Join(claimed, '\n'), '\n'))
    requires node in nodes && '\n' !in node
    requires var stripped := Resolve(regexp, subst, Stripped(mod), k); stripped.Resolved? ==> IsPlain(stripped.mld.image)
    ensures var hub := Resolve(regexp, subst, mod, k);
            var spoke := Resolve(regexp, subst, SpokeModule(regexp, subst, mod, kernels), k);
            && (hub.Resolved? ==>
                  && spoke.Resolved? && spoke.mld.image == hub.mld.image && !spoke.mld.build && spoke.mld.sign == None
                  && (spoke.mld.inTrees == hub.mld.inTrees <==>
                      InTreeAgrees(mod.container, FindKernelMapping(regexp, mod.container.mappings, k).mapping)))
            && (!hub.Resolved? ==> (spoke == NoMapping <==> !OnlySignFails(regexp, subst, mod, k)))
  {
    assert TrimPlus(node) == k by {
      assert node == k + "+" ==> node[|node| - 1..] == "+" && node[..|node| - 1] == k;
      assert HasSuffix(node, "+") ==> node[|node| - 1..][0] == '+';
    }
    KernelClaim.HubSeesKernel(nodes, claimed, kernels, node);
    StrippingKeepsMeaning(regexp, subst, mod, TrimPlus(node));
    SpokeFollowsStripped(regexp, subst, Stripped(mod), kernels, node);
    assert SpokeModule(regexp, subst, Stripped(mod), kernels) == SpokeModule(regexp, subst, mod, kernels);
  }

  /** No build or sign section of the hub Module or of its mappings reaches the spoke. */
  lemma {:induction false} NothingToBuildOrSign(regexp: Regexp, subst: Envsubst, mod: Module, kernels: seq<string>)
    ensures var c := SpokeModule(regexp, subst, mod, kernels).container;
            !c.build && c.sign == None && forall m :: m in c.mappings ==> !m.build && m.sign == None && m.regexp == ""
    decreases |kernels|
  {
    if kernels != [] {
      NothingToBuildOrSign(regexp, subst, mod, kernels[1..]);
    }
  }

  /** The deprecated fields can disagree: the spoke then removes another in-tree module than the hub would. */
  lemma DeprecatedFieldsCanDisagree()
    ensures var regexp: Regexp := (_, _) => Some(true);
            var subst: Envsubst := (_, text) => Some(text);
            var m := KernelMapping("", ".*", "image", false, None, "b", None);
            var mod := Module("m", "ns", Container("", [m], false, None, "a", None));
            var hub := Resolve(regexp, subst, mod, "1.2.3");
            var spoke := Resolve(regexp, subst, SpokeModule(regexp, subst, mod, ["1.2.3"]), "1.2.3");
            hub.Resolved? && spoke.Resolved? && hub.mld.inTrees == Some(["b"]) && spoke.mld.inTrees == Some(["a"])
  {
    var regexp: Regexp := (_, _) => Some(true);
    var subst: Envsubst := (_, text) => Some(text);
    var m := KernelMapping("", ".*", "image", false, None, "b", None);
    var mod := Module("m", "ns", Container("", [m], false, None, "a", None));
    ThreeComponents();
    assert Resolve(regexp, subst, mod, "1.2.3").Resolved?;
    assert Stripped(mod) == mod && TrimPlus("1.2.3") == "1.2.3";
    SpokeFollowsStripped(regexp, subst, mod, ["1.2.3"], "1.2.3");
    var spoke := SpokeModule(regexp, subst, mod, ["1.2.3"]);
    assert spoke.container.inTree == "a";
  }

  /** A substitution that fails on any dollar sign. */
  function RejectDollars(env: seq<string>, text: string): Option<string> {
    if '$' in text then None else Some(text)
  }

  /** A kernel the hub rejects because of the container's sign templates resolves on the spoke. */
  lemma SpokeCanResolveMore()
    ensures var regexp: Regexp := (_, _) => Some(true);
            var m := KernelMapping("", ".*", "image", false, None, "", None);
            var mod := Module("m", "ns", Container("", [m], false, Some(Sign("${", [])), "", None));
            && KeepsPlain(RejectDollars)
            && Resolve(regexp, RejectDollars, mod, "1.2.3") == Error
            && Resolve(regexp, RejectDollars, SpokeModule(regexp, RejectDollars, mod, ["1.2.3"]), "1.2.3").Resolved?
  {
    var regexp: Regexp := (_, _) => Some(true);
    var m := KernelMapping("", ".*", "image", false, None, "", None);
    var mod := Module("m", "ns", Container("", [m], false, Some(Sign("${", [])), "", None));
    ThreeComponents();
    assert '$' == "${"[0];
    assert SignFails(RejectDollars, mod.container, m, "1.2.3");
    assert Resolve(regexp, RejectDollars, Stripped(mod), "1.2.3").Resolved?;
    assert TrimPlus("1.2.3") == "1.2.3";
    SpokeFollowsStripped(regexp, RejectDollars, Stripped(mod), ["1.2.3"], "1.2.3");
    assert SpokeModule(regexp, RejectDollars, Stripped(mod), ["1.2.3"]) == SpokeModule(regexp, RejectDollars, mod, ["1.2.3"]);
  }

  lemma ThreeComponents()
    ensures |Components(Normalize("1.2.3"))| == 3
  {
    var s := "1.2.3";
    assert s[1..] == ".2.3" && s[1..][1..] == "2.3" && "2.3"[1..] == ".3" && ".3"[1..] == "3" && "3"[1..] == "";
    assert Normalize("3") == "3" && Normalize(".3") == ".3" && Normalize("2.3") == "2.3" && Normalize(".2.3") == ".2.3";
    assert Normalize(s) == s;
    assert |Components("3")| == 1 && |Components(".3")| == 2 && |Components("2.3")| == 2 && |Components(".2.3")| == 3;
  }
}
