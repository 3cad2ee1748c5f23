/**
 Resolving a kernel version to module loader data (internal/module/kernelmapper.go:32-165, 187-229,
 internal/utils/replaceStrings.go). The regular expression engine and the template substitution are
 parameters.
 */
module KernelMapper {
  import opened Basics
  import opened Strings
  import opened KernelNames

  datatype Sign = Sign(unsignedImage: string, files: seq<string>)

  /** `inTree` is the deprecated single module, `inTrees` the list that replaces it (`None` when it is not given). */
  datatype KernelMapping = KernelMapping(literal: string, regexp: string, image: string, build: bool, sign: Option<Sign>,
                                         inTree: string, inTrees: Option<seq<string>>)

  datatype Container = Container(image: string, mappings: seq<KernelMapping>, build: bool, sign: Option<Sign>,
                                 inTree: string, inTrees: Option<seq<string>>)

  datatype Module = Module(name: string, namespace: string, container: Container)

  datatype Mld = Mld(kernel: string, image: string, build: bool, sign: Option<Sign>, inTrees: Option<seq<string>>)

  datatype Resolution = Resolved(mld: Mld) | NoMapping | Error

  /** Whether a pattern matches a kernel; `None` when the pattern is malformed. */
  type Regexp = (string, string) -> Option<bool>

  /** Substitutes variables, given as NAME=value, in a template; `None` when the template is malformed. */
  type Envsubst = (seq<string>, string) -> Option<string>

  /** Substitution leaves a text without a dollar sign alone. */
  ghost predicate KeepsPlain(subst: Envsubst) {
    forall env, text :: '$' !in text ==> subst(env, text) == Some(text)
  }

  // ----- findKernelMapping -----

  datatype Search = Match(mapping: KernelMapping) | NoMatch | BadPattern

  function FindKernelMapping(regexp: Regexp, mappings: seq<KernelMapping>, kernel: string): Search {
    if mappings == [] then NoMatch
    else
      var m := mappings[0];
      if m.literal != "" && m.literal == kernel then Match(m)
      else if m.regexp == "" then FindKernelMapping(regexp, mappings[1..], kernel)
      else
        match regexp(m.regexp, kernel)
        case None => BadPattern
        case Some(true) => Match(m)
        case Some(false) => FindKernelMapping(regexp, mappings[1..], kernel)
  }

  /** What one mapping says about a kernel: matched, not matched, or a malformed pattern. */
  function Verdict(regexp: Regexp, m: KernelMapping, kernel: string): Option<bool> {
    if m.literal != "" && m.literal == kernel then Some(true) else if m.regexp == "" then Some(false) else regexp(m.regexp, kernel)
  }

  /** The search stops at the first mapping that does not say no, and that mapping decides. */
  lemma {:induction false} FirstVerdictDecides(regexp: Regexp, mappings: seq<KernelMapping>, kernel: string, i: nat)
    requires i <= |mappings| && (forall j :: 0 <= j < i ==> Verdict(regexp, mappings[j], kernel) == Some(false))
    requires i < |mappings| ==> Verdict(regexp, mappings[i], kernel) != Some(false)
    ensures FindKernelMapping(regexp, mappings, kernel) ==
            if i == |mappings| then NoMatch else if Verdict(regexp, mappings[i], kernel) == None then BadPattern else Match(mappings[i])
    decreases i
  {
    if i > 0 {
      FirstVerdictDecides(regexp, mappings[1..], kernel, i - 1);
    }
  }

  /** A mapping that names the kernel matches whatever its pattern; one without a pattern does not match otherwise. */
  lemma LiteralDecides(regexp: Regexp, m: KernelMapping, rest: seq<KernelMapping>, kernel: string)
    ensures m.literal == kernel && kernel != "" ==> FindKernelMapping(regexp, [m] + rest, kernel) == Match(m)
    ensures m.literal != kernel && m.regexp == "" ==> FindKernelMapping(regexp, [m] + rest, kernel) == FindKernelMapping(regexp, rest, kernel)
    ensures m.literal != kernel && m.regexp != "" && regexp(m.regexp, kernel) == Some(true) ==> FindKernelMapping(regexp, [m] + rest, kernel) == Match(m)
    ensures m.literal != kernel && m.regexp != "" && regexp(m.regexp, kernel) == None ==> FindKernelMapping(regexp, [m] + rest, kernel) == BadPattern
    ensures m.literal != kernel && m.regexp != "" && regexp(m.regexp, kernel) == Some(false) ==>
              FindKernelMapping(regexp, [m] + rest, kernel) == FindKernelMapping(regexp, rest, kernel)
  {
    assert ([m] + rest)[1..] == rest;
  }

  // ----- Kernel components -----

  predicate IsSeparator(c: char) { c == '.' || c == ',' || c == '-' }

  function Components(s: string): (r: seq<string>)
    ensures |r| >= 1
  {
    if s == "" then [""]
    else
      var rest := Components(s[1..]);
      if IsSeparator(s[0]) then [""] + rest else [[s[0]] + rest[0]] + rest[1..]
  }

  function Normalize(s: string): string {
    if s == "" then "" else [NormalizeChar(s[0])] + Normalize(s[1..])
  }

  function KernelComponentsAsEnvVars(kernel: string): Option<seq<string>> {
    var parts := Components(kernel);
    if |parts| < 3 then None
    else Some(["KERNEL_FULL_VERSION=" + kernel, "KERNEL_VERSION=" + kernel,
               "KERNEL_XYZ=" + Join(parts[..3], '.'),
               "KERNEL_X=" + parts[0], "KERNEL_Y=" + parts[1], "KERNEL_Z=" + parts[2]])
  }

  function ReplaceInTemplates(subst: Envsubst, env: seq<string>, texts: seq<string>): Option<seq<string>> {
    if texts == [] then Some([])
    else
      match subst(env, texts[0])
      case None => None
      case Some(first) =>
        match ReplaceInTemplates(subst, env, texts[1..])
        case None => None
        case Some(rest) => Some([first] + rest)
  }

  // ----- prepareModuleLoaderData and replaceTemplates -----

  function MergedSign(module_: Option<Sign>, mapping: Option<Sign>): Option<Sign> {
    match (module_, mapping)
    case (None, s) => s
    case (s, None) => s
    case (Some(a), Some(b)) =>
      Some(Sign(if b.unsignedImage != "" then b.unsignedImage else a.unsignedImage, a.files + b.files))
  }

  /** The sign section with its templates filled in; `None` when that fails. */
  function RelevantSign(subst: Envsubst, sign: Sign, kernel: string): Option<Sign> {
    match KernelComponentsAsEnvVars(Normalize(kernel))
    case None => None
    case Some(env) =>
      match (subst(env, sign.unsignedImage), ReplaceInTemplates(subst, env, sign.files))
      case (Some(image), Some(files)) => Some(Sign(image, files))
      case _ => None
  }

  /** Substituting in the merged sign section fails. */
  predicate SignFails(subst: Envsubst, container: Container, m: KernelMapping, kernel: string) {
    var sign := MergedSign(container.sign, m.sign);
    sign.Some? && RelevantSign(subst, sign.value, kernel).None?
  }

  /** The mapping's image wins; then templates are replaced. */
  function ResolvedImage(subst: Envsubst, mod: Module, m: KernelMapping, kernel: string): Option<string> {
    var image := if m.image == "" then mod.container.image else m.image;
    match KernelComponentsAsEnvVars(Normalize(kernel))
    case None => None
    case Some(env) => subst(env + ["MOD_NAME=" + mod.name, "MOD_NAMESPACE=" + mod.namespace], image)
  }

  function ResolvedInTrees(container: Container, m: KernelMapping): Option<seq<string>> {
    var single := if m.inTree != "" then m.inTree else container.inTree;
    if single != "" then Some([single]) else if m.inTrees.Some? then m.inTrees else container.inTrees
  }

  function Prepared(subst: Envsubst, mod: Module, m: KernelMapping, kernel: string): Resolution {
    if SignFails(subst, mod.container, m, kernel) then Error
    else
      match ResolvedImage(subst, mod, m, kernel)
      case None => Error
      case Some(image) =>
        var sign := MergedSign(mod.container.sign, m.sign);
        Resolved(Mld(kernel, image, mod.container.build || m.build,
                     if sign.None? then None else RelevantSign(subst, sign.value, kernel),
                     ResolvedInTrees(mod.container, m)))
  }

  function Resolve(regexp: Regexp, subst: Envsubst, mod: Module, kernel: string): Resolution {
    match FindKernelMapping(regexp, mod.container.mappings, kernel)
    case NoMatch => NoMapping
    case BadPattern => Error
    case Match(m) => Prepared(subst, mod, m, kernel)
  }

  /** The mapping sets every field a resolution takes from it. */
  predicate IsComplete(m: KernelMapping) { m.image != "" && (m.inTree != "" || m.inTrees.Some?) }

  /**
   Overriding: two Modules of the same name that pick the same complete mapping and have the same
   builds and signatures resolve alike, whatever images and in-tree lists their containers name; the
   deprecated field counts only where the mapping leaves its own empty.
   */
  lemma CompleteMappingOverrides(regexp: Regexp, subst: Envsubst, a: Module, b: Module, kernel: string)
    requires a.name == b.name && a.namespace == b.namespace
    requires FindKernelMapping(regexp, a.container.mappings, kernel) == FindKernelMapping(regexp, b.container.mappings, kernel)
    requires a.container.build == b.container.build && a.container.sign == b.container.sign
    requires var found := FindKernelMapping(regexp, a.container.mappings, kernel);
             found.Match? ==> IsComplete(found.mapping) && (found.mapping.inTree != "" || a.container.inTree == b.container.inTree)
    ensures Resolve(regexp, subst, a, kernel) == Resolve(regexp, subst, b, kernel)
  {
  }

  method InTreeModules(c: Container, m: KernelMapping) returns (inTrees: Option<seq<string>>)
    ensures inTrees == ResolvedInTrees(c, m)
  {
    inTrees := c.inTrees;
    if m.inTrees.Some? {
      inTrees := m.inTrees;
    }
    var single := c.inTree;
    if m.inTree != "" {
      single := m.inTree;
    }
    if single != "" {
      inTrees := Some([single]);
    }
  }

  /** The mapper as it runs, filling the module loader data field by field. */
  method GetModuleLoaderDataForKernel(regexp: Regexp, subst: Envsubst, mod: Module, kernel: string) returns (r: Resolution)
    ensures r == Resolve(regexp, subst, mod, kernel)
  {
    var found := FindKernelMapping(regexp, mod.container.mappings, kernel);
    if found == NoMatch {
      return NoMapping;
    }
    if found == BadPattern {
      return Error;
    }
    var m, c := found.mapping, mod.container;
    var mld := Mld("", "", false, None, None);
    mld := mld.(build := m.build || c.build);
    if m.sign.Some? || c.sign.Some? {
      var sign := RelevantSign(subst, MergedSign(c.sign, m.sign).value, kernel);
      if sign.None? {
        return Error;
      }
      mld := mld.(sign := sign);
    }
    mld := mld.(image := m.image);
    if m.image == "" {
      mld := mld.(image := c.image);
    }
    var inTrees := InTreeModules(c, m);
    mld := mld.(inTrees := inTrees);
    mld := mld.(kernel := kernel);
    var env := KernelComponentsAsEnvVars(Normalize(kernel));
    if env.None? {
      return Error;
    }
    var image := subst(env.value + ["MOD_NAME=" + mod.name, "MOD_NAMESPACE=" + mod.namespace], mld.image);
    if image.None? {
      return Error;
    }
    return Resolved(mld.(image := image.value));
  }
}
