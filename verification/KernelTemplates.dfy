/**
 What the variables of a template hold and what a resolution takes from where: the text of the kernel
 version, the sections of the Module and those of the mapping (internal/module/kernelmapper.go:88-229,
 internal/utils/replaceStrings.go:19-51).
 */
module KernelTemplates {
  import opened Basics
  import opened Strings
  import opened KernelNames
  import opened KernelMapper

  // ----- Components of a kernel version -----

  predicate Divides(c: char) { c == '.' || c == ',' || c == '-' }

  predicate SeparatorFree(s: string) { '.' !in s && ',' !in s && '-' !in s }

  lemma {:induction false} ComponentsOfPlain(s: string)
    requires SeparatorFree(s)
    ensures Components(s) == [s]
  {
    if s != "" {
      assert s == [s[0]] + s[1..];
      ComponentsOfPlain(s[1..]);
    }
  }

  lemma {:induction false} ComponentsOfConcat(s: string, a: char, rest: string)
    requires SeparatorFree(s) && Divides(a)
    ensures Components(s + [a] + rest) == [s] + Components(rest)
  {
    var text := s + [a] + rest;
    if s == "" {
      assert text[1..] == rest;
    } else {
      assert s == [s[0]] + s[1..];
      assert text[1..] == s[1..] + [a] + rest;
      ComponentsOfConcat(s[1..], a, rest);
    }
  }

  /** The version is x, y and z divided by separators, with nothing more or anything after a further separator. */
  ghost predicate Reads(version: string, x: string, y: string, z: string) {
    && SeparatorFree(x) && SeparatorFree(y) && SeparatorFree(z)
    && exists a, b, rest :: IsReading(version, x, a, y, b, z, rest)
  }

  predicate IsReading(version: string, x: string, a: char, y: string, b: char, z: string, rest: string) {
    && Divides(a) && Divides(b) && (rest != "" ==> Divides(rest[0]))
    && version == x + [a] + (y + [b] + (z + rest))
  }

  lemma ComponentsRead(version: string, x: string, y: string, z: string)
    requires Reads(version, x, y, z)
    ensures |Components(version)| >= 3 && Components(version)[..3] == [x, y, z]
  {
    var a, b, rest :| IsReading(version, x, a, y, b, z, rest);
    ComponentsOfConcat(x, a, y + [b] + (z + rest));
    ComponentsOfConcat(y, b, z + rest);
    if rest == "" {
      assert z + rest == z;
      ComponentsOfPlain(z);
    } else {
      assert z + rest == z + [rest[0]] + rest[1..];
      ComponentsOfConcat(z, rest[0], rest[1..]);
    }
    assert Components(version) == [x] + ([y] + Components(z + rest));
  }

  /** The variables of a version, each under its own name. */
  function VersionVariables(version: string, x: string, y: string, z: string): seq<string> {
    ["KERNEL_FULL_VERSION=" + version, "KERNEL_VERSION=" + version, "KERNEL_XYZ=" + (x + "." + y + "." + z),
     "KERNEL_X=" + x, "KERNEL_Y=" + y, "KERNEL_Z=" + z]
  }

  /** The variables hold the parts of the text under their own names. */
  lemma VariablesHoldParts(version: string, x: string, y: string, z: string)
    requires Reads(version, x, y, z)
    ensures KernelComponentsAsEnvVars(version) == Some(VersionVariables(version, x, y, z))
  {
    ComponentsRead(version, x, y, z);
    assert [x, y, z][1..] == [y, z] && [y, z][1..] == [z];
    assert Join([y, z], '.') == y + ['.'] + Join([z], '.');
    assert Join([x, y, z], '.') == x + ['.'] + Join([y, z], '.');
    assert x + ['.'] + (y + ['.'] + z) == x + "." + y + "." + z;
    var parts := Components(version);
    assert parts[0] == parts[..3][0] && parts[1] == parts[..3][1] && parts[2] == parts[..3][2];
  }

  function Separators(s: string): nat {
    if s == "" then 0 else (if Divides(s[0]) then 1 else 0) + Separators(s[1..])
  }

  lemma {:induction false} ComponentsCount(s: string)
    ensures |Components(s)| == 1 + Separators(s)
  {
    if s != "" {
      ComponentsCount(s[1..]);
    }
  }

  /** There are variables exactly for versions with two separators or more. */
  lemma VariablesIff(version: string)
    ensures KernelComponentsAsEnvVars(version).Some? <==> Separators(version) >= 2
  {
    ComponentsCount(version);
  }

  /** Dots and dashes of a kernel version; a comma is replaced before the version is taken apart. */
  function DotsAndDashes(s: string): nat {
    if s == "" then 0 else (if s[0] == '.' || s[0] == '-' then 1 else 0) + DotsAndDashes(s[1..])
  }

  lemma {:induction false} NormalizeKeepsSeparators(s: string)
    ensures Separators(Normalize(s)) == DotsAndDashes(s)
  {
    if s != "" {
      NormalizeKeepsSeparators(s[1..]);
      assert Normalize(s)[1..] == Normalize(s[1..]);
    }
  }

  predicate IsVersionChar(c: char) {
    'a' <= c <= 'z' || 'A' <= c <= 'Z' || '0' <= c <= '9' || c == '-' || c == '.' || c == '_'
  }

  /** Normalising replaces every other character by an underscore and nothing else. */
  lemma {:induction false} NormalizeChars(s: string)
    ensures |Normalize(s)| == |s|
    ensures forall i :: 0 <= i < |s| ==> Normalize(s)[i] == if IsVersionChar(s[i]) then s[i] else '_'
  {
    if s != "" {
      NormalizeChars(s[1..]);
    }
  }

  /** A kernel version with fewer than two dots and dashes resolves nowhere. */
  lemma ShortKernelNeverResolves(regexp: Regexp, subst: Envsubst, mod: Module, kernel: string)
    requires DotsAndDashes(kernel) < 2
    ensures !Resolve(regexp, subst, mod, kernel).Resolved?
  {
    NormalizeKeepsSeparators(kernel);
    VariablesIff(Normalize(kernel));
  }

  // ----- Substitution by name -----

  datatype Piece = Plain(text: string) | Variable(name: string)

  predicate IsNameChar(c: char) { 'A' <= c <= 'Z' || c == '_' }

  /** Text without a dollar sign, and variables in braces. */
  predicate IsTemplate(pieces: seq<Piece>) {
    forall p :: p in pieces ==> if p.Plain? then '$' !in p.text else All(p.name, IsNameChar)
  }

  function Text(pieces: seq<Piece>): string {
    if pieces == [] then ""
    else (match pieces[0] case Plain(text) => text case Variable(name) => "${" + name + "}") + Text(pieces[1..])
  }

  /** The value of the first assignment to the name; empty when there is none. */
  function ValueIn(env: seq<string>, name: string): string {
    if env == [] then "" else if HasPrefix(env[0], name + "=") then env[0][|name| + 1..] else ValueIn(env[1..], name)
  }

  function Filled(env: seq<string>, pieces: seq<Piece>): string {
    if pieces == [] then ""
    else (match pieces[0] case Plain(text) => text case Variable(name) => ValueIn(env, name)) + Filled(env, pieces[1..])
  }

  /** Substitution replaces each variable in braces by its value and leaves the rest. */
  ghost predicate Substitutes(subst: Envsubst) {
    forall env, pieces :: IsTemplate(pieces) ==> subst(env, Text(pieces)) == Some(Filled(env, pieces))
  }

  lemma AssignmentIff(name: string, n: string, value: string)
    requires All(name, IsNameChar) && All(n, IsNameChar)
    ensures HasPrefix(n + "=" + value, name + "=") <==> n == name
    ensures n == name ==> (n + "=" + value)[|name| + 1..] == value
  {
    var text := n + "=" + value;
    assert text[|n|] == '=' && forall i :: 0 <= i < |n| ==> text[i] == n[i] && n[i] in n;
    assert (name + "=")[|name|] == '=' && forall i :: 0 <= i < |name| ==> (name + "=")[i] == name[i] && name[i] in name;
    if HasPrefix(text, name + "=") {
      assert forall i :: 0 <= i <= |name| ==> text[i] == (name + "=")[i];
      assert |name| == |n|;
    }
  }

  function Assignments(names: seq<string>, values: seq<string>): seq<string>
    requires |names| == |values|
  {
    if names == [] then [] else [names[0] + "=" + values[0]] + Assignments(names[1..], values[1..])
  }

  function ValueOf(names: seq<string>, values: seq<string>, name: string): string
    requires |names| == |values|
  {
    if names == [] then "" else if names[0] == name then values[0] else ValueOf(names[1..], values[1..], name)
  }

  lemma {:induction false} AssignedValue(names: seq<string>, values: seq<string>, name: string)
    requires |names| == |values| && All(name, IsNameChar) && forall n :: n in names ==> All(n, IsNameChar)
    ensures ValueIn(Assignments(names, values), name) == ValueOf(names, values, name)
  {
    if names != [] {
      AssignmentIff(name, names[0], values[0]);
      AssignedValue(names[1..], values[1..], name);
    }
  }

  // ----- What a resolution takes from where -----

  /** What a variable of an image template stands for. */
  function ImageVariable(mod: Module, version: string, x: string, y: string, z: string, name: string): string {
    if name == "KERNEL_X" then x
    else if name == "KERNEL_Y" then y
    else if name == "KERNEL_Z" then z
    else if name == "KERNEL_XYZ" then x + "." + y + "." + z
    else if name == "KERNEL_VERSION" || name == "KERNEL_FULL_VERSION" then version
    else if name == "MOD_NAME" then mod.name
    else if name == "MOD_NAMESPACE" then mod.namespace
    else ""
  }

  function ImageText(mod: Module, version: string, x: string, y: string, z: string, pieces: seq<Piece>): string {
    if pieces == [] then ""
    else (match pieces[0] case Plain(text) => text case Variable(name) => ImageVariable(mod, version, x, y, z, name))
         + ImageText(mod, version, x, y, z, pieces[1..])
  }

  function ImageVariables(mod: Module, version: string, x: string, y: string, z: string): seq<string> {
    VersionVariables(version, x, y, z) + ["MOD_NAME=" + mod.name, "MOD_NAMESPACE=" + mod.namespace]
  }

  const NAMES: seq<string> := ["KERNEL_FULL_VERSION", "KERNEL_VERSION", "KERNEL_XYZ", "KERNEL_X", "KERNEL_Y", "KERNEL_Z", "MOD_NAME", "MOD_NAMESPACE"]

  lemma VariablesAreAssignments(mod: Module, version: string, x: string, y: string, z: string)
    ensures ImageVariables(mod, version, x, y, z) ==
            Assignments(NAMES, [version, version, x + "." + y + "." + z, x, y, z, mod.name, mod.namespace])
  {
    var values := [version, version, x + "." + y + "." + z, x, y, z, mod.name, mod.namespace];
    AssignmentsAt(NAMES, values);
    assert |ImageVariables(mod, version, x, y, z)| == 8;
    forall i | 0 <= i < 8 ensures ImageVariables(mod, version, x, y, z)[i] == NAMES[i] + "=" + values[i] {
    }
  }

  lemma {:induction false} AssignmentsAt(names: seq<string>, values: seq<string>)
    requires |names| == |values|
    ensures |Assignments(names, values)| == |names|
    ensures forall i :: 0 <= i < |names| ==> Assignments(names, values)[i] == names[i] + "=" + values[i]
  {
    if names != [] {
      AssignmentsAt(names[1..], values[1..]);
    }
  }

  lemma {:induction false} ValueOfFirst(names: seq<string>, values: seq<string>, name: string, i: nat)
    requires |names| == |values| && i <= |names| && (forall j :: 0 <= j < i ==> names[j] != name) && (i < |names| ==> names[i] == name)
    ensures ValueOf(names, values, name) == if i < |names| then values[i] else ""
  {
    if i > 0 {
      ValueOfFirst(names[1..], values[1..], name, i - 1);
    }
  }

  lemma NamesAreDistinct()
    ensures forall i, j :: 0 <= i < j < |NAMES| ==> NAMES[i] != NAMES[j]
    ensures forall n :: n in NAMES ==> All(n, IsNameChar)
  {
    assert |NAMES[0]| == 19 && |NAMES[1]| == 14 && |NAMES[2]| == 10 && |NAMES[6]| == 8 && |NAMES[7]| == 13;
    assert |NAMES[3]| == |NAMES[4]| == |NAMES[5]| == 8;
    assert NAMES[3][7] == 'X' && NAMES[4][7] == 'Y' && NAMES[5][7] == 'Z' && NAMES[6][7] == 'E';
  }

  lemma ImageVariableHolds(mod: Module, version: string, x: string, y: string, z: string, name: string)
    requires All(name, IsNameChar)
    ensures ValueIn(ImageVariables(mod, version, x, y, z), name) == ImageVariable(mod, version, x, y, z, name)
  {
    var values := [version, version, x + "." + y + "." + z, x, y, z, mod.name, mod.namespace];
    VariablesAreAssignments(mod, version, x, y, z);
    NamesAreDistinct();
    AssignedValue(NAMES, values, name);
    var i := if name == NAMES[0] then 0 else if name == NAMES[1] then 1 else if name == NAMES[2] then 2 else if name == NAMES[3] then 3
             else if name == NAMES[4] then 4 else if name == NAMES[5] then 5 else if name == NAMES[6] then 6 else if name == NAMES[7] then 7 else 8;
    ValueOfFirst(NAMES, values, name, i);
  }

  lemma {:induction false} FilledImage(mod: Module, version: string, x: string, y: string, z: string, pieces: seq<Piece>)
    requires IsTemplate(pieces)
    ensures Filled(ImageVariables(mod, version, x, y, z), pieces) == ImageText(mod, version, x, y, z, pieces)
  {
    if pieces != [] {
      assert pieces[0] in pieces;
      if pieces[0].Variable? {
        ImageVariableHolds(mod, version, x, y, z, pieces[0].name);
      }
      FilledImage(mod, version, x, y, z, pieces[1..]);
    }
  }

  function FilesOf(sign: Option<Sign>): seq<string> { if sign.Some? then sign.value.files else [] }

  function UnsignedImageOf(c: Container, m: KernelMapping): string {
    if m.sign.Some? && m.sign.value.unsignedImage != "" then m.sign.value.unsignedImage
    else if c.sign.Some? then c.sign.value.unsignedImage
    else ""
  }

  ghost predicate AllFill(subst: Envsubst, env: seq<string>, texts: seq<string>, filled: seq<string>) {
    |filled| == |texts| && forall i :: 0 <= i < |texts| ==> subst(env, texts[i]) == Some(filled[i])
  }

  lemma {:induction false} ReplacedIff(subst: Envsubst, env: seq<string>, texts: seq<string>)
    ensures ReplaceInTemplates(subst, env, texts).Some? <==> forall t :: t in texts ==> subst(env, t).Some?
    ensures ReplaceInTemplates(subst, env, texts).Some? ==> AllFill(subst, env, texts, ReplaceInTemplates(subst, env, texts).value)
  {
    if texts != [] {
      assert texts == [texts[0]] + texts[1..];
      ReplacedIff(subst, env, texts[1..]);
    }
  }

  lemma MergedSignIs(c: Container, m: KernelMapping)
    ensures MergedSign(c.sign, m.sign).Some? <==> c.sign.Some? || m.sign.Some?
    ensures MergedSign(c.sign, m.sign).Some? ==>
              MergedSign(c.sign, m.sign).value == Sign(UnsignedImageOf(c, m), FilesOf(c.sign) + FilesOf(m.sign))
  {
  }

  /**
   Resolving, section by section. Given the mapping that decides and the parts of the kernel version, a
   kernel resolves exactly when the image and, with a sign section anywhere, the unsigned image and every
   file can be filled in. The mapping's image and unsigned image win over the container's, the files are
   the container's followed by the mapping's, a build section may come from either, and the deprecated
   in-tree field wins over the list.
   */
  lemma ResolvesIff(regexp: Regexp, subst: Envsubst, mod: Module, kernel: string, m: KernelMapping, x: string, y: string, z: string)
    requires FindKernelMapping(regexp, mod.container.mappings, kernel) == Match(m) && Reads(Normalize(kernel), x, y, z)
    ensures var c := mod.container;
            var env := VersionVariables(Normalize(kernel), x, y, z);
            var image := subst(ImageVariables(mod, Normalize(kernel), x, y, z), if m.image != "" then m.image else c.image);
            var unsigned := subst(env, UnsignedImageOf(c, m));
            var files := FilesOf(c.sign) + FilesOf(m.sign);
            var signs := c.sign.Some? || m.sign.Some?;
            var r := Resolve(regexp, subst, mod, kernel);
            && (r.Resolved? <==> image.Some? && (signs ==> unsigned.Some? && forall t :: t in files ==> subst(env, t).Some?))
            && (r.Resolved? ==>
                  && r.mld.kernel == kernel && image == Some(r.mld.image) && (r.mld.build <==> c.build || m.build)
                  && (r.mld.sign.Some? <==> signs)
                  && (signs ==> unsigned == Some(r.mld.sign.value.unsignedImage) && AllFill(subst, env, files, r.mld.sign.value.files))
                  && InTreesFrom(r.mld.inTrees, c, m))
  {
    VariablesHoldParts(Normalize(kernel), x, y, z);
    MergedSignIs(mod.container, m);
    ReplacedIff(subst, VersionVariables(Normalize(kernel), x, y, z), FilesOf(mod.container.sign) + FilesOf(m.sign));
  }

  /** One module from the deprecated fields, the mapping's before the container's; the lists, in the same order, only without one. */
  predicate InTreesFrom(inTrees: Option<seq<string>>, c: Container, m: KernelMapping) {
    && (m.inTree != "" ==> inTrees == Some([m.inTree]))
    && (m.inTree == "" && c.inTree != "" ==> inTrees == Some([c.inTree]))
    && (m.inTree == "" && c.inTree == "" ==> inTrees == if m.inTrees.Some? then m.inTrees else c.inTrees)
  }

  /** An image template resolves to its text with the parts of the kernel version and the Module's name in place of the variables. */
  lemma ImageResolves(regexp: Regexp, subst: Envsubst, mod: Module, kernel: string, m: KernelMapping, pieces: seq<Piece>, x: string, y: string, z: string)
    requires Substitutes(subst) && IsTemplate(pieces)
    requires FindKernelMapping(regexp, mod.container.mappings, kernel) == Match(m) && Reads(Normalize(kernel), x, y, z)
    requires Text(pieces) == if m.image != "" then m.image else mod.container.image
    ensures var r := Resolve(regexp, subst, mod, kernel);
            && (m.sign.None? && mod.container.sign.None? ==> r.Resolved?)
            && (r.Resolved? ==> r.mld.image == ImageText(mod, Normalize(kernel), x, y, z, pieces))
  {
    ResolvesIff(regexp, subst, mod, kernel, m, x, y, z);
    FilledImage(mod, Normalize(kernel), x, y, z, pieces);
  }
}
