/**
 Printers, parsers and classifiers of the label keys (internal/utils/kmmlabels.go,
 internal/nmc/labels.go, internal/constants/constants.go). The fixed patterns are matched directly.
 */
module LabelCodecs {
  import opened Basics
  import opened Strings

  const NODE_PREFIX := "kmm.node.kubernetes.io/"
  const BETA_PREFIX := "beta.kmm.node.kubernetes.io/"

  // ----- Version labels -----

  datatype Kind = ModuleVersion | WorkerPodVersion | SchedulePodVersion

  function Prefix(kind: Kind): string {
    match kind
    case ModuleVersion => NODE_PREFIX + "version-module"
    case WorkerPodVersion => BETA_PREFIX + "version-worker-pod"
    case SchedulePodVersion => BETA_PREFIX + "version-schedule-pod"
  }

  function VersionLabel(kind: Kind, namespace: string, name: string): string {
    Prefix(kind) + "." + namespace + "." + name
  }

  predicate IsOfKind(text: string, kind: Kind) {
    HasPrefix(text, Prefix(kind))
  }

  predicate IsVersionLabel(text: string) {
    IsOfKind(text, ModuleVersion) || IsOfKind(text, WorkerPodVersion) || IsOfKind(text, SchedulePodVersion)
  }

  function GetNamespaceNameFromVersionLabel(text: string): Option<Key> {
    var parts := Split(text, '.');
    if |parts| < 2 then None else Some(Key(parts[|parts| - 2], parts[|parts| - 1]))
  }

  predicate DotFree(k: Key) { '.' !in k.namespace && '.' !in k.name }

  /** The parser inverts the three printers exactly on dot-free namespaces and names. */
  lemma VersionLabelRoundTripIff(kind: Kind, namespace: string, name: string)
    ensures GetNamespaceNameFromVersionLabel(VersionLabel(kind, namespace, name)) == Some(Key(namespace, name))
       <==> DotFree(Key(namespace, name))
  {
    LastTwoPartsIff(Prefix(kind), namespace, name);
  }

  lemma LastTwoPartsIff(prefix: string, namespace: string, name: string)
    ensures GetNamespaceNameFromVersionLabel(prefix + "." + namespace + "." + name) == Some(Key(namespace, name))
       <==> DotFree(Key(namespace, name))
  {
    var text := prefix + "." + namespace + "." + name;
    SplitPartsHaveNoSeparator(text, '.');
    SplitOfThree(prefix, namespace, name);
    if DotFree(Key(namespace, name)) {
      SplitOfPlain(namespace, '.');
      SplitOfPlain(name, '.');
      assert Split(text, '.') == Split(prefix, '.') + [namespace, name];
    }
  }

  lemma SplitOfThree(a: string, b: string, c: string)
    ensures Split(a + "." + b + "." + c, '.') == Split(a, '.') + (Split(b, '.') + Split(c, '.'))
  {
    assert a + "." + b + "." + c == a + ['.'] + (b + ['.'] + c);
    SplitOfConcat(a, b + ['.'] + c, '.');
    SplitOfConcat(b, c, '.');
  }

  /** Two characters that tell the prefixes apart. */
  lemma PrefixChars(kind: Kind)
    ensures |Prefix(kind)| > 36
    ensures Prefix(kind)[0] == if kind == ModuleVersion then 'k' else 'b'
    ensures Prefix(kind)[36] == 'w' <==> kind == WorkerPodVersion
  {
    var p := Prefix(kind);
    match kind
    case ModuleVersion =>
      assert p[0] == 'k';
    case WorkerPodVersion =>
      assert p[0] == 'b';
      assert p[36] == "version-worker-pod"[8];
    case SchedulePodVersion =>
      assert p[0] == 'b';
      assert p[36] == "version-schedule-pod"[8];
  }

  lemma KindsAreDisjoint(text: string, a: Kind, b: Kind)
    requires IsOfKind(text, a) && IsOfKind(text, b)
    ensures a == b
  {
    PrefixChars(a);
    PrefixChars(b);
    assert forall i :: 0 <= i < |Prefix(a)| ==> text[i] == Prefix(a)[i];
    assert forall i :: 0 <= i < |Prefix(b)| ==> text[i] == Prefix(b)[i];
  }

  /** A printed label is of its own kind only, so printers of different kinds or different dot-free keys never collide. */
  lemma VersionLabelsInjective(a: Kind, j: Key, b: Kind, k: Key)
    requires DotFree(j) && DotFree(k)
    requires VersionLabel(a, j.namespace, j.name) == VersionLabel(b, k.namespace, k.name)
    ensures a == b && j == k
  {
    var text := VersionLabel(a, j.namespace, j.name);
    VersionLabelIsOfKind(a, j);
    VersionLabelIsOfKind(b, k);
    KindsAreDisjoint(text, a, b);
    VersionLabelRoundTripIff(a, j.namespace, j.name);
    VersionLabelRoundTripIff(b, k.namespace, k.name);
  }

  lemma VersionLabelIsOfKind(kind: Kind, k: Key)
    ensures IsOfKind(VersionLabel(kind, k.namespace, k.name), kind)
    ensures IsVersionLabel(VersionLabel(kind, k.namespace, k.name))
  {
    StartsWithPrefix(Prefix(kind), k.namespace, k.name);
  }

  lemma StartsWithPrefix(prefix: string, namespace: string, name: string)
    ensures HasPrefix(prefix + "." + namespace + "." + name, prefix)
  {
  }

  // ----- Labels of the form <prefix><namespace>.<name><suffix> -----

  predicate IsNamespaceChar(c: char) {
    'a' <= c <= 'z' || 'A' <= c <= 'Z' || '0' <= c <= '9' || c == '-'
  }

  predicate IsNameChar(c: char) { IsNamespaceChar(c) || c == '.' }

  predicate IsNamespace(s: string) { s != "" && All(s, IsNamespaceChar) }

  predicate IsName(s: string) { s != "" && All(s, IsNameChar) }

  /** What the anchored pattern with its two groups means. */
  predicate Matches(text: string, prefix: string, suffix: string, namespace: string, name: string) {
    text == prefix + namespace + "." + name + suffix && IsNamespace(namespace) && IsName(name)
  }

  function IndexOf(s: string, c: char): (i: nat)
    ensures i <= |s|
    ensures forall j :: 0 <= j < i ==> s[j] != c
    ensures i < |s| ==> s[i] == c
  {
    if s == "" || s[0] == c then 0 else 1 + IndexOf(s[1..], c)
  }

  /** The text between a prefix and a suffix that do not overlap. */
  function Body(text: string, prefix: string, suffix: string): Option<string> {
    if HasPrefix(text, prefix) && HasSuffix(text, suffix) && |prefix| + |suffix| <= |text|
    then Some(text[|prefix|..|text| - |suffix|])
    else None
  }

  /** The first group cannot hold a dot, so it ends at the first one. */
  function MatchPair(text: string, prefix: string, suffix: string): Option<Key> {
    match Body(text, prefix, suffix)
    case None => None
    case Some(body) =>
      var i := IndexOf(body, '.');
      if i == |body| || !IsNamespace(body[..i]) || !IsName(body[i + 1..]) then None
      else Some(Key(body[..i], body[i + 1..]))
  }

  lemma BodyIff(text: string, prefix: string, suffix: string, body: string)
    ensures Body(text, prefix, suffix) == Some(body) <==> text == prefix + body + suffix
  {
    if text == prefix + body + suffix {
      assert text[|prefix|..|text| - |suffix|] == body;
      assert text[|text| - |suffix|..] == suffix;
      assert text[..|prefix|] == prefix;
    }
    if Body(text, prefix, suffix) == Some(body) {
      assert text == text[..|prefix|] + text[|prefix|..|text| - |suffix|] + text[|text| - |suffix|..];
    }
  }

  /** The matcher finds exactly the two groups of the pattern. */
  lemma MatchPairIff(text: string, prefix: string, suffix: string, namespace: string, name: string)
    ensures MatchPair(text, prefix, suffix) == Some(Key(namespace, name)) <==> Matches(text, prefix, suffix, namespace, name)
  {
    var body := namespace + "." + name;
    assert prefix + body + suffix == prefix + namespace + "." + name + suffix;
    BodyIff(text, prefix, suffix, body);
    if Matches(text, prefix, suffix, namespace, name) {
      assert body[|namespace|] == '.';
      assert forall j :: 0 <= j < |namespace| ==> body[j] == namespace[j] && IsNamespaceChar(namespace[j]);
      assert IndexOf(body, '.') == |namespace|;
      assert body[..|namespace|] == namespace && body[|namespace| + 1..] == name;
    }
    if MatchPair(text, prefix, suffix) == Some(Key(namespace, name)) {
      var b := Body(text, prefix, suffix).value;
      assert b == b[..|namespace|] + "." + b[|namespace| + 1..];
    }
  }

  // ----- Kernel-module-ready labels -----

  const READY := ".ready"
  const VERSION := ".version"

  function KernelModuleReadyLabel(namespace: string, name: string): string {
    NODE_PREFIX + namespace + "." + name + READY
  }

  predicate IsDeprecatedReadyLabel(text: string) {
    match Body(text, NODE_PREFIX, READY)
    case None => false
    case Some(body) => IsNamespace(body)
  }

  predicate IsVersionReadyLabel(text: string) {
    MatchPair(text, NODE_PREFIX, VERSION + READY).Some?
  }

  function IsKernelModuleReadyLabel(text: string): Option<Key> {
    if IsDeprecatedReadyLabel(text) then None
    else if IsVersionReadyLabel(text) then None
    else MatchPair(text, NODE_PREFIX, READY)
  }

  /** A non-empty name followed by ".version". */
  predicate EndsInVersion(name: string) {
    |name| > |VERSION| && HasSuffix(name, VERSION)
  }

  lemma VersionReadyIff(namespace: string, name: string)
    requires IsNamespace(namespace) && IsName(name)
    ensures IsVersionReadyLabel(KernelModuleReadyLabel(namespace, name)) <==> EndsInVersion(name)
  {
    var text := KernelModuleReadyLabel(namespace, name);
    if EndsInVersion(name) {
      var base := name[..|name| - |VERSION|];
      assert name == base + VERSION;
      assert text == NODE_PREFIX + namespace + "." + base + (VERSION + READY);
      MatchPairIff(text, NODE_PREFIX, VERSION + READY, namespace, base);
    }
    if IsVersionReadyLabel(text) {
      var k := MatchPair(text, NODE_PREFIX, VERSION + READY).value;
      MatchPairIff(text, NODE_PREFIX, VERSION + READY, k.namespace, k.name);
      var whole := k.name + VERSION;
      assert text == NODE_PREFIX + k.namespace + "." + whole + READY;
      assert IsName(whole) by {
        assert All(VERSION, IsNameChar);
      }
      MatchPairIff(text, NODE_PREFIX, READY, k.namespace, whole);
      MatchPairIff(text, NODE_PREFIX, READY, namespace, name);
      assert name == k.name + VERSION;
    }
  }

  /** Two non-empty parts of letters, digits and dashes; the second may have dots as well. */
  ghost predicate AreLabelParts(namespace: string, name: string) {
    && namespace != "" && (forall c :: c in namespace ==> 'a' <= c <= 'z' || 'A' <= c <= 'Z' || '0' <= c <= '9' || c == '-')
    && name != "" && forall c :: c in name ==> 'a' <= c <= 'z' || 'A' <= c <= 'Z' || '0' <= c <= '9' || c == '-' || c == '.'
  }

  lemma LabelPartsIff(namespace: string, name: string)
    ensures AreLabelParts(namespace, name) <==> IsNamespace(namespace) && IsName(name)
  {
  }

  /** The ready-label parser returns what was printed exactly for well-formed names that do not look like a version label. */
  lemma ReadyLabelRoundTripIff(namespace: string, name: string)
    ensures IsKernelModuleReadyLabel(KernelModuleReadyLabel(namespace, name)) == Some(Key(namespace, name))
       <==> AreLabelParts(namespace, name) && !EndsInVersion(name)
  {
    LabelPartsIff(namespace, name);
    var text := KernelModuleReadyLabel(namespace, name);
    MatchPairIff(text, NODE_PREFIX, READY, namespace, name);
    var body := namespace + "." + name;
    assert text == NODE_PREFIX + body + READY;
    BodyIff(text, NODE_PREFIX, READY, body);
    assert body[|namespace|] == '.';
    assert '.' in body && !IsNamespaceChar('.');
    assert !IsNamespace(body);
    if IsNamespace(namespace) && IsName(name) {
      VersionReadyIff(namespace, name);
    }
  }

  // ----- NMC labels -----

  const CONFIGURED := ".module-configured"
  const IN_USE := ".module-in-use"

  function ModuleConfiguredLabel(namespace: string, name: string): string {
    BETA_PREFIX + namespace + "." + name + CONFIGURED
  }

  function ModuleInUseLabel(namespace: string, name: string): string {
    BETA_PREFIX + namespace + "." + name + IN_USE
  }

  function IsModuleConfiguredLabel(text: string): Option<Key> {
    MatchPair(text, BETA_PREFIX, CONFIGURED)
  }

  function IsModuleInUseLabel(text: string): Option<Key> {
    MatchPair(text, BETA_PREFIX, IN_USE)
  }

  /** Configured and in-use labels come back from their own parser exactly for well-formed names, and no label is both. */
  lemma NmcLabelsRoundTripIff(namespace: string, name: string, text: string)
    ensures IsModuleConfiguredLabel(ModuleConfiguredLabel(namespace, name)) == Some(Key(namespace, name)) <==> AreLabelParts(namespace, name)
    ensures IsModuleInUseLabel(ModuleInUseLabel(namespace, name)) == Some(Key(namespace, name)) <==> AreLabelParts(namespace, name)
    ensures IsModuleConfiguredLabel(text).None? || IsModuleInUseLabel(text).None?
  {
    LabelPartsIff(namespace, name);
    MatchPairIff(ModuleConfiguredLabel(namespace, name), BETA_PREFIX, CONFIGURED, namespace, name);
    MatchPairIff(ModuleInUseLabel(namespace, name), BETA_PREFIX, IN_USE, namespace, name);
    assert HasSuffix(text, CONFIGURED) ==> text[|text| - 1] == CONFIGURED[|CONFIGURED| - 1] == 'd';
    assert HasSuffix(text, IN_USE) ==> text[|text| - 1] == IN_USE[|IN_USE| - 1] == 'e';
  }
}
