/**
 The spoke's list of node kernels and how the hub reads it back
 (internal/controllers/node_kernel_clusterclaim.go:47-73, internal/cluster/cluster.go:64-76).
 */
module KernelClaim {
  import opened Basics
  import opened Strings

  // ----- String order -----

  predicate Less(a: string, b: string) {
    b != "" && (a == "" || a[0] < b[0] || (a[0] == b[0] && Less(a[1..], b[1..])))
  }

  lemma {:induction false} LessIsTotal(a: string, b: string)
    ensures a == b || Less(a, b) || Less(b, a)
    ensures !(Less(a, b) && Less(b, a)) && !Less(a, a)
  {
    if a != "" {
      LessIsTotal(a[1..], if b == "" then b else b[1..]);
      assert b != "" && a[0] == b[0] && a[1..] == b[1..] ==> a == [a[0]] + a[1..] == b;
    }
  }

  lemma {:induction false} LessIsTransitive(a: string, b: string, c: string)
    requires Less(a, b) && Less(b, c)
    ensures Less(a, c)
  {
    if a != "" && a[0] == b[0] == c[0] {
      LessIsTransitive(a[1..], b[1..], c[1..]);
    }
  }

  ghost predicate StrictlySorted(s: seq<string>) {
    forall i, j :: 0 <= i < j < |s| ==> Less(s[i], s[j])
  }

  ghost predicate Sorted(s: seq<string>) {
    forall i, j :: 0 <= i < j < |s| ==> s[i] == s[j] || Less(s[i], s[j])
  }

  /** `s` with `x` put in at `i`, where everything before is not greater and everything after not less. */
  lemma InsertKeepsSorted(s: seq<string>, i: nat, x: string)
    requires Sorted(s) && i <= |s|
    requires forall j :: 0 <= j < i ==> s[j] == x || Less(s[j], x)
    requires forall j :: i <= j < |s| ==> s[j] == x || Less(x, s[j])
    ensures Sorted(s[..i] + [x] + s[i..])
    ensures multiset(s[..i] + [x] + s[i..]) == multiset(s) + multiset{x}
  {
    assert s == s[..i] + s[i..];
    var r := s[..i] + [x] + s[i..];
    forall a, b | 0 <= a < b < |r|
      ensures r[a] == r[b] || Less(r[a], r[b])
    {
      var a', b' := if a < i then a else a - 1, if b < i then b else b - 1;
      assert a != i ==> r[a] == s[a'];
      assert b != i ==> r[b] == s[b'];
      if a < i && b > i {
        assert a' < b';
      }
    }
  }

  /** `sort.Strings`. */
  method SortStrings(s: seq<string>) returns (r: seq<string>)
    ensures Sorted(r) && multiset(r) == multiset(s)
  {
    r := [];
    for n := 0 to |s|
      invariant Sorted(r) && multiset(r) == multiset(s[..n])
    {
      var x, i := s[n], 0;
      PrefixStep(s, n);
      while i < |r| && Less(r[i], x)
        invariant i <= |r| && forall j :: 0 <= j < i ==> Less(r[j], x)
      {
        i := i + 1;
      }
      RestNotLess(r, i, x);
      InsertKeepsSorted(r, i, x);
      r := r[..i] + [x] + r[i..];
    }
    assert s[..|s|] == s;
  }

  lemma RestNotLess(r: seq<string>, i: nat, x: string)
    requires Sorted(r) && i <= |r| && (i < |r| ==> !Less(r[i], x))
    ensures forall j :: i <= j < |r| ==> r[j] == x || Less(x, r[j])
  {
    forall j | i <= j < |r|
      ensures r[j] == x || Less(x, r[j])
    {
      LessIsTotal(r[i], x);
      if j > i && Less(x, r[i]) && Less(r[i], r[j]) {
        LessIsTransitive(x, r[i], r[j]);
      }
    }
  }

  /** Sorting has one result. */
  lemma {:induction false} SortedIsUnique(a: seq<string>, b: seq<string>)
    requires Sorted(a) && Sorted(b) && multiset(a) == multiset(b)
    ensures a == b
    decreases |a|
  {
    assert |multiset(a)| == |a| && |multiset(b)| == |b|;
    if a != [] {
      LeastIsFirst(a, b);
      TailsAgree(a, b);
      SortedIsUnique(a[1..], b[1..]);
    }
  }

  lemma TailsAgree(a: seq<string>, b: seq<string>)
    requires a != [] && b != [] && a[0] == b[0] && multiset(a) == multiset(b)
    ensures multiset(a[1..]) == multiset(b[1..])
  {
    assert a == [a[0]] + a[1..] && b == [b[0]] + b[1..];
    assert multiset(a[1..]) == multiset(a) - multiset{a[0]};
    assert multiset(b[1..]) == multiset(b) - multiset{b[0]};
  }

  lemma LeastIsFirst(a: seq<string>, b: seq<string>)
    requires Sorted(a) && Sorted(b) && multiset(a) == multiset(b) && a != [] && b != []
    ensures a[0] == b[0]
  {
    assert a[0] in multiset(b) && b[0] in multiset(a);
    var i :| 0 <= i < |b| && b[i] == a[0];
    var j :| 0 <= j < |a| && a[j] == b[0];
    assert i > 0 ==> b[0] == b[i] || Less(b[0], b[i]);
    assert j > 0 ==> a[0] == a[j] || Less(a[0], a[j]);
    LessIsTotal(a[0], b[0]);
  }

  // ----- The claim -----

  /** The distinct kernels of the nodes in order. */
  ghost predicate IsCanonical(kernels: seq<string>, nodes: seq<string>) {
    StrictlySorted(kernels) && forall k :: k in kernels <==> k in nodes
  }

  lemma StrictOfDistinct(s: seq<string>)
    requires Sorted(s) && forall k :: k in s ==> multiset(s)[k] == 1
    ensures StrictlySorted(s)
  {
    forall i, j | 0 <= i < j < |s|
      ensures Less(s[i], s[j])
    {
      assert s == s[..i] + [s[i]] + s[i + 1..j] + [s[j]] + s[j + 1..];
      assert s[i] == s[j] ==> multiset(s)[s[i]] >= 2;
      assert s[i] in s;
    }
  }

  /** Fills a set, copies it out in any order, sorts and joins. */
  method ClusterClaim(nodes: seq<string>) returns (value: string, kernels: seq<string>)
    ensures IsCanonical(kernels, nodes) && value == Join(kernels, '\n')
  {
    var distinct: set<string> := {};
    for i := 0 to |nodes|
      invariant forall k :: k in distinct <==> k in nodes[..i]
    {
      PrefixStep(nodes, i);
      distinct := distinct + {nodes[i]};
    }
    assert nodes[..|nodes|] == nodes;
    var copied: seq<string> := [];
    var rest := distinct;
    while rest != {}
      invariant rest <= distinct
      invariant multiset(copied) == multiset(distinct - rest)
      decreases rest
    {
      var k :| k in rest;
      assert distinct - (rest - {k}) == (distinct - rest) + {k};
      copied := copied + [k];
      rest := rest - {k};
    }
    assert distinct - rest == distinct;
    kernels := SortStrings(copied);
    SortedCopyIsCanonical(kernels, distinct);
    value := Join(kernels, '\n');
  }

  lemma SortedCopyIsCanonical(kernels: seq<string>, distinct: set<string>)
    requires Sorted(kernels) && multiset(kernels) == multiset(distinct)
    ensures StrictlySorted(kernels) && forall k :: k in kernels <==> k in distinct
  {
    forall k
      ensures k in kernels <==> k in distinct
      ensures k in kernels ==> multiset(kernels)[k] == 1
    {
      assert k in kernels <==> k in multiset(kernels);
    }
    StrictOfDistinct(kernels);
  }

  /** The value depends only on which kernels there are, not on the order or number of nodes. */
  lemma {:induction false} CanonicalIsUnique(a: seq<string>, nodesA: seq<string>, b: seq<string>, nodesB: seq<string>)
    requires IsCanonical(a, nodesA) && IsCanonical(b, nodesB)
    requires forall k :: k in nodesA <==> k in nodesB
    ensures a == b
  {
    forall k
      ensures multiset(a)[k] == multiset(b)[k]
    {
      StrictCount(a, k);
      StrictCount(b, k);
    }
    SortedIsUnique(a, b);
  }

  lemma {:induction false} StrictCount(s: seq<string>, k: string)
    requires StrictlySorted(s)
    ensures multiset(s)[k] == if k in s then 1 else 0
  {
    if s != [] {
      assert s == [s[0]] + s[1..];
      StrictCount(s[1..], k);
      LessIsTotal(k, k);
    }
  }

  const CLAIM_NAME := "kernel-versions." + "kmm.node.kubernetes.io"

  datatype Claim = Claim(name: string, value: string)

  /** The value of the first claim of that name. */
  function ClaimOf(claims: seq<Claim>): Option<string> {
    if claims == [] then None else if claims[0].name == CLAIM_NAME then Some(claims[0].value) else ClaimOf(claims[1..])
  }

  /** The hub's list is what the claim's value splits into, sorted; without the claim there is none. */
  ghost predicate IsHubList(kernels: Option<seq<string>>, claims: seq<Claim>) {
    match ClaimOf(claims)
    case None => kernels == None
    case Some(value) => kernels.Some? && Sorted(kernels.value) && multiset(kernels.value) == multiset(Split(value, '\n'))
  }

  /** The hub splits and sorts. */
  method KernelVersions(claims: seq<Claim>) returns (kernels: Option<seq<string>>)
    ensures IsHubList(kernels, claims)
  {
    for i := 0 to |claims|
      invariant ClaimOf(claims[i..]) == ClaimOf(claims)
    {
      assert claims[i..][0] == claims[i] && claims[i..][1..] == claims[i + 1..];
      if claims[i].name != CLAIM_NAME {
        continue;
      }
      var sorted := SortStrings(Split(claims[i].value, '\n'));
      return Some(sorted);
    }
    return None;
  }

  /** With at least one node and no newline in any kernel, the hub reads back exactly the spoke's list. */
  lemma HubReadsClaim(nodes: seq<string>, kernels: seq<string>, read: seq<string>)
    requires nodes != [] && (forall k :: k in nodes ==> '\n' !in k) && IsCanonical(kernels, nodes)
    requires IsHubList(Some(read), [Claim(CLAIM_NAME, Join(kernels, '\n'))])
    ensures read == kernels
  {
    assert nodes[0] in nodes;
    SplitInvertsJoin(kernels, '\n');
    SortedIsUnique(read, kernels);
  }

  /** A newline-free kernel of some node reaches the hub whatever the other nodes report. */
  lemma HubSeesKernel(nodes: seq<string>, kernels: seq<string>, read: seq<string>, k: string)
    requires IsCanonical(kernels, nodes) && multiset(read) == multiset(Split(Join(kernels, '\n'), '\n'))
    requires k in nodes && '\n' !in k
    ensures k in read
  {
    SplitOfJoin(kernels, '\n', k);
    assert k in multiset(read);
  }
}
