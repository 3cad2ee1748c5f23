/** Path cleaning and joining as the library does it, and the check on absolute paths of the webhook (internal/webhook/module.go:360-369). */
module Paths {
  import opened Strings

  predicate IsAbs(p: string) { p != "" && p[0] == '/' }

  /** Cleaning the components of a rooted path: empty and "." components go, ".." takes the one before with it. */
  function CleanParts(parts: seq<string>): seq<string> {
    if parts == [] then []
    else
      var front, last := CleanParts(parts[..|parts| - 1]), parts[|parts| - 1];
      if last == "" || last == "." then front
      else if last == ".." then if front == [] then [] else front[..|front| - 1]
      else front + [last]
  }

  /** `filepath.Clean` on a rooted path. */
  function Clean(p: string): string
    requires IsAbs(p)
  {
    "/" + Join(CleanParts(Split(p[1..], '/')), '/')
  }

  /** `filepath.Join` below a rooted directory. */
  function JoinPath(base: string, elem: string): string
    requires IsAbs(base)
  {
    if elem == "" then Clean(base) else Clean(base + "/" + elem)
  }

  predicate IsWellFormedAbsolutePath(p: string) {
    IsAbs(p) &&
    var trimmed := if |p| > 1 && p[|p| - 1] == '/' then p[..|p| - 1] else p;
    Clean(trimmed) == trimmed
  }

  predicate IsPlainPart(part: string) { part != "" && part != "." && part != ".." }

  /** Rooted, with no empty, "." or ".." component, one slash at the end allowed; or the root alone, with one slash more allowed. */
  ghost predicate IsPlainPath(p: string) {
    || p == "/" || p == "//"
    || (|p| > 1 && p[0] == '/' && p[|p| - 1] != '/' && forall x :: x in Split(p[1..], '/') ==> IsPlainPart(x))
    || (|p| > 2 && p[0] == '/' && p[|p| - 1] == '/' && forall x :: x in Split(p[1..|p| - 1], '/') ==> IsPlainPart(x))
  }

  lemma {:induction false} CleanedPartsArePlain(parts: seq<string>)
    ensures forall x :: x in CleanParts(parts) ==> IsPlainPart(x) && x in parts
  {
    if parts != [] {
      CleanedPartsArePlain(parts[..|parts| - 1]);
    }
  }

  lemma {:induction false} PlainPartsStay(parts: seq<string>)
    requires forall x :: x in parts ==> IsPlainPart(x)
    ensures CleanParts(parts) == parts
  {
    if parts != [] {
      var last := parts[|parts| - 1];
      assert last in parts;
      PlainPartsStay(parts[..|parts| - 1]);
      assert parts == parts[..|parts| - 1] + [last];
    }
  }

  /** A rooted path is its own clean form exactly when it is the root or has no empty, "." or ".." component. */
  lemma CleanIsSameIff(p: string)
    requires IsAbs(p)
    ensures Clean(p) == p <==> p == "/" || forall x :: x in Split(p[1..], '/') ==> IsPlainPart(x)
  {
    var parts := Split(p[1..], '/');
    var cleaned := CleanParts(parts);
    assert p == "/" + p[1..];
    CleanedPartsArePlain(parts);
    SplitPartsHaveNoSeparator(p[1..], '/');
    if p == "/" {
      assert parts == [""] && parts[..0] == [];
      assert CleanParts(parts) == [];
    }
    if Clean(p) == p && p != "/" {
      assert p[1..] == Join(cleaned, '/');
      SplitInvertsJoin(cleaned, '/');
    }
    if forall x :: x in parts ==> IsPlainPart(x) {
      PlainPartsStay(parts);
      JoinInvertsSplit(p[1..], '/');
    }
  }

  /** The webhook's check accepts exactly the plain paths. */
  lemma WellFormedIff(p: string)
    ensures IsWellFormedAbsolutePath(p) <==> IsPlainPath(p)
  {
    if IsAbs(p) {
      if |p| > 1 && p[|p| - 1] == '/' {
        var trimmed := p[..|p| - 1];
        CleanIsSameIff(trimmed);
        assert trimmed[1..] == p[1..|p| - 1];
        assert |p| == 2 ==> p == "//";
        assert |p| > 2 ==> trimmed != "/";
      } else {
        CleanIsSameIff(p);
        assert |p| == 1 ==> p == "/";
        assert |p| > 1 ==> p != "/";
      }
    }
  }

  lemma {:induction false} PlainPartsAppend(parts: seq<string>, more: seq<string>)
    requires forall x :: x in more ==> IsPlainPart(x)
    ensures CleanParts(parts + more) == CleanParts(parts) + more
    decreases |more|
  {
    if more == [] {
      assert parts + more == parts && CleanParts(parts) + more == CleanParts(parts);
    } else {
      var all, front, last := parts + more, more[..|more| - 1], more[|more| - 1];
      assert last in more && more == front + [last];
      assert all[..|all| - 1] == parts + front && all[|all| - 1] == last;
      PlainPartsAppend(parts, front);
      assert CleanParts(parts) + front + [last] == CleanParts(parts) + more;
    }
  }

  lemma {:induction false} JoinOfConcat(a: seq<string>, b: seq<string>, sep: char)
    requires a != [] && b != []
    ensures Join(a + b, sep) == Join(a, sep) + [sep] + Join(b, sep)
    decreases |a|
  {
    assert (a + b)[1..] == a[1..] + b;
    if |a| == 1 {
      assert a[1..] + b == b;
    } else {
      JoinOfConcat(a[1..], b, sep);
      assert a[0] + [sep] + (Join(a[1..], sep) + [sep] + Join(b, sep)) == (a[0] + [sep] + Join(a[1..], sep)) + [sep] + Join(b, sep);
    }
  }

  lemma SplitBelow(base: string, rest: string)
    requires IsAbs(base)
    ensures IsAbs(base + "/" + rest) && Split((base + "/" + rest)[1..], '/') == Split(base[1..], '/') + Split(rest, '/')
  {
    assert (base + "/" + rest)[1..] == base[1..] + ['/'] + rest;
    SplitOfConcat(base[1..], rest, '/');
  }

  lemma JoinOfSplits(base: string, elem: string)
    requires IsAbs(base)
    ensures "/" + Join(Split(base[1..], '/') + Split(elem, '/'), '/') == base + "/" + elem
  {
    JoinOfConcat(Split(base[1..], '/'), Split(elem, '/'), '/');
    JoinInvertsSplit(base[1..], '/');
    JoinInvertsSplit(elem, '/');
    assert base == "/" + base[1..];
    assert "/" + (base[1..] + ['/'] + elem) == ("/" + base[1..]) + "/" + elem;
  }

  lemma SplitAfterSlash(elem: string)
    ensures Split("/" + elem, '/') == [""] + Split(elem, '/')
  {
    assert ("/" + elem)[1..] == elem;
  }

  /** Joining a plain directory below a plain base appends it, with or without a slash in front. */
  lemma JoinPathAppends(base: string, elem: string)
    requires IsAbs(base) && (forall x :: x in Split(base[1..], '/') ==> IsPlainPart(x))
    requires elem != "" && (forall x :: x in Split(elem, '/') ==> IsPlainPart(x))
    ensures JoinPath(base, elem) == base + "/" + elem && JoinPath(base, "/" + elem) == base + "/" + elem
  {
    var a, b := Split(base[1..], '/'), Split(elem, '/');
    SplitBelow(base, elem);
    SplitBelow(base, "/" + elem);
    SplitAfterSlash(elem);
    SkippedPart(a, b);
    PlainPartsStay(a);
    PlainPartsAppend(a, b);
    JoinOfSplits(base, elem);
  }

  /** An empty component changes nothing. */
  lemma SkippedPart(a: seq<string>, b: seq<string>)
    requires forall x :: x in b ==> IsPlainPart(x)
    ensures CleanParts(a + ([""] + b)) == CleanParts(a + b)
  {
    assert a + ([""] + b) == (a + [""]) + b;
    PlainPartsAppend(a + [""], b);
    PlainPartsAppend(a, b);
    assert (a + [""])[..|a|] == a;
  }

  /** A component followed by ".." is as if neither were there. */
  lemma ParentUndoes(parts: seq<string>, x: string)
    requires IsPlainPart(x)
    ensures CleanParts(parts + [x, ".."]) == CleanParts(parts)
  {
    var all := parts + [x, ".."];
    assert all[..|all| - 1] == parts + [x];
    PlainPartsAppend(parts, [x]);
  }
}
