/** Small vocabulary shared by the models. */
module Basics {

  datatype Option<+T> = None | Some(value: T)

  /** A namespaced object name, `types.NamespacedName` in the operator. */
  datatype Key = Key(namespace: string, name: string)

  function Lookup<K, V>(m: map<K, V>, k: K): Option<V> {
    if k in m then Some(m[k]) else None
  }

  /** Removes `k` when `v` is `None`, sets it otherwise. */
  function Put<K(!new), V>(m: map<K, V>, k: K, v: Option<V>): (r: map<K, V>)
    ensures Lookup(r, k) == v
    ensures forall j :: j != k ==> Lookup(r, j) == Lookup(m, j)
  {
    match v
    case None => m - {k}
    case Some(x) => m[k := x]
  }

  /** Two maps that answer every lookup alike are the same map. */
  lemma MapsEqualByLookup<K(!new), V>(a: map<K, V>, b: map<K, V>)
    requires forall k :: Lookup(a, k) == Lookup(b, k)
    ensures a == b
  {
    forall k: K
      ensures k in a <==> k in b
      ensures k in a ==> a[k] == b[k]
    {
      assert Lookup(a, k) == Lookup(b, k);
    }
  }

  /** One more element of a prefix. */
  lemma PrefixStep<T>(s: seq<T>, i: nat)
    requires i < |s|
    ensures s[..i + 1] == s[..i] + [s[i]]
    ensures s[..i + 1][..i] == s[..i]
    ensures forall x :: x in s[..i + 1] <==> x in s[..i] || x == s[i]
  {
    assert s[..i + 1] == s[..i] + [s[i]];
  }

  /** An API list as the controllers see it: keyed entries, the first entry of a key wins. */
  function FirstByKey<T>(s: seq<T>, key: T -> Key): map<Key, T> {
    if s == [] then map[] else FirstByKey(s[1..], key)[key(s[0]) := s[0]]
  }

  ghost predicate DistinctKeys<T>(s: seq<T>, key: T -> Key) {
    forall i, j :: 0 <= i < j < |s| ==> key(s[i]) != key(s[j])
  }

  /** `i` is where a front-to-back search for `k` stops; `i == |s|` when it finds nothing. */
  ghost predicate FirstAt<T>(s: seq<T>, key: T -> Key, k: Key, i: nat) {
    && i <= |s|
    && (forall j :: 0 <= j < i ==> key(s[j]) != k)
    && (i < |s| ==> key(s[i]) == k)
  }

  /** The search and the map view agree. */
  lemma {:induction false} FirstByKeyLookup<T>(s: seq<T>, key: T -> Key, k: Key, i: nat)
    requires FirstAt(s, key, k, i)
    ensures Lookup(FirstByKey(s, key), k) == if i < |s| then Some(s[i]) else None
  {
    if i > 0 {
      assert FirstAt(s[1..], key, k, i - 1) by {
        assert forall j :: 0 <= j < i - 1 ==> s[1..][j] == s[j + 1];
      }
      FirstByKeyLookup(s[1..], key, k, i - 1);
    }
  }

  lemma {:induction false} FirstByKeyOwnKeys<T>(s: seq<T>, key: T -> Key)
    ensures forall k :: k in FirstByKey(s, key) ==> key(FirstByKey(s, key)[k]) == k
    ensures forall k :: k in FirstByKey(s, key) <==> exists i :: 0 <= i < |s| && key(s[i]) == k
  {
    if s != [] {
      FirstByKeyOwnKeys(s[1..], key);
      forall k
        ensures k in FirstByKey(s, key) <==> exists i :: 0 <= i < |s| && key(s[i]) == k
      {
        if i :| 0 <= i < |s| && key(s[i]) == k {
          assert i > 0 ==> s[1..][i - 1] == s[i];
        }
        if k in FirstByKey(s[1..], key) {
          var i :| 0 <= i < |s[1..]| && key(s[1..][i]) == k;
          assert s[i + 1] == s[1..][i];
        }
      }
    }
  }

  /** Appending matters only for a key that is not there yet. */
  lemma {:induction false} FirstByKeyAppend<T>(s: seq<T>, key: T -> Key, x: T)
    ensures FirstByKey(s + [x], key) ==
            if key(x) in FirstByKey(s, key) then FirstByKey(s, key) else FirstByKey(s, key)[key(x) := x]
  {
    if s == [] {
      assert s + [x] == [x];
    } else {
      assert (s + [x])[1..] == s[1..] + [x];
      FirstByKeyAppend(s[1..], key, x);
    }
  }

  lemma {:induction false} FirstByKeyUpdate<T>(s: seq<T>, key: T -> Key, i: nat, x: T)
    requires i < |s| && FirstAt(s, key, key(x), i)
    ensures FirstByKey(s[i := x], key) == FirstByKey(s, key)[key(x) := x]
  {
    if i == 0 {
      assert s[0 := x][1..] == s[1..];
    } else {
      assert s[i := x][1..] == s[1..][i - 1 := x];
      assert FirstAt(s[1..], key, key(x), i - 1) by {
        assert forall j :: 0 <= j < i - 1 ==> s[1..][j] == s[j + 1];
      }
      FirstByKeyUpdate(s[1..], key, i - 1, x);
    }
  }
}
