/** Lists of entries with string keys, read as maps. */
module Keyed {
  import opened Sorting
  import Orders
  import Strings

  /** The map a list describes; a later entry overrides an earlier one. */
  function Collect<T, V>(key: T -> string, value: T -> V, s: seq<T>): map<string, V>
  {
    if s == [] then map[]
    else Collect(key, value, s[..|s| - 1])[key(s[|s| - 1]) := value(s[|s| - 1])]
  }

  predicate Distinct<T>(key: T -> string, s: seq<T>)
  {
    forall i, j :: 0 <= i < j < |s| ==> key(s[i]) != key(s[j])
  }

  predicate Increasing<T>(key: T -> string, s: seq<T>)
  {
    forall i, j :: 0 <= i < j < |s| ==> Strings.Less(key(s[i]), key(s[j]))
  }

  function ByKey<T>(key: T -> string): (T, T) -> bool
  {
    (x, y) => Strings.Leq(key(x), key(y))
  }

  lemma ByKeyPreorder<T(!new)>(key: T -> string)
    ensures Preorder(ByKey(key))
  {
    Orders.StringPreorder();
  }

  lemma IncreasingDistinct<T>(key: T -> string, s: seq<T>)
    requires Increasing(key, s)
    ensures Distinct(key, s)
  {
    forall i, j | 0 <= i < j < |s|
      ensures key(s[i]) != key(s[j])
    {
      Strings.Trichotomy(key(s[i]), key(s[j]));
    }
  }

  lemma DistinctFront<T>(key: T -> string, s: seq<T>)
    requires Distinct(key, s) && s != []
    ensures Distinct(key, s[..|s| - 1])
    ensures forall i :: 0 <= i < |s| - 1 ==> key(s[i]) != key(s[|s| - 1])
  {
  }

  lemma {:induction false} CollectKeys<T, V>(key: T -> string, value: T -> V, s: seq<T>, k: string)
    ensures k in Collect(key, value, s) <==> exists i :: 0 <= i < |s| && key(s[i]) == k
  {
    if s != [] {
      var front := s[..|s| - 1];
      CollectKeys(key, value, front, k);
      if exists i :: 0 <= i < |s| && key(s[i]) == k {
        var i :| 0 <= i < |s| && key(s[i]) == k;
        assert i < |front| ==> key(front[i]) == k;
      }
      if exists i :: 0 <= i < |front| && key(front[i]) == k {
        var i :| 0 <= i < |front| && key(front[i]) == k;
        assert key(s[i]) == k;
      }
      assert key(s[|s| - 1]) == k ==> exists i :: 0 <= i < |s| && key(s[i]) == k;
    }
  }

  /** With distinct keys every entry is visible. */
  lemma {:induction false} CollectAt<T, V>(key: T -> string, value: T -> V, s: seq<T>, i: nat)
    requires Distinct(key, s) && i < |s|
    ensures key(s[i]) in Collect(key, value, s) && Collect(key, value, s)[key(s[i])] == value(s[i])
  {
    if i < |s| - 1 {
      CollectAt(key, value, s[..|s| - 1], i);
    }
  }

  /** The last entry of a key is visible, whatever the keys. */
  lemma {:induction false} CollectLast<T, V>(key: T -> string, value: T -> V, s: seq<T>, i: nat)
    requires i < |s| && forall k :: i < k < |s| ==> key(s[k]) != key(s[i])
    ensures key(s[i]) in Collect(key, value, s) && Collect(key, value, s)[key(s[i])] == value(s[i])
  {
    if i < |s| - 1 {
      CollectLast(key, value, s[..|s| - 1], i);
    }
  }

  lemma {:induction false} LastOf<T>(key: T -> string, s: seq<T>, k: string) returns (i: nat)
    requires exists j :: 0 <= j < |s| && key(s[j]) == k
    ensures i < |s| && key(s[i]) == k && forall j :: i < j < |s| ==> key(s[j]) != k
  {
    i := |s| - 1;
    if key(s[i]) != k {
      var j :| 0 <= j < |s| && key(s[j]) == k;
      assert key(s[..|s| - 1][j]) == k;
      i := LastOf(key, s[..|s| - 1], k);
    }
  }

  lemma {:induction false} DistinctOnce<T>(key: T -> string, s: seq<T>, x: T)
    requires Distinct(key, s)
    ensures multiset(s)[x] <= 1
  {
    if s != [] {
      var front, last := s[..|s| - 1], s[|s| - 1];
      DistinctOnce(key, front, x);
      assert s == front + [last];
      if x == last {
        assert x !in front;
        assert x !in multiset(front);
      }
    }
  }

  /** Permuting keeps distinct keys distinct; sorting them makes them increase. */
  lemma SortedIncreasing<T(!new)>(key: T -> string, s: seq<T>, t: seq<T>)
    requires Distinct(key, s) && SortedPermutation(ByKey(key), s, t)
    ensures Increasing(key, t)
  {
    forall i, j | 0 <= i < j < |t|
      ensures Strings.Less(key(t[i]), key(t[j]))
    {
      Strings.Trichotomy(key(t[i]), key(t[j]));
      if key(t[i]) == key(t[j]) {
        PermutationMember(s, t, t[i]);
        PermutationMember(s, t, t[j]);
        var a :| 0 <= a < |s| && s[a] == t[i];
        var b :| 0 <= b < |s| && s[b] == t[j];
        assert a == b;
        DistinctOnce(key, s, t[i]);
        TwiceInMultiset(t, i, j);
      }
    }
  }

  /** A map does not depend on the order of entries with distinct keys. */
  lemma CollectPermuted<T(!new), V>(key: T -> string, value: T -> V, s: seq<T>, t: seq<T>)
    requires Distinct(key, s) && Distinct(key, t) && multiset(s) == multiset(t)
    ensures Collect(key, value, s) == Collect(key, value, t)
  {
    var a, b := Collect(key, value, s), Collect(key, value, t);
    forall k
      ensures k in a <==> k in b
      ensures k in a ==> a[k] == b[k]
    {
      CollectKeys(key, value, s, k);
      CollectKeys(key, value, t, k);
      if k in a {
        var i :| 0 <= i < |s| && key(s[i]) == k;
        PermutationMember(s, t, s[i]);
        var j :| 0 <= j < |t| && t[j] == s[i];
        CollectAt(key, value, s, i);
        CollectAt(key, value, t, j);
      }
      if k in b {
        var j :| 0 <= j < |t| && key(t[j]) == k;
        PermutationMember(s, t, t[j]);
        var i :| 0 <= i < |s| && s[i] == t[j];
        assert key(s[i]) == k;
      }
    }
  }

  /** Lists with increasing keys and the same entries are the same list. */
  lemma IncreasingUnique<T(!new)>(key: T -> string, s: seq<T>, t: seq<T>)
    requires Increasing(key, s) && Increasing(key, t) && forall x :: x in s <==> x in t
    ensures s == t
  {
    ByKeyPreorder(key);
    IncreasingStrict(key, s);
    IncreasingStrict(key, t);
    StrictUnique(ByKey(key), s, t);
  }

  lemma IncreasingStrict<T(!new)>(key: T -> string, s: seq<T>)
    requires Increasing(key, s)
    ensures Strict(ByKey(key), s) && Antisymmetric(ByKey(key), s)
  {
    forall i, j | 0 <= i < j < |s|
      ensures ByKey(key)(s[i], s[j]) && s[i] != s[j]
    {
      Strings.Trichotomy(key(s[i]), key(s[j]));
    }
    IncreasingDistinct(key, s);
    forall x, y | x in s && y in s && ByKey(key)(x, y) && ByKey(key)(y, x)
      ensures x == y
    {
      Strings.Trichotomy(key(x), key(y));
      var i :| 0 <= i < |s| && s[i] == x;
      var j :| 0 <= j < |s| && s[j] == y;
      assert i == j;
    }
  }

  // ------------------------------------------------------- walking over a map

  lemma TakeOne<V>(m: map<string, V>, keys: set<string>, k: string)
    requires k in keys && keys <= m.Keys
    ensures (m - keys)[k := m[k]] == m - (keys - {k})
  {
  }

  /** A map overridden by what has been walked of another: one step, */
  lemma OverrideOne<V>(a: map<string, V>, b: map<string, V>, keys: set<string>, k: string)
    requires k in keys && keys <= b.Keys
    ensures (a + (b - keys))[k := b[k]] == a + (b - (keys - {k}))
  {
    TakeOne(b, keys, k);
    OverridePut(a, b - keys, k, b[k]);
  }

  lemma OverridePut<V>(a: map<string, V>, b: map<string, V>, k: string, v: V)
    ensures (a + b)[k := v] == a + b[k := v]
  {
  }

  /** the beginning and the end. */
  lemma OverrideEnds<V>(a: map<string, V>, b: map<string, V>)
    ensures a + (b - b.Keys) == a && a + (b - {}) == a + b
  {
    assert b - b.Keys == map[] && b - {} == b;
  }

  /** The loop that writes one map's entries over another's. */
  method Override<V>(a: map<string, V>, b: map<string, V>) returns (out: map<string, V>)
    ensures out == a + b
  {
    out := a;
    var keys := b.Keys;
    OverrideEnds(a, b);
    while keys != {}
      invariant keys <= b.Keys
      invariant out == a + (b - keys)
      decreases |keys|
    {
      var k :| k in keys;
      OverrideOne(a, b, keys, k);
      out := out[k := b[k]];
      keys := keys - {k};
    }
  }
}
