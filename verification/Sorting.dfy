/** Sorting and removing neighbouring duplicates. `SortSlice` stands for Go's
    sort.Slice: callers know that its result is a sorted permutation and nothing
    about the order of ties. */
module Sorting {

  ghost predicate Preorder<T(!new)>(leq: (T, T) -> bool)
  {
    && (forall x, y :: leq(x, y) || leq(y, x))
    && (forall x, y, z :: leq(x, y) && leq(y, z) ==> leq(x, z))
  }

  predicate Sorted<T>(leq: (T, T) -> bool, s: seq<T>)
  {
    forall i, j :: 0 <= i < j < |s| ==> leq(s[i], s[j])
  }

  predicate SortedPermutation<T(==)>(leq: (T, T) -> bool, s: seq<T>, t: seq<T>)
  {
    Sorted(leq, t) && multiset(t) == multiset(s)
  }

  function Insert<T>(leq: (T, T) -> bool, x: T, s: seq<T>): seq<T>
  {
    if s == [] then [x]
    else if leq(x, s[0]) then [x] + s
    else [s[0]] + Insert(leq, x, s[1..])
  }

  lemma {:induction false} InsertPermutes<T>(leq: (T, T) -> bool, x: T, s: seq<T>)
    ensures multiset(Insert(leq, x, s)) == multiset(s) + multiset{x}
  {
    if s != [] && !leq(x, s[0]) {
      InsertPermutes(leq, x, s[1..]);
      assert s == [s[0]] + s[1..];
    }
  }

  lemma {:induction false} InsertSorted<T(!new)>(leq: (T, T) -> bool, x: T, s: seq<T>)
    requires Preorder(leq) && Sorted(leq, s)
    ensures Sorted(leq, Insert(leq, x, s))
  {
    if s != [] && !leq(x, s[0]) {
      var r := Insert(leq, x, s[1..]);
      InsertSorted(leq, x, s[1..]);
      InsertPermutes(leq, x, s[1..]);
      forall j | 0 <= j < |r|
        ensures leq(s[0], r[j])
      {
        assert r[j] in multiset(r);
        assert r[j] == x || r[j] in s[1..];
      }
    }
  }

  /** Any sorted permutation, whatever the sort does with ties. */
  method SortSlice<T(!new, ==)>(leq: (T, T) -> bool, s: seq<T>) returns (t: seq<T>)
    requires Preorder(leq)
    ensures SortedPermutation(leq, s, t)
  {
    t := [];
    for i := 0 to |s|
      invariant SortedPermutation(leq, s[..i], t)
    {
      InsertSorted(leq, s[i], t);
      InsertPermutes(leq, s[i], t);
      t := Insert(leq, s[i], t);
      assert s[..i + 1] == s[..i] + [s[i]];
    }
    assert s[..|s|] == s;
  }

  lemma SortedExists<T(!new)>(leq: (T, T) -> bool, s: seq<T>) returns (t: seq<T>)
    requires Preorder(leq)
    ensures SortedPermutation(leq, s, t)
    decreases |s|
  {
    if s == [] {
      t := [];
    } else {
      var r := SortedExists(leq, s[..|s| - 1]);
      InsertSorted(leq, s[|s| - 1], r);
      InsertPermutes(leq, s[|s| - 1], r);
      t := Insert(leq, s[|s| - 1], r);
      assert s == s[..|s| - 1] + [s[|s| - 1]];
    }
  }

  lemma PermutationMember<T>(s: seq<T>, t: seq<T>, x: T)
    requires multiset(s) == multiset(t)
    ensures |s| == |t| && (x in s <==> x in t)
  {
    assert x in s <==> x in multiset(s);
    assert |multiset(s)| == |s| && |multiset(t)| == |t|;
  }

  // ------------------------------------------------------- neighbour duplicates

  /** The list without elements equal to their left neighbour. */
  function Dedup<T(==)>(s: seq<T>): seq<T>
  {
    if |s| < 2 then s
    else
      var front := Dedup(s[..|s| - 1]);
      if s[|s| - 1] == s[|s| - 2] then front else front + [s[|s| - 1]]
  }

  ghost predicate Strict<T>(leq: (T, T) -> bool, s: seq<T>)
  {
    forall i, j :: 0 <= i < j < |s| ==> leq(s[i], s[j]) && s[i] != s[j]
  }

  lemma {:induction false} DedupMember<T>(s: seq<T>, x: T)
    ensures x in Dedup(s) <==> x in s
    ensures s != [] ==> Dedup(s) != [] && Dedup(s)[|Dedup(s)| - 1] == s[|s| - 1]
  {
    if |s| >= 2 {
      DedupMember(s[..|s| - 1], x);
      assert s == s[..|s| - 1] + [s[|s| - 1]];
    }
  }

  ghost predicate Antisymmetric<T(!new)>(leq: (T, T) -> bool, s: seq<T>)
  {
    forall x, y :: x in s && y in s && leq(x, y) && leq(y, x) ==> x == y
  }

  /** Removing neighbouring duplicates keeps a list sorted and leaves no equal
      neighbours. */
  lemma {:induction false} DedupSorted<T(!new)>(leq: (T, T) -> bool, s: seq<T>)
    requires Sorted(leq, s)
    ensures Sorted(leq, Dedup(s))
    ensures forall i :: 0 < i < |Dedup(s)| ==> Dedup(s)[i - 1] != Dedup(s)[i]
  {
    if |s| >= 2 {
      var front, x := s[..|s| - 1], s[|s| - 1];
      DedupSorted(leq, front);
      DedupMember(front, x);
      forall y | y in Dedup(front)
        ensures leq(y, x)
      {
        DedupMember(front, y);
        var k :| 0 <= k < |front| && front[k] == y;
        assert leq(s[k], s[|s| - 1]);
      }
    }
  }

  /** On a sorted list, neighbours are enough: the result is strictly
      increasing. */
  lemma {:induction false} DedupStrict<T(!new)>(leq: (T, T) -> bool, s: seq<T>)
    requires Preorder(leq) && Sorted(leq, s) && Antisymmetric(leq, s)
    ensures Strict(leq, Dedup(s))
  {
    if |s| >= 2 {
      var front, x, last := s[..|s| - 1], s[|s| - 1], s[|s| - 2];
      DedupStrict(leq, front);
      var d := Dedup(front);
      if x != last {
        forall i | 0 <= i < |d|
          ensures leq(d[i], x) && d[i] != x
        {
          DedupMember(front, d[i]);
          var k :| 0 <= k < |front| && front[k] == d[i];
          assert leq(s[k], x);
          if k < |s| - 2 {
            assert leq(s[k], last);
          }
        }
      }
    }
  }

  /** Two strictly increasing lists with the same elements are the same list. */
  lemma {:induction false} StrictUnique<T(!new)>(leq: (T, T) -> bool, s: seq<T>, t: seq<T>)
    requires Preorder(leq) && Strict(leq, s) && Strict(leq, t) && Antisymmetric(leq, s)
    requires forall x :: x in s <==> x in t
    ensures s == t
  {
    if s == [] {
      EmptyByMembers(t);
    } else {
      assert s[0] in t;
      assert t[0] in s;
      HeadLeast(leq, s, t[0]);
      HeadLeast(leq, t, s[0]);
      assert s[0] == t[0];
      forall x
        ensures x in s[1..] <==> x in t[1..]
      {
        TailMember(leq, s, x);
        TailMember(leq, t, x);
      }
      StrictUnique(leq, s[1..], t[1..]);
      assert s == [s[0]] + s[1..] && t == [t[0]] + t[1..];
    }
  }

  lemma EmptyByMembers<T>(t: seq<T>)
    ensures t == [] || t[0] in t
  {
  }

  lemma HeadLeast<T>(leq: (T, T) -> bool, s: seq<T>, x: T)
    requires Strict(leq, s) && x in s
    ensures x == s[0] || leq(s[0], x)
  {
  }

  lemma TailMember<T>(leq: (T, T) -> bool, s: seq<T>, x: T)
    requires Strict(leq, s) && s != []
    ensures x in s[1..] <==> x in s && x != s[0]
  {
    if x in s[1..] {
      var i :| 0 <= i < |s[1..]| && s[1..][i] == x;
      assert s[i + 1] == x;
    }
    if x in s && x != s[0] {
      var i :| 0 <= i < |s| && s[i] == x;
      assert s[1..][i - 1] == x;
    }
  }

  /** A list that is strictly increasing has no neighbouring duplicates. */
  lemma {:induction false} DedupOfStrict<T(!new)>(leq: (T, T) -> bool, s: seq<T>)
    requires Strict(leq, s)
    ensures Dedup(s) == s
  {
    if |s| >= 2 {
      DedupOfStrict(leq, s[..|s| - 1]);
      assert s[|s| - 2] != s[|s| - 1];
      assert s == s[..|s| - 1] + [s[|s| - 1]];
    }
  }

  /** Sorting a list that is strictly increasing changes nothing. */
  lemma SortOfStrict<T(!new)>(leq: (T, T) -> bool, s: seq<T>, t: seq<T>)
    requires Preorder(leq) && Strict(leq, s) && Antisymmetric(leq, s) && SortedPermutation(leq, s, t)
    ensures t == s
  {
    forall i, j | 0 <= i < j < |t|
      ensures leq(t[i], t[j]) && t[i] != t[j]
    {
      if t[i] == t[j] {
        StrictMultiplicity(leq, s, t[i]);
        TwiceInMultiset(t, i, j);
      }
    }
    forall x
      ensures x in s <==> x in t
    {
      PermutationMember(s, t, x);
    }
    StrictUnique(leq, s, t);
  }

  lemma {:induction false} StrictMultiplicity<T>(leq: (T, T) -> bool, s: seq<T>, x: T)
    requires Strict(leq, s)
    ensures multiset(s)[x] <= 1
  {
    if s != [] {
      TailMember(leq, s, x);
      StrictMultiplicity(leq, s[1..], x);
      assert s == [s[0]] + s[1..];
      if x == s[0] {
        assert x !in s[1..];
        assert x !in multiset(s[1..]);
      }
    }
  }

  lemma TwiceInMultiset<T>(t: seq<T>, i: nat, j: nat)
    requires i < j < |t| && t[i] == t[j]
    ensures multiset(t)[t[i]] >= 2
  {
    assert t == t[..i] + [t[i]] + t[i + 1..j] + [t[j]] + t[j + 1..];
  }
}
