/** Equality of pod tolerations by sorting and removing duplicates. */
module Tolerations {
  import opened Sorting
  import opened Options
  import Orders
  import Strings

  datatype Toleration =
    Toleration(key: string, operator: string, value: string, effect: string, seconds: Option<int>)

  /** What the comparison looks at: everything but the seconds. */
  function TupleOf(t: Toleration): seq<string>
  {
    [t.key, t.value, t.effect, t.operator]
  }

  function TuplesOf(s: seq<Toleration>): seq<seq<string>>
  {
    seq(|s|, i requires 0 <= i < |s| => TupleOf(s[i]))
  }

  predicate MatchToleration(a: Toleration, b: Toleration)
  {
    a.key == b.key && a.effect == b.effect && a.operator == b.operator && a.value == b.value
  }

  /** The comparator given to the sort. */
  predicate Before(a: Toleration, b: Toleration)
  {
    if Strings.Less(a.key, b.key) then true
    else if Strings.Less(b.key, a.key) then false
    else if Strings.Less(a.value, b.value) then true
    else if Strings.Less(b.value, a.value) then false
    else if Strings.Less(a.effect, b.effect) then true
    else if Strings.Less(b.effect, a.effect) then false
    else Strings.Less(a.operator, b.operator)
  }

  predicate NotAfter(a: Toleration, b: Toleration)
  {
    !Before(b, a)
  }

  lemma BeforeIsListLess(a: Toleration, b: Toleration)
    ensures Before(a, b) <==> Strings.ListLess(TupleOf(a), TupleOf(b))
  {
    Strings.Trichotomy(a.key, b.key);
    Strings.Trichotomy(a.value, b.value);
    Strings.Trichotomy(a.effect, b.effect);
    Strings.Trichotomy(a.operator, b.operator);
    Strings.ListLessCons(a.key, [a.value, a.effect, a.operator], b.key, [b.value, b.effect, b.operator]);
    Strings.ListLessCons(a.value, [a.effect, a.operator], b.value, [b.effect, b.operator]);
    Strings.ListLessCons(a.effect, [a.operator], b.effect, [b.operator]);
    Strings.ListLessCons(a.operator, [], b.operator, []);
    assert TupleOf(a) == [a.key] + [a.value, a.effect, a.operator];
    assert TupleOf(b) == [b.key] + [b.value, b.effect, b.operator];
    assert [a.value, a.effect, a.operator] == [a.value] + [a.effect, a.operator];
    assert [b.value, b.effect, b.operator] == [b.value] + [b.effect, b.operator];
    assert [a.effect, a.operator] == [a.effect] + [a.operator] && [b.effect, b.operator] == [b.effect] + [b.operator];
    assert [a.operator] == [a.operator] + [] && [b.operator] == [b.operator] + [];
  }

  lemma NotAfterPreorder()
    ensures Preorder(NotAfter)
  {
    Orders.ListPreorder();
    forall x, y
      ensures NotAfter(x, y) <==> Strings.ListLeq(TupleOf(x), TupleOf(y))
    {
      BeforeIsListLess(y, x);
    }
  }

  /** The tuples that a list of tolerations mentions. */
  ghost predicate SameTuples(a: seq<Toleration>, b: seq<Toleration>)
  {
    forall x :: x in TuplesOf(a) <==> x in TuplesOf(b)
  }

  /** A sorted list has its tuples sorted, whatever the ties. */
  lemma SortedTuples(src: seq<Toleration>, sorted: seq<Toleration>)
    requires SortedPermutation(NotAfter, src, sorted)
    ensures Sorted(Strings.ListLeq, TuplesOf(sorted)) && SameTuples(src, sorted)
  {
    forall i, j | 0 <= i < j < |sorted|
      ensures Strings.ListLeq(TuplesOf(sorted)[i], TuplesOf(sorted)[j])
    {
      BeforeIsListLess(sorted[j], sorted[i]);
    }
    forall x
      ensures x in TuplesOf(src) <==> x in TuplesOf(sorted)
    {
      if x in TuplesOf(src) {
        TupleMoves(src, sorted, x);
      }
      if x in TuplesOf(sorted) {
        TupleMoves(sorted, src, x);
      }
    }
  }

  lemma TupleMoves(a: seq<Toleration>, b: seq<Toleration>, x: seq<string>)
    requires multiset(a) == multiset(b) && x in TuplesOf(a)
    ensures x in TuplesOf(b)
  {
    var i :| 0 <= i < |a| && TuplesOf(a)[i] == x;
    PermutationMember(a, b, a[i]);
    var j :| 0 <= j < |b| && b[j] == a[i];
    assert TuplesOf(b)[j] == x;
  }

  /** Removes tolerations that match the last one kept. */
  method DropNeighbours(sorted: seq<Toleration>) returns (unique: seq<Toleration>)
    requires sorted != []
    ensures TuplesOf(unique) == Dedup(TuplesOf(sorted))
    ensures forall t :: t in unique ==> t in sorted
  {
    unique := [sorted[0]];
    ghost var tuples := TuplesOf(sorted);
    for i := 1 to |sorted|
      invariant unique != [] && TupleOf(unique[|unique| - 1]) == tuples[i - 1]
      invariant TuplesOf(unique) == Dedup(tuples[..i])
      invariant forall t :: t in unique ==> t in sorted
    {
      assert tuples[..i + 1][..i] == tuples[..i];
      MatchIsSameTuple(sorted[i], unique[|unique| - 1]);
      if !MatchToleration(sorted[i], unique[|unique| - 1]) {
        TuplesAppend(unique, sorted[i]);
        unique := unique + [sorted[i]];
      }
    }
    assert tuples[..|sorted|] == tuples;
  }

  lemma MatchIsSameTuple(a: Toleration, b: Toleration)
    ensures MatchToleration(a, b) <==> TupleOf(a) == TupleOf(b)
  {
    if TupleOf(a) == TupleOf(b) {
      assert TupleOf(a)[0] == TupleOf(b)[0] && TupleOf(a)[1] == TupleOf(b)[1];
      assert TupleOf(a)[2] == TupleOf(b)[2] && TupleOf(a)[3] == TupleOf(b)[3];
    }
  }

  lemma TuplesAppend(s: seq<Toleration>, t: Toleration)
    ensures TuplesOf(s + [t]) == TuplesOf(s) + [TupleOf(t)]
  {
  }

  /** The result mentions each tuple of the input once, in increasing order. */
  method UniqueSortTolerations(src: seq<Toleration>) returns (unique: seq<Toleration>)
    ensures Strict(Strings.ListLeq, TuplesOf(unique)) && SameTuples(src, unique)
    ensures forall t :: t in unique ==> t in src
  {
    if |src| < 2 {
      return src;
    }
    NotAfterPreorder();
    var sorted := SortSlice(NotAfter, src);
    PermutationMember(src, sorted, src[0]);
    unique := DropNeighbours(sorted);
    FinishUnique(src, sorted, unique);
  }

  /** The order is by key first, then by value, effect and operator. */
  lemma OrderedByKeyFirst(unique: seq<Toleration>, i: nat, j: nat)
    requires Strict(Strings.ListLeq, TuplesOf(unique)) && i < j < |unique|
    ensures var a, b := unique[i], unique[j];
            || Strings.Less(a.key, b.key)
            || (a.key == b.key &&
                 (|| Strings.Less(a.value, b.value)
                  || (a.value == b.value &&
                       (|| Strings.Less(a.effect, b.effect)
                        || (a.effect == b.effect && Strings.Less(a.operator, b.operator))))))
  {
    var a, b := unique[i], unique[j];
    assert TuplesOf(unique)[i] == TupleOf(a) && TuplesOf(unique)[j] == TupleOf(b);
    BeforeIsListLess(a, b);
    BeforeIsListLess(b, a);
    MatchIsSameTuple(a, b);
    Strings.Trichotomy(a.key, b.key);
    Strings.Trichotomy(a.value, b.value);
    Strings.Trichotomy(a.effect, b.effect);
    Strings.Trichotomy(a.operator, b.operator);
  }

  lemma FinishUnique(src: seq<Toleration>, sorted: seq<Toleration>, unique: seq<Toleration>)
    requires SortedPermutation(NotAfter, src, sorted)
    requires TuplesOf(unique) == Dedup(TuplesOf(sorted))
    requires forall t :: t in unique ==> t in sorted
    ensures Strict(Strings.ListLeq, TuplesOf(unique)) && SameTuples(src, unique)
    ensures forall t :: t in unique ==> t in src
  {
    var tuples := TuplesOf(sorted);
    SortedTuples(src, sorted);
    Orders.ListPreorder();
    Orders.ListAntisymmetric(tuples);
    DedupStrict(Strings.ListLeq, tuples);
    forall x
      ensures x in TuplesOf(src) <==> x in TuplesOf(unique)
    {
      DedupMember(tuples, x);
    }
    forall t | t in unique
      ensures t in src
    {
      PermutationMember(src, sorted, t);
    }
  }

  /** Two lists are equal exactly when they have the same set of (key, value,
      effect, operator) tuples, whatever the order, the duplicates and the tie
      order of the sort. */
  method TolerationsEqual(t1: seq<Toleration>, t2: seq<Toleration>) returns (equal: bool)
    ensures equal <==> SameTuples(t1, t2)
  {
    var s1 := UniqueSortTolerations(t1);
    var s2 := UniqueSortTolerations(t2);
    EqualBySets(s1, s2);
    if |s1| != |s2| {
      assert |TuplesOf(s1)| != |TuplesOf(s2)|;
      return false;
    }
    for i := 0 to |s1|
      invariant forall k :: 0 <= k < i ==> TuplesOf(s1)[k] == TuplesOf(s2)[k]
    {
      MatchIsSameTuple(s1[i], s2[i]);
      if !MatchToleration(s1[i], s2[i]) {
        assert TuplesOf(s1)[i] != TuplesOf(s2)[i];
        return false;
      }
    }
    assert TuplesOf(s1) == TuplesOf(s2);
    return true;
  }

  lemma EqualBySets(s1: seq<Toleration>, s2: seq<Toleration>)
    requires Strict(Strings.ListLeq, TuplesOf(s1)) && Strict(Strings.ListLeq, TuplesOf(s2))
    ensures TuplesOf(s1) == TuplesOf(s2) <==> SameTuples(s1, s2)
  {
    if SameTuples(s1, s2) {
      Orders.ListPreorder();
      Orders.ListAntisymmetric(TuplesOf(s1));
      StrictUnique(Strings.ListLeq, TuplesOf(s1), TuplesOf(s2));
    }
  }

  // -------------------------------------------------------------------- taints

  datatype Taint = Taint(key: string, value: string, effect: string)

  /** The Kubernetes rule for one toleration and one taint, without the numeric
      comparison operators. */
  predicate ToleratesTaint(t: Toleration, taint: Taint)
  {
    && (t.effect != "" ==> t.effect == taint.effect)
    && (t.key != "" ==> t.key == taint.key)
    && if t.operator == "" || t.operator == "Equal" then t.value == taint.value else t.operator == "Exists"
  }

  /** Which taints a toleration covers: with a key, an effect and a value, one; with
      Exists, any value; an empty key or effect stands for all; and no other operator
      covers anything. */
  lemma WhatIsTolerated(t: Toleration, taint: Taint)
    ensures t.key != "" && t.effect != "" && (t.operator == "" || t.operator == "Equal") ==>
              (ToleratesTaint(t, taint) <==> taint == Taint(t.key, t.value, t.effect))
    ensures t.operator == "Exists" ==>
              (ToleratesTaint(t, taint) <==> ToleratesTaint(t.(operator := "Equal", value := taint.value), taint))
    ensures taint.key != "" ==> (ToleratesTaint(t.(key := ""), taint) <==> ToleratesTaint(t.(key := taint.key), taint))
    ensures taint.effect != "" ==>
              (ToleratesTaint(t.(effect := ""), taint) <==> ToleratesTaint(t.(effect := taint.effect), taint))
    ensures t.operator !in {"", "Equal", "Exists"} ==> !ToleratesTaint(t, taint)
  {
  }

  ghost predicate Tolerated(tolerations: seq<Toleration>, taint: Taint)
  {
    exists t :: t in tolerations && ToleratesTaint(t, taint)
  }

  /** Every taint that the filter lets through is tolerated. */
  ghost predicate ToleratesAll(tolerations: seq<Toleration>, taints: seq<Taint>, filter: Option<Taint -> bool>)
  {
    forall taint :: taint in taints && (filter.Some? ==> filter.value(taint)) ==> Tolerated(tolerations, taint)
  }

  method TolerationsTolerateTaint(tolerations: seq<Toleration>, taint: Taint) returns (tolerated: bool)
    ensures tolerated <==> Tolerated(tolerations, taint)
  {
    for i := 0 to |tolerations|
      invariant forall k :: 0 <= k < i ==> !ToleratesTaint(tolerations[k], taint)
    {
      if ToleratesTaint(tolerations[i], taint) {
        assert tolerations[i] in tolerations;
        return true;
      }
    }
    return false;
  }

  method TolerationsTolerateTaintsWithFilter(
      tolerations: seq<Toleration>, taints: seq<Taint>, filter: Option<Taint -> bool>)
    returns (tolerated: bool)
    ensures tolerated <==> ToleratesAll(tolerations, taints, filter)
  {
    for i := 0 to |taints|
      invariant forall k :: 0 <= k < i && (filter.Some? ==> filter.value(taints[k])) ==>
                  Tolerated(tolerations, taints[k])
    {
      if filter.Some? && !filter.value(taints[i]) {
        continue;
      }
      var one := TolerationsTolerateTaint(tolerations, taints[i]);
      if !one {
        assert taints[i] in taints;
        return false;
      }
    }
    return true;
  }

  /** Lists that compare equal tolerate the same taints. */
  lemma EqualTolerateSame(t1: seq<Toleration>, t2: seq<Toleration>, taint: Taint)
    requires SameTuples(t1, t2)
    ensures Tolerated(t1, taint) <==> Tolerated(t2, taint)
  {
    if Tolerated(t1, taint) {
      TolerationMoves(t1, t2, taint);
    }
    if Tolerated(t2, taint) {
      TolerationMoves(t2, t1, taint);
    }
  }

  lemma TolerationMoves(t1: seq<Toleration>, t2: seq<Toleration>, taint: Taint)
    requires SameTuples(t1, t2) && Tolerated(t1, taint)
    ensures Tolerated(t2, taint)
  {
    var t :| t in t1 && ToleratesTaint(t, taint);
    var i :| 0 <= i < |t1| && t1[i] == t;
    assert TuplesOf(t1)[i] in TuplesOf(t1);
    var j :| 0 <= j < |t2| && TuplesOf(t2)[j] == TupleOf(t);
    MatchIsSameTuple(t2[j], t);
    assert t2[j] in t2;
  }
}
