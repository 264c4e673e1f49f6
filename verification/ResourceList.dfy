/** Resource lists: maps from resource names to quantities, and the library's
    arithmetic on them. Quantities are integers in the smallest unit. */
module ResourceList {

  type ResourceList = map<string, int>

  /** A missing resource reads as zero. */
  function Get(a: ResourceList, name: string): int
  {
    if name in a then a[name] else 0
  }

  function Add(a: ResourceList, b: ResourceList): ResourceList
  {
    map k | k in a.Keys + b.Keys :: Get(a, k) + Get(b, k)
  }

  function Subtract(a: ResourceList, b: ResourceList): ResourceList
  {
    map k | k in a.Keys + b.Keys :: Get(a, k) - Get(b, k)
  }

  /** The library's maximum keeps a one-sided entry as it is, even a negative
      one. */
  function Max(a: ResourceList, b: ResourceList): ResourceList
  {
    map k | k in a.Keys + b.Keys ::
      if k in a && k in b then (if a[k] <= b[k] then b[k] else a[k])
      else if k in a then a[k] else Get(b, k)
  }

  function RemoveZeros(a: ResourceList): ResourceList
  {
    map k | k in a && a[k] != 0 :: a[k]
  }

  /** Every resource in `a` is at most what it is in `b`. */
  ghost predicate Leq(a: ResourceList, b: ResourceList)
  {
    forall k :: Get(a, k) <= Get(b, k)
  }

  ghost predicate SameAmounts(a: ResourceList, b: ResourceList)
  {
    forall k :: Get(a, k) == Get(b, k)
  }

  /** `m` is the list of the common resources with the smaller quantities. */
  ghost predicate IsMin(a: ResourceList, b: ResourceList, m: ResourceList)
  {
    && m.Keys == a.Keys * b.Keys
    && forall k :: k in m ==> m[k] <= a[k] && m[k] <= b[k] && (m[k] == a[k] || m[k] == b[k])
  }

  method MinResourceList(a: ResourceList, b: ResourceList) returns (result: ResourceList)
    ensures IsMin(a, b, result)
  {
    result := map[];
    var keys := a.Keys;
    while keys != {}
      invariant keys <= a.Keys
      invariant result.Keys == (a.Keys - keys) * b.Keys
      invariant forall k :: k in result ==>
                  result[k] <= a[k] && result[k] <= b[k] && (result[k] == a[k] || result[k] == b[k])
      decreases |keys|
    {
      var k :| k in keys;
      keys := keys - {k};
      if k in b {
        result := result[k := if a[k] >= b[k] then b[k] else a[k]];
      }
    }
  }

  lemma SubsetOfSameSize(a: set<string>, b: set<string>)
    requires a <= b && |b| <= |a|
    ensures a == b
  {
    assert b == a + (b - a);
    assert |b - a| == 0;
  }

  /** Comparing the sizes and one side's entries is enough. */
  method IsResourceListEqual(a: ResourceList, b: ResourceList) returns (equal: bool)
    ensures equal <==> a == b
  {
    if |a| != |b| {
      return false;
    }
    var keys := a.Keys;
    while keys != {}
      invariant keys <= a.Keys
      invariant forall k :: k in a && k !in keys ==> k in b && a[k] == b[k]
      decreases |keys|
    {
      var k :| k in keys;
      keys := keys - {k};
      if k !in b || a[k] != b[k] {
        return false;
      }
    }
    assert |a.Keys| == |a| && |b.Keys| == |b|;
    SubsetOfSameSize(a.Keys, b.Keys);
    return true;
  }

  method IsResourceListEqualIgnoreZeroValues(a: ResourceList, b: ResourceList) returns (equal: bool)
    ensures equal <==> SameAmounts(a, b)
  {
    var x, y := RemoveZeros(a), RemoveZeros(b);
    equal := IsResourceListEqual(x, y);
    assert forall k :: Get(x, k) == Get(a, k) && Get(y, k) == Get(b, k);
    if SameAmounts(a, b) {
      assert x.Keys == y.Keys by {
        forall k
          ensures k in x <==> k in y
        {
          assert Get(a, k) == Get(b, k);
        }
      }
      forall k | k in x
        ensures x[k] == y[k]
      {
        assert Get(a, k) == Get(b, k);
      }
      assert x == y;
    }
  }

  /** Decides the order that reads missing resources as zero on both sides. */
  method LessThanOrEqualCompletely(a: ResourceList, b: ResourceList) returns (result: bool)
    ensures result <==> Leq(a, b)
  {
    result := true;
    var delta := Subtract(a, b);
    var keys := delta.Keys;
    while keys != {}
      invariant keys <= delta.Keys && result
      invariant forall k :: k in delta && k !in keys ==> Get(a, k) <= Get(b, k)
      decreases |keys|
    {
      var k :| k in keys;
      keys := keys - {k};
      if delta[k] > 0 {
        result := false;
        break;
      }
    }
    if result {
      forall k
        ensures Get(a, k) <= Get(b, k)
      {
        assert k in delta || Get(a, k) == Get(b, k) == 0;
      }
    }
  }

  /** It is a partial order, and its antisymmetry is the equality that ignores
      zeros. */
  lemma LeqIsPartialOrder(a: ResourceList, b: ResourceList, c: ResourceList)
    ensures Leq(a, a)
    ensures Leq(a, b) && Leq(b, c) ==> Leq(a, c)
    ensures Leq(a, b) && Leq(b, a) <==> SameAmounts(a, b)
  {
    if Leq(a, b) && Leq(b, c) {
      forall k
        ensures Get(a, k) <= Get(c, k)
      {
        assert Get(a, k) <= Get(b, k) <= Get(c, k);
      }
    }
    if Leq(a, b) && Leq(b, a) {
      forall k
        ensures Get(a, k) == Get(b, k)
      {
        assert Get(a, k) <= Get(b, k) <= Get(a, k);
      }
    }
    if SameAmounts(a, b) {
      forall k
        ensures Get(a, k) <= Get(b, k) <= Get(a, k)
      {
        assert Get(a, k) == Get(b, k);
      }
    }
  }

  /** No resource that only one list mentions is negative. */
  ghost predicate OneSidedNonNegative(a: ResourceList, b: ResourceList)
  {
    && (forall k :: k in a && k !in b ==> a[k] >= 0)
    && (forall k :: k in b && k !in a ==> b[k] >= 0)
  }

  ghost predicate IsGreatestLowerBound(a: ResourceList, b: ResourceList, m: ResourceList)
  {
    Leq(m, a) && Leq(m, b) && forall c :: Leq(c, a) && Leq(c, b) ==> Leq(c, m)
  }

  /** The minimum is the greatest lower bound exactly when no one-sided entry is
      negative; non-negative lists always qualify. */
  lemma MinIsGreatestLowerBound(a: ResourceList, b: ResourceList, m: ResourceList)
    requires IsMin(a, b, m)
    ensures IsGreatestLowerBound(a, b, m) <==> OneSidedNonNegative(a, b)
  {
    if OneSidedNonNegative(a, b) {
      forall c | Leq(c, a) && Leq(c, b)
        ensures Leq(c, m)
      {
        forall k
          ensures Get(c, k) <= Get(m, k)
        {
          assert Get(c, k) <= Get(a, k) && Get(c, k) <= Get(b, k);
        }
      }
    } else if k :| k in a && k !in b && a[k] < 0 {
      assert Get(m, k) > Get(a, k);
    } else {
      var k :| k in b && k !in a && b[k] < 0;
      assert Get(m, k) > Get(b, k);
    }
  }

  /** The equation the documentation gives, for all lists, up to zero entries. */
  lemma MinIsSumMinusMax(a: ResourceList, b: ResourceList, m: ResourceList)
    requires IsMin(a, b, m)
    ensures SameAmounts(m, Subtract(Add(a, b), Max(a, b)))
  {
    forall k
      ensures Get(m, k) == Get(Subtract(Add(a, b), Max(a, b)), k)
    {
      assert k in m <==> k in a && k in b;
    }
  }
}
