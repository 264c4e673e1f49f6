/** The comparison of zone lists. It walks only the larger side, on both levels,
    so counting does the rest of the work. */
module ZoneEquality {
  import opened ResourceList
  import opened Zones

  /** Two zones' resources: the smaller list first. */
  predicate ResourcesMatch(small: ResourceList, large: ResourceList, names: seq<string>)
  {
    if names == [] then forall r :: r in large ==> Get(small, r) == large[r]
    else forall r :: r in names ==> SameEntry(small, large, r)
  }

  predicate SameEntry(a: ResourceList, b: ResourceList, r: string)
  {
    (r in a <==> r in b) && (r in a ==> a[r] == b[r])
  }

  predicate ZoneMatches(a: ResourceList, b: ResourceList, names: seq<string>)
  {
    if |a| > |b| then ResourcesMatch(b, a, names) else ResourcesMatch(a, b, names)
  }

  predicate MapsMatch(small: ZoneMap, large: ZoneMap, names: seq<string>)
  {
    forall z :: z in large ==> if z in small then ZoneMatches(small[z], large[z], names) else large[z] == map[]
  }

  predicate ZoneListsMatch(a: ZoneMap, b: ZoneMap, names: seq<string>)
  {
    if |a| > |b| then MapsMatch(b, a, names) else MapsMatch(a, b, names)
  }

  method ResourcesEqual(small: ResourceList, large: ResourceList, names: seq<string>) returns (equal: bool)
    ensures equal <==> ResourcesMatch(small, large, names)
  {
    if |names| <= 0 {
      var keys := large.Keys;
      while keys != {}
        invariant keys <= large.Keys
        invariant forall r :: r in large && r !in keys ==> Get(small, r) == large[r]
        decreases |keys|
      {
        var r :| r in keys;
        keys := keys - {r};
        var quantityA := Get(small, r);
        if r !in small && large[r] > 0 {
          return false;
        }
        if quantityA != large[r] {
          return false;
        }
      }
    } else {
      for i := 0 to |names|
        invariant forall k :: 0 <= k < i ==> SameEntry(small, large, names[k])
      {
        var r := names[i];
        assert r in names;
        if r !in small && r !in large {
          continue;
        }
        if r !in small || r !in large {
          return false;
        }
        if small[r] != large[r] {
          return false;
        }
      }
    }
    return true;
  }

  /** No empty zone and no zero quantity. */
  predicate Full(m: ZoneMap)
  {
    NoEmptyZone(m) && forall z :: z in m ==> forall r :: r in m[z] ==> m[z][r] != 0
  }

  predicate NoEmptyZone(m: ZoneMap)
  {
    forall z :: z in m ==> m[z] != map[]
  }

  method IsZoneListResourceEqual(a: seq<Zone>, b: seq<Zone>, names: seq<string>) returns (equal: bool)
    ensures equal <==> ZoneListsMatch(ToMap(a), ToMap(b), names)
    ensures names == [] && Full(ToMap(a)) && Full(ToMap(b)) ==> (equal <==> ToMap(a) == ToMap(b))
    ensures names != [] && NoEmptyZone(ToMap(a)) && NoEmptyZone(ToMap(b)) ==>
              (equal <==> SameOn(ToMap(a), ToMap(b), names))
  {
    var small := ZoneListToZoneResourceList(a);
    var large := ZoneListToZoneResourceList(b);
    MatchIsEquality(small, large);
    MatchIsSameOn(small, large, names);
    if |small| > |large| {
      small, large := large, small;
    }
    equal := MapsEqual(small, large, names);
  }

  method MapsEqual(small: ZoneMap, large: ZoneMap, names: seq<string>) returns (equal: bool)
    ensures equal <==> MapsMatch(small, large, names)
  {
    var keys := large.Keys;
    while keys != {}
      invariant keys <= large.Keys
      invariant forall z :: z in large && z !in keys ==>
                  if z in small then ZoneMatches(small[z], large[z], names) else large[z] == map[]
      decreases |keys|
    {
      var z :| z in keys;
      keys := keys - {z};
      if z !in small && |large[z]| > 0 {
        return false;
      }
      if z !in small {
        continue;
      }
      var zoneA, zoneB := small[z], large[z];
      if |zoneA| > |zoneB| {
        zoneA, zoneB := zoneB, zoneA;
      }
      var same := ResourcesEqual(zoneA, zoneB, names);
      if !same {
        return false;
      }
    }
    return true;
  }

  /** A larger list all of whose non-zero entries are in the smaller one is that
      list. */
  lemma LargerInSmaller(small: ResourceList, large: ResourceList)
    requires |small| <= |large| && ResourcesMatch(small, large, [])
    requires forall r :: r in large ==> large[r] != 0
    ensures small == large
  {
    forall r | r in large
      ensures r in small && small[r] == large[r]
    {
      assert Get(small, r) == large[r];
    }
    SubsetOfSameSize(large.Keys, small.Keys);
  }

  lemma ZonesIncluded(small: ZoneMap, large: ZoneMap, names: seq<string>)
    requires |small| <= |large| && MapsMatch(small, large, names) && NoEmptyZone(large)
    ensures small.Keys == large.Keys
  {
    assert |small.Keys| == |small| && |large.Keys| == |large|;
    forall z | z in large
      ensures z in small
    {
      assert large[z] != map[];
    }
    SubsetOfSameSize(large.Keys, small.Keys);
  }

  lemma FullMatch(small: ZoneMap, large: ZoneMap)
    requires |small| <= |large| && Full(small) && Full(large) && MapsMatch(small, large, [])
    ensures small == large
  {
    ZonesIncluded(small, large, []);
    forall z | z in large
      ensures small[z] == large[z]
    {
      assert ZoneMatches(small[z], large[z], []);
      if |small[z]| > |large[z]| {
        LargerInSmaller(large[z], small[z]);
      } else {
        LargerInSmaller(small[z], large[z]);
      }
    }
  }

  /** Without resource names and on full maps the comparison decides equality;
      so there it is symmetric. */
  lemma MatchIsEquality(a: ZoneMap, b: ZoneMap)
    ensures Full(a) && Full(b) ==> (ZoneListsMatch(a, b, []) <==> a == b)
    ensures Full(a) && Full(b) ==> (ZoneListsMatch(a, b, []) <==> ZoneListsMatch(b, a, []))
  {
    if Full(a) && Full(b) {
      if ZoneListsMatch(a, b, []) {
        if |a| > |b| {
          FullMatch(b, a);
        } else {
          FullMatch(a, b);
        }
      }
      if ZoneListsMatch(b, a, []) {
        if |b| > |a| {
          FullMatch(a, b);
        } else {
          FullMatch(b, a);
        }
      }
    }
  }

  /** The same zones, and in each the same entries for the named resources. */
  ghost predicate SameOn(a: ZoneMap, b: ZoneMap, names: seq<string>)
  {
    a.Keys == b.Keys && forall z, r :: r in names ==> Entry(a, z, r) == Entry(b, z, r)
  }

  lemma NamedMatch(a: ZoneMap, b: ZoneMap, names: seq<string>)
    requires a.Keys == b.Keys && names != []
    ensures ZoneListsMatch(a, b, names) <==> SameOn(a, b, names)
  {
    assert |a.Keys| == |a| && |b.Keys| == |b|;
    if ZoneListsMatch(a, b, names) {
      forall z, r | r in names
        ensures Entry(a, z, r) == Entry(b, z, r)
      {
        if z in a {
          assert ZoneMatches(a[z], b[z], names);
          assert SameEntry(a[z], b[z], r);
        }
      }
    }
    if SameOn(a, b, names) {
      forall z | z in b
        ensures ZoneMatches(a[z], b[z], names)
      {
        forall r | r in names
          ensures SameEntry(a[z], b[z], r) && SameEntry(b[z], a[z], r)
        {
          assert Entry(a, z, r) == Entry(b, z, r);
        }
      }
    }
  }

  /** With resource names it is enough that no zone is empty. */
  lemma MatchIsSameOn(a: ZoneMap, b: ZoneMap, names: seq<string>)
    ensures names != [] && NoEmptyZone(a) && NoEmptyZone(b) ==> (ZoneListsMatch(a, b, names) <==> SameOn(a, b, names))
  {
    if names != [] && NoEmptyZone(a) && NoEmptyZone(b) {
      if ZoneListsMatch(a, b, names) {
        if |a| > |b| {
          ZonesIncluded(b, a, names);
        } else {
          ZonesIncluded(a, b, names);
        }
      }
      if a.Keys == b.Keys {
        NamedMatch(a, b, names);
      }
    }
  }

  // ------------------------------------------------ what the comparison misses

  /** `a` is `b` with zones, or resources within zones, removed. */
  ghost predicate Deleted(a: ZoneMap, b: ZoneMap)
  {
    && a.Keys <= b.Keys
    && forall z :: z in a ==> Included(a[z], b[z])
  }

  ghost predicate Included(x: ResourceList, y: ResourceList)
  {
    x.Keys <= y.Keys && forall r :: r in x ==> x[r] == y[r]
  }

  lemma IncludedSmaller<V>(a: map<string, V>, b: map<string, V>)
    requires a.Keys <= b.Keys
    ensures |a| <= |b| && (|a| == |b| ==> a.Keys == b.Keys)
  {
    assert |a.Keys| == |a| && |b.Keys| == |b|;
    assert b.Keys == a.Keys + (b.Keys - a.Keys);
  }

  lemma ZoneMatchesItself(x: ResourceList, names: seq<string>)
    ensures ZoneMatches(x, x, names)
  {
  }

  lemma MatchesItself(b: ZoneMap, names: seq<string>)
    ensures ZoneListsMatch(b, b, names)
  {
    forall z | z in b
      ensures ZoneMatches(b[z], b[z], names)
    {
      ZoneMatchesItself(b[z], names);
    }
  }

  /** An empty zone is not missed. */
  lemma EmptyZoneMisleads(b: ZoneMap, z: string, names: seq<string>)
    requires z in b && b[z] == map[]
    ensures b - {z} != b && ZoneListsMatch(b - {z}, b, names)
  {
    MatchesItself(b, names);
    IncludedSmaller(b - {z}, b);
    assert z in b && z !in b - {z};
  }

  /** Not even when another zone takes its place; but that only one way round. */
  lemma EmptyZoneOneWay(b: ZoneMap, z: string, other: string, x: ResourceList, names: seq<string>)
    requires z in b && b[z] == map[] && other !in b && x != map[]
    ensures var a := (b - {z})[other := x];
            a != b && ZoneListsMatch(a, b, names) && !ZoneListsMatch(b, a, names)
  {
    var a := (b - {z})[other := x];
    assert a.Keys == b.Keys - {z} + {other};
    assert |a.Keys| == |b.Keys| && |a| == |a.Keys| && |b| == |b.Keys|;
    assert other in a && other !in b && a[other] == x;
    forall y | y in b
      ensures if y in a then ZoneMatches(a[y], b[y], names) else b[y] == map[]
    {
      ZoneMatchesItself(b[y], names);
    }
  }

  /** A zero quantity is not missed. */
  lemma ZeroQuantityMisleads(b: ZoneMap, z: string, r: string)
    requires z in b && r in b[z] && b[z][r] == 0
    ensures b[z := b[z] - {r}] != b && ZoneListsMatch(b[z := b[z] - {r}], b, [])
  {
    var less := b[z] - {r};
    var a := b[z := less];
    assert r in b[z] && r !in less && a[z] == less;
    assert a.Keys == b.Keys && |a| == |a.Keys| && |b| == |b.Keys|;
    MatchesItself(b, []);
    IncludedSmaller(less, b[z]);
    assert ZoneMatches(less, b[z], []);
    forall y | y in b
      ensures ZoneMatches(a[y], b[y], [])
    {
      ZoneMatchesItself(b[y], []);
    }
  }

  lemma DeletedWasMissed(a: ZoneMap, b: ZoneMap)
    requires Deleted(a, b) && Full(b) && ZoneListsMatch(a, b, [])
    ensures a == b
  {
    IncludedSmaller(a, b);
    ZonesIncluded(a, b, []);
    forall z | z in b
      ensures a[z] == b[z]
    {
      IncludedSmaller(a[z], b[z]);
      assert ZoneMatches(a[z], b[z], []);
      LargerInSmaller(a[z], b[z]);
    }
  }

  lemma DeletionMissed(b: ZoneMap) returns (a: ZoneMap)
    requires !Full(b)
    ensures Deleted(a, b) && a != b && ZoneListsMatch(a, b, [])
  {
    if z :| z in b && b[z] == map[] {
      EmptyZoneMisleads(b, z, []);
      a := b - {z};
    } else {
      var z, r :| z in b && r in b[z] && b[z][r] == 0;
      ZeroQuantityMisleads(b, z, r);
      a := b[z := b[z] - {r}];
    }
  }

  /** The comparison notices every deletion from a zone map exactly when the map has
      no empty zone and no zero quantity. */
  lemma DeletionsNoticed(b: ZoneMap)
    ensures (forall a :: Deleted(a, b) ==> (ZoneListsMatch(a, b, []) <==> a == b)) <==> Full(b)
  {
    if Full(b) {
      forall a | Deleted(a, b)
        ensures ZoneListsMatch(a, b, []) <==> a == b
      {
        MatchesItself(b, []);
        if ZoneListsMatch(a, b, []) {
          DeletedWasMissed(a, b);
        }
      }
    } else {
      var a := DeletionMissed(b);
    }
  }

  /** With resource names it notices every deletion that concerns a zone or a named
      resource exactly when there is no empty zone. */
  lemma NamedDeletionsNoticed(b: ZoneMap, names: seq<string>)
    requires names != []
    ensures (forall a :: Deleted(a, b) ==> (ZoneListsMatch(a, b, names) <==> SameOn(a, b, names))) <==> NoEmptyZone(b)
  {
    if NoEmptyZone(b) {
      forall a | Deleted(a, b)
        ensures ZoneListsMatch(a, b, names) <==> SameOn(a, b, names)
      {
        IncludedSmaller(a, b);
        if ZoneListsMatch(a, b, names) {
          ZonesIncluded(a, b, names);
        }
        if a.Keys == b.Keys {
          NamedMatch(a, b, names);
        }
      }
    } else {
      var z :| z in b && b[z] == map[];
      EmptyZoneMisleads(b, z, names);
      assert Deleted(b - {z}, b);
      assert z !in (b - {z}).Keys && z in b.Keys;
    }
  }
}
