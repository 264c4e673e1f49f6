/** NUMA zone lists, the two-level maps they describe, and the operations that
    convert, merge, trim and compare them. */
module Zones {
  import opened Keyed
  import opened Options
  import opened ResourceList
  import opened Sorting
  import Strings

  const NODE_ZONE_TYPE := "Node"

  datatype ResourceInfo = ResourceInfo(name: string, capacity: int, allocatable: int, available: int)

  datatype Zone = Zone(name: string, kind: string, resources: seq<ResourceInfo>)

  type ZoneMap = map<string, ResourceList>

  function InfoName(r: ResourceInfo): string { r.name }
  function InfoQuantity(r: ResourceInfo): int { r.allocatable }
  function ZoneName(z: Zone): string { z.name }
  function ZoneResources(z: Zone): ResourceList { Collect(InfoName, InfoQuantity, z.resources) }

  /** The map a zone list describes. */
  function ToMap(zones: seq<Zone>): ZoneMap
  {
    Collect(ZoneName, ZoneResources, zones)
  }

  /** As the conversion from a map writes it: sorted by name on both levels, and
      one quantity for capacity, allocatable and available. */
  predicate Canonical(zones: seq<Zone>)
  {
    Increasing(ZoneName, zones) && forall i :: 0 <= i < |zones| ==> CanonicalZone(zones[i])
  }

  predicate CanonicalZone(z: Zone)
  {
    z.kind == NODE_ZONE_TYPE && CanonicalInfos(z.resources)
  }

  predicate CanonicalInfos(infos: seq<ResourceInfo>)
  {
    && Increasing(InfoName, infos)
    && forall i :: 0 <= i < |infos| ==> OneQuantity(infos[i])
  }

  // -------------------------------------------------------------- conversions

  method ZoneListToZoneResourceList(zones: seq<Zone>) returns (m: ZoneMap)
    ensures m == ToMap(zones)
  {
    m := map[];
    for i := 0 to |zones|
      invariant m == ToMap(zones[..i])
    {
      var zone := zones[i];
      ghost var before := m;
      m := m[zone.name := map[]];
      for j := 0 to |zone.resources|
        invariant m == before[zone.name := Collect(InfoName, InfoQuantity, zone.resources[..j])]
      {
        var info := zone.resources[j];
        assert zone.resources[..j + 1][..j] == zone.resources[..j];
        m := m[zone.name := m[zone.name][info.name := info.allocatable]];
      }
      assert zone.resources[..|zone.resources|] == zone.resources;
      assert zones[..i + 1][..i] == zones[..i];
    }
    assert zones[..|zones|] == zones;
  }

  /** On any list, canonical or not: a zone shows by its last entry of that name, and in
      it a resource by its last entry, with its allocatable quantity. */
  lemma LastEntryShows(zones: seq<Zone>, i: nat, j: nat)
    requires i < |zones| && forall k :: i < k < |zones| ==> zones[k].name != zones[i].name
    requires j < |zones[i].resources|
    requires forall k :: j < k < |zones[i].resources| ==> zones[i].resources[k].name != zones[i].resources[j].name
    ensures zones[i].name in ToMap(zones) && zones[i].resources[j].name in ToMap(zones)[zones[i].name]
    ensures ToMap(zones)[zones[i].name][zones[i].resources[j].name] == zones[i].resources[j].allocatable
  {
    CollectLast(ZoneName, ZoneResources, zones, i);
    CollectLast(InfoName, InfoQuantity, zones[i].resources, j);
  }

  /** And there is nothing else in the map. */
  lemma OnlyEntriesShow(zones: seq<Zone>, z: string, r: string)
    ensures z in ToMap(zones) <==> exists i :: 0 <= i < |zones| && zones[i].name == z
    ensures z in ToMap(zones) && r in ToMap(zones)[z] ==>
              exists i, j :: 0 <= i < |zones| && zones[i].name == z
                && 0 <= j < |zones[i].resources| && zones[i].resources[j].name == r
  {
    CollectKeys(ZoneName, ZoneResources, zones, z);
    if z in ToMap(zones) {
      var i := LastOf(ZoneName, zones, z);
      CollectLast(ZoneName, ZoneResources, zones, i);
      assert ToMap(zones)[z] == ZoneResources(zones[i]);
      CollectKeys(InfoName, InfoQuantity, zones[i].resources, r);
    }
  }

  /** What a canonical list looks like: zones of type Node by ascending name, and in each
      the resources by ascending name; */
  lemma CanonicalLooks(zones: seq<Zone>)
    requires Canonical(zones)
    ensures forall i :: 0 <= i < |zones| ==> zones[i].kind == "Node"
    ensures forall i, j :: 0 <= i < j < |zones| ==> Strings.Less(zones[i].name, zones[j].name)
    ensures forall i, j, k :: 0 <= i < |zones| && 0 <= j < k < |zones[i].resources| ==>
              Strings.Less(zones[i].resources[j].name, zones[i].resources[k].name)
  {
    assert forall i :: 0 <= i < |zones| ==> CanonicalZone(zones[i]);
  }

  /** and one quantity for all three, which is the map's. */
  lemma CanonicalQuantities(zones: seq<Zone>, i: nat, j: nat)
    requires Canonical(zones) && i < |zones| && j < |zones[i].resources|
    ensures var info, m := zones[i].resources[j], ToMap(zones);
            && zones[i].name in m && info.name in m[zones[i].name]
            && info.capacity == info.allocatable == info.available == m[zones[i].name][info.name]
  {
    assert CanonicalZone(zones[i]) && OneQuantity(zones[i].resources[j]);
    IncreasingDistinct(ZoneName, zones);
    IncreasingDistinct(InfoName, zones[i].resources);
    CollectAt(ZoneName, ZoneResources, zones, i);
    CollectAt(InfoName, InfoQuantity, zones[i].resources, j);
  }

  predicate OneQuantity(r: ResourceInfo)
  {
    r.capacity == r.allocatable == r.available
  }

  /** One zone's resources, in any order of the map. */
  method UnsortedInfos(resources: ResourceList) returns (infos: seq<ResourceInfo>)
    ensures Distinct(InfoName, infos) && Collect(InfoName, InfoQuantity, infos) == resources
    ensures forall i :: 0 <= i < |infos| ==> OneQuantity(infos[i])
  {
    infos := [];
    var keys := resources.Keys;
    while keys != {}
      invariant keys <= resources.Keys
      invariant Distinct(InfoName, infos)
      invariant forall i :: 0 <= i < |infos| ==> InfoName(infos[i]) !in keys && OneQuantity(infos[i])
      invariant Collect(InfoName, InfoQuantity, infos) == resources - keys
      decreases |keys|
    {
      var k :| k in keys;
      var info := ResourceInfo(k, resources[k], resources[k], resources[k]);
      assert (infos + [info])[..|infos|] == infos;
      TakeOne(resources, keys, k);
      infos := infos + [info];
      keys := keys - {k};
    }
    assert resources - keys == resources;
  }

  /** The same, sorted. */
  method ResourceInfos(resources: ResourceList) returns (infos: seq<ResourceInfo>)
    ensures CanonicalInfos(infos) && Collect(InfoName, InfoQuantity, infos) == resources
  {
    var unsorted := UnsortedInfos(resources);
    ByKeyPreorder(InfoName);
    infos := SortSlice(ByKey(InfoName), unsorted);
    SortedIncreasing(InfoName, unsorted, infos);
    IncreasingDistinct(InfoName, infos);
    CollectPermuted(InfoName, InfoQuantity, unsorted, infos);
    forall i | 0 <= i < |infos|
      ensures OneQuantity(infos[i])
    {
      PermutationMember(unsorted, infos, infos[i]);
    }
  }

  method UnsortedZones(m: ZoneMap) returns (zones: seq<Zone>)
    ensures Distinct(ZoneName, zones) && ToMap(zones) == m
    ensures forall i :: 0 <= i < |zones| ==> CanonicalZone(zones[i])
  {
    zones := [];
    var keys := m.Keys;
    while keys != {}
      invariant keys <= m.Keys
      invariant Distinct(ZoneName, zones)
      invariant forall i :: 0 <= i < |zones| ==> ZoneName(zones[i]) !in keys && CanonicalZone(zones[i])
      invariant ToMap(zones) == m - keys
      decreases |keys|
    {
      var k :| k in keys;
      var infos := ResourceInfos(m[k]);
      var zone := Zone(k, NODE_ZONE_TYPE, infos);
      assert (zones + [zone])[..|zones|] == zones;
      TakeOne(m, keys, k);
      zones := zones + [zone];
      keys := keys - {k};
    }
    assert m - keys == m;
  }

  /** Whatever order the map is walked in, the list is canonical and describes
      the map: converting back is the identity. */
  method ZoneResourceListToZoneList(m: ZoneMap) returns (zones: seq<Zone>)
    ensures Canonical(zones) && ToMap(zones) == m
  {
    var unsorted := UnsortedZones(m);
    ByKeyPreorder(ZoneName);
    zones := SortSlice(ByKey(ZoneName), unsorted);
    SortedIncreasing(ZoneName, unsorted, zones);
    IncreasingDistinct(ZoneName, zones);
    CollectPermuted(ZoneName, ZoneResources, unsorted, zones);
    forall i | 0 <= i < |zones|
      ensures CanonicalZone(zones[i])
    {
      PermutationMember(unsorted, zones, zones[i]);
    }
  }

  lemma InfosUnique(a: seq<ResourceInfo>, b: seq<ResourceInfo>)
    requires CanonicalInfos(a) && CanonicalInfos(b)
    requires Collect(InfoName, InfoQuantity, a) == Collect(InfoName, InfoQuantity, b)
    ensures a == b
  {
    forall x
      ensures x in a <==> x in b
    {
      if x in a {
        InfoMoves(a, b, x);
      }
      if x in b {
        InfoMoves(b, a, x);
      }
    }
    IncreasingUnique(InfoName, a, b);
  }

  lemma InfoMoves(a: seq<ResourceInfo>, b: seq<ResourceInfo>, x: ResourceInfo)
    requires CanonicalInfos(a) && CanonicalInfos(b) && x in a
    requires Collect(InfoName, InfoQuantity, a) == Collect(InfoName, InfoQuantity, b)
    ensures x in b
  {
    IncreasingDistinct(InfoName, a);
    IncreasingDistinct(InfoName, b);
    var i :| 0 <= i < |a| && a[i] == x;
    CollectAt(InfoName, InfoQuantity, a, i);
    CollectKeys(InfoName, InfoQuantity, b, x.name);
    var j :| 0 <= j < |b| && InfoName(b[j]) == x.name;
    CollectAt(InfoName, InfoQuantity, b, j);
    assert b[j] == x;
  }

  lemma ZoneMoves(a: seq<Zone>, b: seq<Zone>, x: Zone)
    requires Canonical(a) && Canonical(b) && ToMap(a) == ToMap(b) && x in a
    ensures x in b
  {
    IncreasingDistinct(ZoneName, a);
    IncreasingDistinct(ZoneName, b);
    var i :| 0 <= i < |a| && a[i] == x;
    CollectAt(ZoneName, ZoneResources, a, i);
    CollectKeys(ZoneName, ZoneResources, b, x.name);
    var j :| 0 <= j < |b| && ZoneName(b[j]) == x.name;
    CollectAt(ZoneName, ZoneResources, b, j);
    InfosUnique(a[i].resources, b[j].resources);
    assert b[j] == x;
  }

  /** One canonical list per map: so the conversion gives the same list for every
      iteration order. */
  lemma CanonicalUnique(a: seq<Zone>, b: seq<Zone>)
    requires Canonical(a) && Canonical(b) && ToMap(a) == ToMap(b)
    ensures a == b
  {
    forall x
      ensures x in a <==> x in b
    {
      if x in a {
        ZoneMoves(a, b, x);
      }
      if x in b {
        ZoneMoves(b, a, x);
      }
    }
    IncreasingUnique(ZoneName, a, b);
  }

  // ------------------------------------------------------------ merge and trim

  /** Right-biased on both levels: zones, and resources within a zone. */
  function Merged(a: ZoneMap, b: ZoneMap): ZoneMap
  {
    map z | z in a.Keys + b.Keys :: MergedZone(a, b, z)
  }

  function MergedZone(a: ZoneMap, b: ZoneMap, z: string): ResourceList
    requires z in a || z in b
  {
    if z !in b then a[z] else if z !in a then b[z] else a[z] + b[z]
  }

  /** A zone's quantity of a resource, if it has one. */
  function Entry(m: ZoneMap, z: string, r: string): Option<int>
  {
    if z in m && r in m[z] then Some(m[z][r]) else None
  }

  ghost predicate IsMerge(a: seq<Zone>, b: seq<Zone>, out: seq<Zone>)
  {
    Canonical(out) && ToMap(out) == Merged(ToMap(a), ToMap(b))
  }

  lemma MergeOne(was: ZoneMap, other: ZoneMap, keys: set<string>, z: string)
    requires z in keys && keys <= other.Keys
    ensures var before := Merged(was, other - keys);
            Merged(was, other - (keys - {z})) ==
              before[z := if z in before then before[z] + other[z] else other[z]]
  {
    TakeOne(other, keys, z);
  }

  method MergeMaps(a: ZoneMap, b: ZoneMap) returns (merged: ZoneMap)
    ensures merged == Merged(a, b)
  {
    merged := a;
    var keys := b.Keys;
    assert b - keys == map[] && Merged(a, map[]) == a;
    while keys != {}
      invariant keys <= b.Keys
      invariant merged == Merged(a, b - keys)
      decreases |keys|
    {
      var z :| z in keys;
      MergeOne(a, b, keys, z);
      if z !in merged {
        merged := merged[z := b[z]];
      } else {
        var resources := Override(merged[z], b[z]);
        merged := merged[z := resources];
      }
      keys := keys - {z};
    }
    assert b - keys == b;
  }

  /** The second list's entry if it has one, otherwise the first list's. */
  lemma MergeTakesSecond(a: seq<Zone>, b: seq<Zone>, out: seq<Zone>, z: string, r: string)
    requires IsMerge(a, b, out)
    ensures z in ToMap(out) <==> z in ToMap(a) || z in ToMap(b)
    ensures Entry(ToMap(out), z, r) ==
            if Entry(ToMap(b), z, r).Some? then Entry(ToMap(b), z, r) else Entry(ToMap(a), z, r)
  {
  }

  method MergeZoneList(a: seq<Zone>, b: seq<Zone>) returns (out: seq<Zone>)
    ensures IsMerge(a, b, out)
    ensures forall z, r :: Entry(ToMap(out), z, r) ==
              if Entry(ToMap(b), z, r).Some? then Entry(ToMap(b), z, r) else Entry(ToMap(a), z, r)
  {
    var zoneResourcesA := ZoneListToZoneResourceList(a);
    var zoneResourcesB := ZoneListToZoneResourceList(b);
    var merged := MergeMaps(zoneResourcesA, zoneResourcesB);
    out := ZoneResourceListToZoneList(merged);
    forall z, r
      ensures Entry(ToMap(out), z, r) ==
              if Entry(ToMap(b), z, r).Some? then Entry(ToMap(b), z, r) else Entry(ToMap(a), z, r)
    {
      MergeTakesSecond(a, b, out, z, r);
    }
  }

  lemma OverrideAssociative(a: ResourceList, b: ResourceList, c: ResourceList)
    ensures (a + b) + c == a + (b + c)
  {
  }

  lemma MergedAssociative(a: ZoneMap, b: ZoneMap, c: ZoneMap)
    ensures Merged(Merged(a, b), c) == Merged(a, Merged(b, c))
  {
    var l, r := Merged(Merged(a, b), c), Merged(a, Merged(b, c));
    assert l.Keys == r.Keys;
    forall z | z in l
      ensures l[z] == r[z]
    {
      MergedAssociativeAt(a, b, c, z);
    }
  }

  lemma MergedAssociativeAt(a: ZoneMap, b: ZoneMap, c: ZoneMap, z: string)
    requires z in Merged(Merged(a, b), c)
    ensures z in Merged(a, Merged(b, c))
    ensures Merged(Merged(a, b), c)[z] == Merged(a, Merged(b, c))[z]
  {
    var ab, bc := Merged(a, b), Merged(b, c);
    assert z in ab <==> z in a || z in b;
    assert z in bc <==> z in b || z in c;
    assert z in ab ==> ab[z] == MergedZone(a, b, z);
    assert z in bc ==> bc[z] == MergedZone(b, c, z);
    assert MergedZone(ab, c, z) == MergedZone(a, bc, z) by {
      if z in a && z in b && z in c {
        OverrideAssociative(a[z], b[z], c[z]);
      }
    }
  }

  /** Merging is associative on the lists themselves, for every list. */
  lemma MergeAssociative(
      a: seq<Zone>, b: seq<Zone>, c: seq<Zone>, ab: seq<Zone>, bc: seq<Zone>, l: seq<Zone>, r: seq<Zone>)
    requires IsMerge(a, b, ab) && IsMerge(ab, c, l) && IsMerge(b, c, bc) && IsMerge(a, bc, r)
    ensures l == r
  {
    MergedAssociative(ToMap(a), ToMap(b), ToMap(c));
    CanonicalUnique(l, r);
  }

  /** Merging a list with itself gives its canonical form, which is the list
      itself exactly when it is canonical. */
  lemma MergeIdempotent(a: seq<Zone>, out: seq<Zone>)
    requires IsMerge(a, a, out)
    ensures ToMap(out) == ToMap(a)
    ensures out == a <==> Canonical(a)
  {
    var m := ToMap(a);
    assert forall z :: z in m ==> m[z] + m[z] == m[z];
    assert Merged(m, m) == m;
    if Canonical(a) {
      CanonicalUnique(out, a);
    }
  }

  method TrimMap(a: ZoneMap, b: ZoneMap) returns (m: ZoneMap)
    ensures m.Keys == a.Keys * b.Keys
    ensures forall z :: z in m ==> m[z] == a[z]
  {
    m := a;
    var keys := a.Keys;
    while keys != {}
      invariant keys <= a.Keys
      invariant forall z :: z in m <==> z in a && (z in b || z in keys)
      invariant forall z :: z in m ==> m[z] == a[z]
      decreases |keys|
    {
      var z :| z in keys;
      if z !in b {
        m := m - {z};
      }
      keys := keys - {z};
    }
  }

  /** Keeps the zones of `a` that `b` has too, with the resources of `a`. */
  method TrimDifferentZone(a: seq<Zone>, b: seq<Zone>) returns (out: seq<Zone>)
    ensures Canonical(out)
    ensures ToMap(out).Keys == ToMap(a).Keys * ToMap(b).Keys
    ensures forall z :: z in ToMap(out) ==> ToMap(out)[z] == ToMap(a)[z]
  {
    var zoneResourcesA := ZoneListToZoneResourceList(a);
    var zoneResourcesB := ZoneListToZoneResourceList(b);
    var m := TrimMap(zoneResourcesA, zoneResourcesB);
    out := ZoneResourceListToZoneList(m);
  }
}
