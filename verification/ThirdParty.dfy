/** The ledger of third-party allocations that a node keeps in an annotation:
    one entry per name, and totals per priority. */
module ThirdParty {
  import opened Keyed
  import opened ResourceList

  datatype Allocation = Allocation(name: string, priority: string, resources: ResourceList)

  /** The annotation map may be nil, lack the annotation, or hold a text that does
      not parse; otherwise the text stands for a list. */
  datatype Annotation = NilMap | Missing | Garbled | Encoded(allocations: seq<Allocation>)

  datatype Reading = NoAllocations | Unparsable | Allocated(resources: ResourceList)

  function NameOf(a: Allocation): string
  {
    a.name
  }

  function Itself(a: Allocation): Allocation
  {
    a
  }

  /** The first entry of that name is replaced; without one, it is appended. */
  function Put(ledger: seq<Allocation>, a: Allocation): seq<Allocation>
  {
    if ledger == [] then [a]
    else if ledger[0].name == a.name then [a] + ledger[1..]
    else [ledger[0]] + Put(ledger[1..], a)
  }

  function TotalOf(ledger: seq<Allocation>, priority: string): ResourceList
  {
    if ledger == [] then map[]
    else
      var rest, a := TotalOf(ledger[..|ledger| - 1], priority), ledger[|ledger| - 1];
      if a.priority == priority then Add(rest, a.resources) else rest
  }

  class NodeAnnotations {
    var allocations: Annotation

    /** One more call on an annotation that records some calls makes it record one
        call more; a text that does not parse is given up. On a nil map the new text
        goes to a map that the caller never sees. */
    method SetThirdPartyAllocation(name: string, priority: string, resources: ResourceList)
      modifies this
      ensures old(allocations) == NilMap ==> allocations == NilMap
      ensures old(allocations) == Missing || old(allocations) == Garbled ==>
                allocations == Encoded([Allocation(name, priority, resources)])
      ensures old(allocations).Encoded? ==>
                allocations == Encoded(Put(old(allocations).allocations, Allocation(name, priority, resources)))
      ensures forall calls :: Records(old(allocations), calls) ==>
                Records(allocations, calls + [Allocation(name, priority, resources)])
    {
      forall calls | Records(allocations, calls)
        ensures Ledger(calls + [Allocation(name, priority, resources)]) ==
                Put(Ledger(calls), Allocation(name, priority, resources))
      {
        assert (calls + [Allocation(name, priority, resources)])[..|calls|] == calls;
      }
      var list := if allocations.Encoded? then allocations.allocations else [];
      var newAlloc := Allocation(name, priority, resources);
      ghost var was := list;
      var exist := false;
      for i := 0 to |list|
        invariant list == was && !exist
        invariant forall k :: 0 <= k < i ==> list[k].name != name
      {
        if list[i].name == name {
          PutAt(list, newAlloc, i);
          list := list[i := newAlloc];
          exist := true;
          break;
        }
      }
      if !exist {
        PutNew(was, newAlloc);
        list := list + [newAlloc];
      }
      if allocations != NilMap {
        allocations := Encoded(list);
      }
    }

    method GetThirdPartyAllocatedResByPriority(priority: string) returns (reading: Reading)
      ensures allocations == NilMap || allocations == Missing ==> reading == NoAllocations
      ensures allocations == Garbled ==> reading == Unparsable
      ensures allocations.Encoded? ==> reading == Allocated(TotalOf(allocations.allocations, priority))
      ensures forall calls, r :: Records(allocations, calls) && reading.Allocated? ==>
                Get(reading.resources, r) == SumByName(ByName(calls), priority, r)
    {
      forall calls, r | Records(allocations, calls)
        ensures Get(TotalOf(Ledger(calls), priority), r) == SumByName(ByName(calls), priority, r)
      {
        TotalsAreLatest(calls, priority, r);
      }
      if allocations.Garbled? {
        return Unparsable;
      }
      if !allocations.Encoded? {
        return NoAllocations;
      }
      var list := allocations.allocations;
      var result: ResourceList := map[];
      for i := 0 to |list|
        invariant result == TotalOf(list[..i], priority)
      {
        assert list[..i + 1][..i] == list[..i];
        if list[i].priority == priority {
          result := Add(result, list[i].resources);
        }
      }
      assert list[..|list|] == list;
      return Allocated(result);
    }
  }

  lemma {:induction false} PutAt(ledger: seq<Allocation>, a: Allocation, i: nat)
    requires i < |ledger| && ledger[i].name == a.name
    requires forall k :: 0 <= k < i ==> ledger[k].name != a.name
    ensures Put(ledger, a) == ledger[i := a]
  {
    if i > 0 {
      PutAt(ledger[1..], a, i - 1);
      assert ledger[i := a] == [ledger[0]] + ledger[1..][i - 1 := a];
    } else {
      assert ledger[0 := a] == [a] + ledger[1..];
    }
  }

  lemma {:induction false} PutNew(ledger: seq<Allocation>, a: Allocation)
    requires forall k :: 0 <= k < |ledger| ==> ledger[k].name != a.name
    ensures Put(ledger, a) == ledger + [a]
  {
    if ledger != [] {
      PutNew(ledger[1..], a);
      assert ledger == [ledger[0]] + ledger[1..];
    }
  }

  // -------------------------------------------------------- sequences of calls

  /** The ledger after a sequence of calls, from no allocations. */
  function Ledger(calls: seq<Allocation>): seq<Allocation>
  {
    if calls == [] then [] else Put(Ledger(calls[..|calls| - 1]), calls[|calls| - 1])
  }

  /** The annotation that some calls leave behind, from none. */
  ghost predicate Records(annotation: Annotation, calls: seq<Allocation>)
  {
    annotation == Encoded(Ledger(calls)) || (annotation == Missing && calls == [])
  }

  /** What a list says of each name: its latest entry. */
  function ByName(ledger: seq<Allocation>): map<string, Allocation>
  {
    Collect(NameOf, Itself, ledger)
  }

  lemma UniqueReplaced(ledger: seq<Allocation>, a: Allocation, i: nat)
    requires Distinct(NameOf, ledger) && i < |ledger| && ledger[i].name == a.name
    ensures Distinct(NameOf, ledger[i := a])
  {
  }

  lemma UniqueAppended(ledger: seq<Allocation>, a: Allocation)
    requires Distinct(NameOf, ledger) && forall k :: 0 <= k < |ledger| ==> ledger[k].name != a.name
    ensures Distinct(NameOf, ledger + [a])
  {
  }

  lemma ByNameAppended(ledger: seq<Allocation>, a: Allocation)
    ensures ByName(ledger + [a]) == ByName(ledger)[a.name := a]
  {
    assert (ledger + [a])[..|ledger|] == ledger;
  }

  lemma {:induction false} ByNameReplaced(ledger: seq<Allocation>, a: Allocation, i: nat)
    requires Distinct(NameOf, ledger) && i < |ledger| && ledger[i].name == a.name
    ensures ByName(ledger[i := a]) == ByName(ledger)[a.name := a]
  {
    var front, last := ledger[..|ledger| - 1], ledger[|ledger| - 1];
    assert ledger == front + [last];
    ByNameAppended(front, last);
    if i == |front| {
      assert ledger[i := a] == front + [a];
      ByNameAppended(front, a);
    } else {
      assert ledger[i := a] == front[i := a] + [last];
      DistinctFront(NameOf, ledger);
      assert NameOf(ledger[i]) != NameOf(last);
      ByNameReplaced(front, a, i);
      ByNameAppended(front[i := a], last);
    }
  }

  /** Replacing keeps names unique and overrides one entry of the map. */
  lemma PutOverrides(ledger: seq<Allocation>, a: Allocation)
    requires Distinct(NameOf, ledger)
    ensures Distinct(NameOf, Put(ledger, a)) && ByName(Put(ledger, a)) == ByName(ledger)[a.name := a]
  {
    if i :| 0 <= i < |ledger| && ledger[i].name == a.name {
      PutAt(ledger, a, i);
      UniqueReplaced(ledger, a, i);
      ByNameReplaced(ledger, a, i);
    } else {
      PutNew(ledger, a);
      UniqueAppended(ledger, a);
      ByNameAppended(ledger, a);
    }
  }

  /** In every sequence of calls names stay unique, and the ledger says of each
      name what its latest call said. */
  lemma {:induction false} LedgerIsLatest(calls: seq<Allocation>)
    ensures Distinct(NameOf, Ledger(calls)) && ByName(Ledger(calls)) == ByName(calls)
  {
    if calls != [] {
      LedgerIsLatest(calls[..|calls| - 1]);
      PutOverrides(Ledger(calls[..|calls| - 1]), calls[|calls| - 1]);
    }
  }

  /** What one allocation contributes to a priority's total of a resource. */
  function Part(a: Allocation, priority: string, r: string): int
  {
    if a.priority == priority then Get(a.resources, r) else 0
  }

  /** The sum over names of their allocations' parts. */
  ghost function SumByName(m: map<string, Allocation>, priority: string, r: string): int
    decreases |m|
  {
    if m == map[] then 0
    else
      var n :| n in m;
      Part(m[n], priority, r) + SumByName(m - {n}, priority, r)
  }

  lemma {:induction false} SumByNameSplit(m: map<string, Allocation>, n: string, priority: string, r: string)
    requires n in m
    ensures SumByName(m, priority, r) == Part(m[n], priority, r) + SumByName(m - {n}, priority, r)
    decreases |m|
  {
    var k :| k in m && SumByName(m, priority, r) == Part(m[k], priority, r) + SumByName(m - {k}, priority, r);
    if k != n {
      SumByNameSplit(m - {k}, n, priority, r);
      SumByNameSplit(m - {n}, k, priority, r);
      assert (m - {k}) - {n} == (m - {n}) - {k};
    }
  }

  lemma {:induction false} TotalIsSumByName(ledger: seq<Allocation>, priority: string, r: string)
    requires Distinct(NameOf, ledger)
    ensures Get(TotalOf(ledger, priority), r) == SumByName(ByName(ledger), priority, r)
  {
    if ledger != [] {
      var front, a := ledger[..|ledger| - 1], ledger[|ledger| - 1];
      TotalIsSumByName(front, priority, r);
      var m := ByName(front);
      CollectKeys(NameOf, Itself, front, a.name);
      assert a.name !in m;
      SumByNameSplit(m[a.name := a], a.name, priority, r);
      assert m[a.name := a] - {a.name} == m;
    }
  }

  /** After any sequence of calls, a priority's total is the sum, over the names
      whose latest call had that priority, of the latest resources. */
  lemma TotalsAreLatest(calls: seq<Allocation>, priority: string, r: string)
    ensures Get(TotalOf(Ledger(calls), priority), r) == SumByName(ByName(calls), priority, r)
  {
    LedgerIsLatest(calls);
    TotalIsSumByName(Ledger(calls), priority, r);
  }

  /** One more call moves every total by the new part less the part it replaces. */
  lemma SetReplaces(calls: seq<Allocation>, a: Allocation, priority: string, r: string)
    ensures Get(TotalOf(Ledger(calls + [a]), priority), r) ==
            Get(TotalOf(Ledger(calls), priority), r) + Part(a, priority, r)
            - if a.name in ByName(calls) then Part(ByName(calls)[a.name], priority, r) else 0
  {
    var m := ByName(calls);
    assert (calls + [a])[..|calls|] == calls;
    TotalsAreLatest(calls, priority, r);
    TotalsAreLatest(calls + [a], priority, r);
    SumByNameSplit(m[a.name := a], a.name, priority, r);
    if a.name in m {
      SumByNameSplit(m, a.name, priority, r);
      assert m[a.name := a] - {a.name} == m - {a.name};
    } else {
      assert m[a.name := a] - {a.name} == m;
    }
  }
}
