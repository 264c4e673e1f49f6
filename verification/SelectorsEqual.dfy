/** The comparison of node selectors as the source runs it: on slices it shares
    with the caller. Sorting the values of a requirement sorts the caller's
    slice; everything else works on copies. */
module SelectorsEqual {
  import opened Sorting
  import opened Selectors
  import opened SelectorCanonical
  import opened SelectorMeaning
  import opened Options
  import Orders
  import Strings

  /** A requirement as the caller holds it: the values are a shared slice. */
  datatype SourceRequirement = SourceRequirement(key: string, op: string, values: array?<string>)

  datatype SourceTerm = SourceTerm(expressions: Slice<SourceRequirement>, fields: Slice<SourceRequirement>)

  ghost function Arrays(rs: seq<SourceRequirement>): set<array<string>>
  {
    set r | r in rs && r.values != null :: r.values
  }

  ghost function TermArrays(t: SourceTerm): set<array<string>>
  {
    Arrays(Items(t.expressions)) + Arrays(Items(t.fields))
  }

  ghost function AllArrays(terms: seq<SourceTerm>): set<array<string>>
  {
    set t, a | t in terms && a in TermArrays(t) :: a
  }

  /** What the slices hold at a moment. */
  type Heap = map<array<string>, seq<string>>

  ghost function Contents(arrays: set<array<string>>): Heap
    reads arrays
  {
    map a | a in arrays :: a[..]
  }

  ghost function View(h: Heap, r: SourceRequirement): Requirement
    requires r.values != null ==> r.values in h
  {
    Requirement(r.key, r.op, if r.values == null then Nil else Slice(h[r.values]))
  }

  ghost function ViewAll(h: Heap, rs: seq<SourceRequirement>): seq<Requirement>
    requires Arrays(rs) <= h.Keys
  {
    seq(|rs|, i requires 0 <= i < |rs| => assert rs[i].values != null ==> rs[i].values in Arrays(rs); View(h, rs[i]))
  }

  ghost function ViewSlice(h: Heap, rs: Slice<SourceRequirement>): Slice<Requirement>
    requires Arrays(Items(rs)) <= h.Keys
  {
    match rs
    case Nil => Nil
    case Slice(items) => Slice(ViewAll(h, items))
  }

  ghost function ViewTerm(h: Heap, t: SourceTerm): Term
    requires TermArrays(t) <= h.Keys
  {
    Term(ViewSlice(h, t.expressions), ViewSlice(h, t.fields))
  }

  ghost function ViewTerms(h: Heap, terms: seq<SourceTerm>): seq<Term>
    requires AllArrays(terms) <= h.Keys
  {
    seq(|terms|, i requires 0 <= i < |terms| => assert TermArrays(terms[i]) <= AllArrays(terms); ViewTerm(h, terms[i]))
  }

  /** The only effect on the caller's data: some slices got sorted. */
  ghost predicate OnlySorted(was: Heap, now: Heap)
  {
    was.Keys == now.Keys && forall a :: a in was ==> now[a] == was[a] || now[a] == SortedStrings(was[a])
  }

  lemma OnlySortedTwice(h0: Heap, h1: Heap, h2: Heap)
    requires OnlySorted(h0, h1) && OnlySorted(h1, h2)
    ensures OnlySorted(h0, h2)
  {
    forall a | a in h0
      ensures h2[a] == h0[a] || h2[a] == SortedStrings(h0[a])
    {
      ResortedSameNormal(h0[a]);
    }
  }

  /** Requirements normalise to the same after their slices got sorted. */
  lemma SortedSameNormal(was: Heap, now: Heap, rs: seq<SourceRequirement>)
    requires OnlySorted(was, now) && Arrays(rs) <= was.Keys
    ensures NormalizeAll(ViewAll(now, rs)) == NormalizeAll(ViewAll(was, rs))
  {
    forall i | 0 <= i < |rs|
      ensures Normalize(ViewAll(now, rs)[i]) == Normalize(ViewAll(was, rs)[i])
    {
      if rs[i].values != null {
        assert rs[i].values in Arrays(rs);
        ResortedSameNormal(was[rs[i].values]);
      }
    }
  }

  lemma SortedSameTerm(was: Heap, now: Heap, t: SourceTerm, out: Term)
    requires OnlySorted(was, now) && TermArrays(t) <= was.Keys && NormalTerm(ViewTerm(now, t), out)
    ensures NormalTerm(ViewTerm(was, t), out)
  {
    SortedSameNormal(was, now, Items(t.expressions));
    SortedSameNormal(was, now, Items(t.fields));
  }

  lemma SortedSameTerms(was: Heap, now: Heap, terms: seq<SourceTerm>, out: seq<Term>)
    requires OnlySorted(was, now) && AllArrays(terms) <= was.Keys && NormalTerms(ViewTerms(now, terms), out)
    ensures NormalTerms(ViewTerms(was, terms), out)
  {
    var each: seq<Term> :| EachNormal(ViewTerms(now, terms), each) && out == Dedup(each);
    forall i | 0 <= i < |terms|
      ensures NormalTerm(ViewTerms(was, terms)[i], each[i])
    {
      assert TermArrays(terms[i]) <= AllArrays(terms);
      assert ViewTerms(now, terms)[i] == ViewTerm(now, terms[i]);
      SortedSameTerm(was, now, terms[i], each[i]);
    }
    assert EachNormal(ViewTerms(was, terms), each);
  }

  /** Go's sort.Strings. */
  method SortStrings(a: array<string>)
    modifies a
    ensures a[..] == SortedStrings(old(a[..]))
  {
    Orders.StringPreorder();
    var sorted := SortSlice(Strings.Leq, a[..]);
    PermutationMember(a[..], sorted, "");
    SortedIsSorted(a[..], sorted);
    for i := 0 to a.Length
      invariant a[..i] == sorted[..i]
    {
      a[i] := sorted[i];
      assert a[..i + 1] == a[..i] + [sorted[i]];
    }
    assert a[..] == sorted;
  }

  /** Sorts one requirement's slice in place and returns its distinct values. */
  method UniqueSortValues(a: array<string>) returns (values: seq<string>)
    modifies a
    ensures a[..] == SortedStrings(old(a[..]))
    ensures values == Dedup(SortedStrings(old(a[..])))
  {
    SortStrings(a);
    if a.Length <= 1 {
      return a[..];
    }
    values := [a[0]];
    var last := a[0];
    for i := 0 to a.Length
      invariant values == if i == 0 then [a[0]] else Dedup(a[..i])
      invariant last == if i == 0 then a[0] else a[i - 1]
    {
      assert i > 0 ==> a[..i + 1][..i] == a[..i];
      if a[i] != last {
        last := a[i];
        values := values + [a[i]];
      }
    }
    assert a[..a.Length] == a[..];
  }

  /** One requirement of the loop below, whose slice may have been sorted before. */
  method NormalizeOne(r: SourceRequirement, ghost h: Heap, ghost all: set<array<string>>) returns (out: Requirement)
    requires r.values != null ==> r.values in all
    requires OnlySorted(h, Contents(all))
    modifies all
    ensures OnlySorted(h, Contents(all)) && out == Normalize(View(h, r))
  {
    var values := Nil;
    if r.values != null {
      ghost var now := Contents(all);
      ResortedSameNormal(h[r.values]);
      var items := UniqueSortValues(r.values);
      values := Slice(items);
      assert OnlySorted(now, Contents(all));
      OnlySortedTwice(h, now, Contents(all));
    }
    out := Requirement(r.key, r.op, values);
  }

  /** The requirement loop, and then the sort and the removal of duplicates on
      the copy. `all` are the slices in use. */
  method UniqueSortRequirements(src: seq<SourceRequirement>, ghost all: set<array<string>>)
    returns (unique: seq<Requirement>)
    requires Arrays(src) <= all
    modifies all
    ensures OnlySorted(old(Contents(all)), Contents(all))
    ensures NormalForm(NormalizeAll(ViewAll(old(Contents(all)), src)), unique)
  {
    ghost var h := Contents(all);
    var reqs: seq<Requirement> := [];
    for i := 0 to |src|
      invariant OnlySorted(h, Contents(all))
      invariant reqs == NormalizeAll(ViewAll(h, src))[..i]
    {
      assert src[i].values != null ==> src[i].values in Arrays(src);
      var r := NormalizeOne(src[i], h, all);
      reqs := reqs + [r];
    }
    assert reqs == NormalizeAll(ViewAll(h, src));
    unique := SortAndMerge(reqs);
  }

  method SortAndMerge(reqs: seq<Requirement>) returns (unique: seq<Requirement>)
    ensures NormalForm(reqs, unique)
  {
    if |reqs| < 2 {
      return reqs;
    }
    BeforePreorder();
    var sorted := SortSlice(Before, reqs);
    PermutationMember(reqs, sorted, reqs[0]);
    unique := [sorted[0]];
    var last := sorted[0];
    for i := 1 to |sorted|
      invariant unique == Dedup(sorted[..i]) && last == sorted[i - 1]
    {
      assert sorted[..i + 1][..i] == sorted[..i];
      if sorted[i] != last {
        last := sorted[i];
        unique := unique + [sorted[i]];
      }
    }
    assert sorted[..|sorted|] == sorted;
  }

  method UniqueSortSlice(rs: Slice<SourceRequirement>, ghost all: set<array<string>>) returns (out: Slice<Requirement>)
    requires Arrays(Items(rs)) <= all
    modifies all
    ensures OnlySorted(old(Contents(all)), Contents(all))
    ensures NormalSlice(ViewSlice(old(Contents(all)), rs), out)
  {
    if rs.Nil? {
      return Nil;
    }
    var items := UniqueSortRequirements(rs.items, all);
    return Slice(items);
  }

  method UniqueSortTerm(t: SourceTerm, ghost all: set<array<string>>) returns (out: Term)
    requires TermArrays(t) <= all
    modifies all
    ensures OnlySorted(old(Contents(all)), Contents(all))
    ensures NormalTerm(ViewTerm(old(Contents(all)), t), out)
  {
    ghost var h0 := Contents(all);
    var expressions := UniqueSortSlice(t.expressions, all);
    ghost var h1 := Contents(all);
    var fields := UniqueSortSlice(t.fields, all);
    SortedSameNormal(h0, h1, Items(t.fields));
    OnlySortedTwice(h0, h1, Contents(all));
    out := Term(expressions, fields);
  }

  method UniqueSortTerms(src: seq<SourceTerm>, ghost all: set<array<string>>) returns (unique: seq<Term>)
    requires AllArrays(src) <= all
    modifies all
    ensures OnlySorted(old(Contents(all)), Contents(all))
    ensures NormalTerms(ViewTerms(old(Contents(all)), src), unique)
  {
    ghost var h := Contents(all);
    var terms: seq<Term> := [];
    for i := 0 to |src|
      invariant OnlySorted(h, Contents(all))
      invariant EachNormal(ViewTerms(h, src)[..i], terms)
    {
      assert TermArrays(src[i]) <= AllArrays(src);
      ghost var now := Contents(all);
      var term := UniqueSortTerm(src[i], all);
      SortedSameTerm(h, now, src[i], term);
      OnlySortedTwice(h, now, Contents(all));
      terms := terms + [term];
    }
    assert ViewTerms(h, src)[..|src|] == ViewTerms(h, src);
    unique := MergeNeighbours(terms);
  }

  method MergeNeighbours(terms: seq<Term>) returns (unique: seq<Term>)
    ensures unique == Dedup(terms)
  {
    if |terms| < 2 {
      return terms;
    }
    unique := [terms[0]];
    var last := terms[0];
    for i := 1 to |terms|
      invariant unique == Dedup(terms[..i]) && last == terms[i - 1]
    {
      assert terms[..i + 1][..i] == terms[..i];
      if terms[i] != last {
        last := terms[i];
        unique := unique + [terms[i]];
      }
    }
    assert terms[..|terms|] == terms;
  }

  type Selector = Option<seq<SourceTerm>>

  ghost function SelectorArrays(n: Selector): set<array<string>>
  {
    if n.None? then {} else AllArrays(n.value)
  }

  /** Some outcome of normalising both selectors decides them equal; where the
      sort's ties are invisible, the sets of requirements decide. */
  ghost predicate Decides(terms1: seq<Term>, terms2: seq<Term>, equal: bool)
  {
    && (exists out1, out2 ::
          NormalTerms(terms1, out1) && NormalTerms(terms2, out2) && (equal <==> out1 == out2))
    && (Consistent(terms1) && Consistent(terms2) ==>
          (equal <==> Dedup(SetsOf(terms1)) == Dedup(SetsOf(terms2))))
  }

  /** With every library in which normalising revives no requirement of either. */
  ghost predicate AgreeWhereSturdy(terms1: seq<Term>, terms2: seq<Term>)
  {
    forall lib :: Sturdy(lib, terms1) && Sturdy(lib, terms2) ==> SameNodes(lib, terms1, terms2)
  }

  /** Both selectors are nil, or neither is and they have the same normal form,
      that is, the same list of requirement sets. Then, unless normalising revives
      a requirement of one of them, they match the same nodes. The caller's selectors are left as they
      were but for the order of values. */
  method NodeSelectorsEqual(n1: Selector, n2: Selector) returns (equal: bool)
    modifies SelectorArrays(n1) + SelectorArrays(n2)
    ensures var all := SelectorArrays(n1) + SelectorArrays(n2);
            OnlySorted(old(Contents(all)), Contents(all))
    ensures n1.None? || n2.None? ==> (equal <==> n1.None? && n2.None?)
    ensures n1.Some? && n2.Some? ==>
              var h := old(Contents(SelectorArrays(n1) + SelectorArrays(n2)));
              && Decides(ViewTerms(h, n1.value), ViewTerms(h, n2.value), equal)
              && (equal ==> AgreeWhereSturdy(ViewTerms(h, n1.value), ViewTerms(h, n2.value)))
  {
    if n1.None? && n2.None? {
      return true;
    }
    if n1.None? || n2.None? {
      return false;
    }
    ghost var all := SelectorArrays(n1) + SelectorArrays(n2);
    ghost var h0 := Contents(all);
    var out1 := UniqueSortTerms(n1.value, all);
    ghost var h1 := Contents(all);
    var out2 := UniqueSortTerms(n2.value, all);
    SortedSameTerms(h0, h1, n2.value, out2);
    OnlySortedTwice(h0, h1, Contents(all));
    equal := out1 == out2;
    DecidesByForms(ViewTerms(h0, n1.value), ViewTerms(h0, n2.value), out1, out2);
    if equal {
      CommonFormMatchesSame(ViewTerms(h0, n1.value), ViewTerms(h0, n2.value), out1);
    }
  }

  lemma DecidesByForms(terms1: seq<Term>, terms2: seq<Term>, out1: seq<Term>, out2: seq<Term>)
    requires NormalTerms(terms1, out1) && NormalTerms(terms2, out2)
    ensures Decides(terms1, terms2, out1 == out2)
  {
    if Consistent(terms1) && Consistent(terms2) {
      SelectorsCanonical(terms1, terms2, out1, out2);
    }
  }

  lemma CommonFormMatchesSame(terms1: seq<Term>, terms2: seq<Term>, out: seq<Term>)
    requires NormalTerms(terms1, out) && NormalTerms(terms2, out)
    ensures AgreeWhereSturdy(terms1, terms2)
  {
    forall lib, node | Sturdy(lib, terms1) && Sturdy(lib, terms2)
      ensures Matches(lib, node, terms1) <==> Matches(lib, node, terms2)
    {
      EqualMeansSame(lib, node, terms1, terms2, out);
    }
  }
}
