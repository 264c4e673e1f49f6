/** What the comparison of node selectors decides, exactly: whether the terms,
    read as sets of requirements and with neighbouring equal terms merged, are the
    same list. */
module SelectorCanonical {
  import opened Sorting
  import opened Selectors
  import opened Options

  /** A term as two sets of requirements, each of which may be nil. */
  datatype TermSet = TermSet(expressions: Option<set<Requirement>>, fields: Option<set<Requirement>>)

  ghost function SetOf(rs: Slice<Requirement>): Option<set<Requirement>>
  {
    if rs.Nil? then None else Some(set r | r in rs.items :: Normalize(r))
  }

  ghost function SetsOf(terms: seq<Term>): seq<TermSet>
  {
    seq(|terms|, i requires 0 <= i < |terms| => TermSet(SetOf(terms[i].expressions), SetOf(terms[i].fields)))
  }

  ghost predicate ConsistentTerm(t: Term)
  {
    NilConsistent(NormalizeAll(Items(t.expressions))) && NilConsistent(NormalizeAll(Items(t.fields)))
  }

  ghost predicate Consistent(terms: seq<Term>)
  {
    forall i :: 0 <= i < |terms| ==> ConsistentTerm(terms[i])
  }

  lemma SetMembers(rs: seq<Requirement>, x: Requirement)
    ensures x in (set r | r in rs :: Normalize(r)) <==> x in NormalizeAll(rs)
  {
    if x in (set r | r in rs :: Normalize(r)) {
      var r :| r in rs && Normalize(r) == x;
      NormalizedMember(rs, r);
    }
    if x in NormalizeAll(rs) {
      var i :| 0 <= i < |rs| && Normalize(rs[i]) == x;
      assert rs[i] in rs;
    }
  }

  lemma SameSets(rs1: seq<Requirement>, rs2: seq<Requirement>)
    ensures (set r | r in rs1 :: Normalize(r)) == (set r | r in rs2 :: Normalize(r)) <==>
            (forall x :: x in NormalizeAll(rs1) <==> x in NormalizeAll(rs2))
  {
    var s1, s2 := set r | r in rs1 :: Normalize(r), set r | r in rs2 :: Normalize(r);
    forall x
      ensures x in s1 <==> x in NormalizeAll(rs1)
      ensures x in s2 <==> x in NormalizeAll(rs2)
    {
      SetMembers(rs1, x);
      SetMembers(rs2, x);
    }
    if forall x :: x in NormalizeAll(rs1) <==> x in NormalizeAll(rs2) {
      assert s1 == s2;
    }
  }

  lemma SliceCanonical(
      rs1: Slice<Requirement>, rs2: Slice<Requirement>, out1: Slice<Requirement>, out2: Slice<Requirement>)
    requires NormalSlice(rs1, out1) && NormalSlice(rs2, out2)
    requires NilConsistent(NormalizeAll(Items(rs1))) && NilConsistent(NormalizeAll(Items(rs2)))
    ensures out1 == out2 <==> SetOf(rs1) == SetOf(rs2)
  {
    if rs1.Slice? && rs2.Slice? {
      NormalFormCanonical(NormalizeAll(rs1.items), NormalizeAll(rs2.items), out1.items, out2.items);
      SameSets(rs1.items, rs2.items);
    }
  }

  // ----------------------------------------------- merging sees only equalities

  /** The positions that survive the removal of neighbouring duplicates. */
  function Kept<T(==)>(s: seq<T>): seq<nat>
  {
    if |s| == 0 then []
    else if |s| == 1 then [0]
    else
      var front := Kept(s[..|s| - 1]);
      if s[|s| - 1] == s[|s| - 2] then front else front + [|s| - 1]
  }

  lemma {:induction false} DedupIsKept<T>(s: seq<T>)
    ensures |Dedup(s)| == |Kept(s)|
    ensures forall i :: 0 <= i < |Kept(s)| ==> Kept(s)[i] < |s| && Dedup(s)[i] == s[Kept(s)[i]]
  {
    if |s| >= 2 {
      DedupIsKept(s[..|s| - 1]);
    }
  }

  lemma {:induction false} SameKept<T, U>(a: seq<T>, b: seq<U>)
    requires |a| == |b|
    requires forall i, j :: 0 <= i < |a| && 0 <= j < |a| ==> (a[i] == a[j] <==> b[i] == b[j])
    ensures Kept(a) == Kept(b)
  {
    if |a| >= 2 {
      SameKept(a[..|a| - 1], b[..|b| - 1]);
    }
  }

  /** Lists whose elements are equal in the same places have equal merged forms in
      the same cases. */
  lemma MergedAlike<T, U>(a1: seq<T>, a2: seq<T>, b1: seq<U>, b2: seq<U>)
    requires |a1| == |b1| && |a2| == |b2|
    requires forall i, j :: 0 <= i < |a1| && 0 <= j < |a1| ==> (a1[i] == a1[j] <==> b1[i] == b1[j])
    requires forall i, j :: 0 <= i < |a2| && 0 <= j < |a2| ==> (a2[i] == a2[j] <==> b2[i] == b2[j])
    requires forall i, j :: 0 <= i < |a1| && 0 <= j < |a2| ==> (a1[i] == a2[j] <==> b1[i] == b2[j])
    ensures Dedup(a1) == Dedup(a2) <==> Dedup(b1) == Dedup(b2)
  {
    SameKept(a1, b1);
    SameKept(a2, b2);
    DedupIsKept(a1);
    DedupIsKept(a2);
    DedupIsKept(b1);
    DedupIsKept(b2);
    var k1, k2 := Kept(a1), Kept(a2);
    if |k1| == |k2| {
      forall i | 0 <= i < |k1|
        ensures Dedup(a1)[i] == Dedup(a2)[i] <==> Dedup(b1)[i] == Dedup(b2)[i]
      {
        assert a1[k1[i]] == a2[k2[i]] <==> b1[k1[i]] == b2[k2[i]];
      }
    }
  }

  lemma TermCanonical(t1: Term, t2: Term, out1: Term, out2: Term)
    requires NormalTerm(t1, out1) && NormalTerm(t2, out2) && ConsistentTerm(t1) && ConsistentTerm(t2)
    ensures out1 == out2 <==> SetOf(t1.expressions) == SetOf(t2.expressions) && SetOf(t1.fields) == SetOf(t2.fields)
  {
    SliceCanonical(t1.expressions, t2.expressions, out1.expressions, out2.expressions);
    SliceCanonical(t1.fields, t2.fields, out1.fields, out2.fields);
  }

  lemma EachCanonical(terms1: seq<Term>, terms2: seq<Term>, each1: seq<Term>, each2: seq<Term>)
    requires EachNormal(terms1, each1) && EachNormal(terms2, each2) && Consistent(terms1) && Consistent(terms2)
    ensures forall i, j :: 0 <= i < |terms1| && 0 <= j < |terms2| ==>
              (each1[i] == each2[j] <==> SetsOf(terms1)[i] == SetsOf(terms2)[j])
  {
    forall i, j | 0 <= i < |terms1| && 0 <= j < |terms2|
      ensures each1[i] == each2[j] <==> SetsOf(terms1)[i] == SetsOf(terms2)[j]
    {
      TermCanonical(terms1[i], terms2[j], each1[i], each2[j]);
    }
  }

  /** Two selectors have the same normal form exactly when their lists of term
      sets, neighbouring duplicates merged, are the same. */
  lemma SelectorsCanonical(terms1: seq<Term>, terms2: seq<Term>, out1: seq<Term>, out2: seq<Term>)
    requires NormalTerms(terms1, out1) && NormalTerms(terms2, out2) && Consistent(terms1) && Consistent(terms2)
    ensures out1 == out2 <==> Dedup(SetsOf(terms1)) == Dedup(SetsOf(terms2))
  {
    var each1: seq<Term> :| EachNormal(terms1, each1) && out1 == Dedup(each1);
    var each2: seq<Term> :| EachNormal(terms2, each2) && out2 == Dedup(each2);
    EachCanonical(terms1, terms1, each1, each1);
    EachCanonical(terms2, terms2, each2, each2);
    EachCanonical(terms1, terms2, each1, each2);
    MergedAlike(each1, each2, SetsOf(terms1), SetsOf(terms2));
  }
}
