/** Normalising a node selector keeps which nodes it matches, so selectors that
    compare equal match the same nodes, except where removing a duplicate value
    turns an invalid requirement into a valid one. */
module SelectorMeaning {
  import opened Sorting
  import opened Selectors
  import opened Options

  /** The values are one value, written more than once. */
  predicate Repeated(r: Requirement)
  {
    var values := Items(r.values);
    |values| > 1 && forall v :: v in values ==> v == values[0]
  }

  predicate FragileLabel(r: Requirement)
  {
    (r.op == "Gt" || r.op == "Lt") && Repeated(r)
  }

  predicate FragileField(r: Requirement)
  {
    (r.op == "In" || r.op == "NotIn") && Repeated(r)
  }

  lemma ValueCount(items: seq<string>)
    ensures |items| == 1 ==> Dedup(SortedStrings(items)) == items
    ensures |Dedup(SortedStrings(items))| == 1 <==> items != [] && forall v :: v in items ==> v == items[0]
  {
    var normal := Dedup(SortedStrings(items));
    forall v
      ensures v in normal <==> v in items
    {
      NormalValuesMembers(items, v);
    }
    NormalValuesMembers(items, "");
    NormalValuesStrict(items);
    if |normal| == 1 {
      forall v | v in items
        ensures v == items[0]
      {
        assert v in normal && items[0] in normal;
      }
    } else if |normal| > 1 {
      assert normal[0] in items && normal[1] in items;
    }
    if |items| == 1 {
      assert SortedStrings(items[..0]) == [];
      assert SortedStrings(items) == items;
    }
  }

  /** Normalising keeps whether the number of values suits the operator, exactly
      when the requirement is not fragile. */
  lemma ArityKept(r: Requirement)
    ensures (LabelArity(r.op, |Items(r.values)|) <==> LabelArity(r.op, |Items(Normalize(r).values)|)) <==>
            !FragileLabel(r)
    ensures (FieldArity(r.op, |Items(r.values)|) <==> FieldArity(r.op, |Items(Normalize(r).values)|)) <==>
            !FragileField(r)
  {
    ValueCount(Items(r.values));
    NormalValuesMembers(Items(r.values), "");
  }

  lemma SameMembers(r: Requirement, v: string)
    ensures v in Items(Normalize(r).values) <==> v in Items(r.values)
  {
    NormalValuesMembers(Items(r.values), v);
  }

  /** A fragile requirement matches no node. */
  lemma FragileMatchesNothing(lib: Library, node: Node, r: Requirement)
    ensures FragileLabel(r) ==> !LabelMatches(lib, node, r)
    ensures FragileField(r) ==> !FieldMatches(lib, node, r)
  {
  }

  /** A fragile label requirement whose normal form can match: key and value are
      valid, and some text compares with the value as the operator asks. */
  ghost predicate RevivedLabel(lib: Library, r: Requirement)
  {
    && FragileLabel(r) && lib.validKey(r.key) && lib.validValue(Items(r.values)[0])
    && exists text :: Compares(lib, r.op, text, Items(r.values)[0])
  }

  predicate RevivedField(lib: Library, r: Requirement)
  {
    FragileField(r) && lib.validField(r.key)
  }

  lemma SameValues(r: Requirement)
    ensures forall v :: v in Items(Normalize(r).values) <==> v in Items(r.values)
  {
    forall v
      ensures v in Items(Normalize(r).values) <==> v in Items(r.values)
    {
      SameMembers(r, v);
    }
  }

  lemma LabelMeaningKept(lib: Library, node: Node, r: Requirement)
    requires !RevivedLabel(lib, r)
    ensures LabelMatches(lib, node, Normalize(r)) <==> LabelMatches(lib, node, r)
  {
    ArityKept(r);
    SameValues(r);
    if FragileLabel(r) {
      assert Items(r.values)[0] in Items(Normalize(r).values);
    }
  }

  lemma FieldMeaningKept(lib: Library, node: Node, r: Requirement)
    requires !RevivedField(lib, r)
    ensures FieldMatches(lib, node, Normalize(r)) <==> FieldMatches(lib, node, r)
  {
    ArityKept(r);
    SameMembers(r, FieldOf(node, r.key));
  }

  ghost predicate LabelKeepsMeaning(lib: Library, r: Requirement)
  {
    forall node :: LabelMatches(lib, node, Normalize(r)) <==> LabelMatches(lib, node, r)
  }

  ghost predicate FieldKeepsMeaning(lib: Library, r: Requirement)
  {
    forall node :: FieldMatches(lib, node, Normalize(r)) <==> FieldMatches(lib, node, r)
  }

  /** Some node is matched by the normal form and not by the requirement. */
  lemma RevivedLabelMatchesMore(lib: Library, r: Requirement) returns (node: Node)
    requires RevivedLabel(lib, r)
    ensures LabelMatches(lib, node, Normalize(r)) && !LabelMatches(lib, node, r)
  {
    var text :| Compares(lib, r.op, text, Items(r.values)[0]);
    node := Node(map[r.key := text], map[]);
    ArityKept(r);
    SameValues(r);
  }

  lemma RevivedFieldMatchesMore(lib: Library, r: Requirement) returns (node: Node)
    requires RevivedField(lib, r)
    ensures FieldMatches(lib, node, Normalize(r)) && !FieldMatches(lib, node, r)
  {
    node := Node(map[], map[]);
    ArityKept(r);
  }

  /** For each library, normalising a requirement keeps which nodes it matches
      exactly when it does not revive it. */
  lemma RequirementKeepsMeaning(lib: Library, r: Requirement)
    ensures LabelKeepsMeaning(lib, r) <==> !RevivedLabel(lib, r)
    ensures FieldKeepsMeaning(lib, r) <==> !RevivedField(lib, r)
  {
    if RevivedLabel(lib, r) {
      var node := RevivedLabelMatchesMore(lib, r);
    } else {
      forall node
        ensures LabelMatches(lib, node, Normalize(r)) <==> LabelMatches(lib, node, r)
      {
        LabelMeaningKept(lib, node, r);
      }
    }
    if RevivedField(lib, r) {
      var node := RevivedFieldMatchesMore(lib, r);
    } else {
      forall node
        ensures FieldMatches(lib, node, Normalize(r)) <==> FieldMatches(lib, node, r)
      {
        FieldMeaningKept(lib, node, r);
      }
    }
  }

  /** Without requirements that normalising revives. Gt and Lt with one value, and
      fields with one value, are all that the API server accepts. */
  ghost predicate Sturdy(lib: Library, terms: seq<Term>)
  {
    forall t :: t in terms ==> SturdyTerm(lib, t)
  }

  ghost predicate SturdyTerm(lib: Library, t: Term)
  {
    && (forall r :: r in Items(t.expressions) ==> !RevivedLabel(lib, r))
    && (forall r :: r in Items(t.fields) ==> !RevivedField(lib, r))
  }

  lemma NormalSliceMembers(rs: Slice<Requirement>, out: Slice<Requirement>)
    requires NormalSlice(rs, out)
    ensures Items(out) == [] <==> Items(rs) == []
    ensures forall r :: r in Items(rs) ==> Normalize(r) in Items(out)
    ensures forall q :: q in Items(out) ==> exists r :: r in Items(rs) && Normalize(r) == q
  {
    if rs.Slice? {
      var normal := NormalizeAll(rs.items);
      forall q
        ensures q in out.items <==> q in normal
      {
        NormalFormMembers(normal, out.items, q);
      }
      NormalFormMembers(normal, out.items, Requirement("", "", Nil));
      forall r | r in rs.items
        ensures Normalize(r) in out.items
      {
        NormalizedMember(rs.items, r);
      }
      forall q | q in out.items
        ensures exists r :: r in rs.items && Normalize(r) == q
      {
        var i :| 0 <= i < |normal| && normal[i] == q;
        assert rs.items[i] in rs.items && Normalize(rs.items[i]) == q;
      }
    }
  }

  lemma LabelsKept(lib: Library, node: Node, rs: Slice<Requirement>, out: Slice<Requirement>)
    requires NormalSlice(rs, out) && forall r :: r in Items(rs) ==> !RevivedLabel(lib, r)
    ensures (forall r :: r in Items(out) ==> LabelMatches(lib, node, r)) <==>
            (forall r :: r in Items(rs) ==> LabelMatches(lib, node, r))
  {
    NormalSliceMembers(rs, out);
    forall r | r in Items(rs)
      ensures LabelMatches(lib, node, Normalize(r)) <==> LabelMatches(lib, node, r)
    {
      LabelMeaningKept(lib, node, r);
    }
  }

  lemma FieldsKept(lib: Library, node: Node, rs: Slice<Requirement>, out: Slice<Requirement>)
    requires NormalSlice(rs, out) && forall r :: r in Items(rs) ==> !RevivedField(lib, r)
    ensures (forall r :: r in Items(out) ==> FieldMatches(lib, node, r)) <==>
            (forall r :: r in Items(rs) ==> FieldMatches(lib, node, r))
  {
    NormalSliceMembers(rs, out);
    forall r | r in Items(rs)
      ensures FieldMatches(lib, node, Normalize(r)) <==> FieldMatches(lib, node, r)
    {
      FieldMeaningKept(lib, node, r);
    }
  }

  lemma TermMeaningKept(lib: Library, node: Node, t: Term, out: Term)
    requires NormalTerm(t, out) && SturdyTerm(lib, t)
    ensures TermMatches(lib, node, out) <==> TermMatches(lib, node, t)
  {
    LabelsKept(lib, node, t.expressions, out.expressions);
    FieldsKept(lib, node, t.fields, out.fields);
    NormalSliceMembers(t.expressions, out.expressions);
    NormalSliceMembers(t.fields, out.fields);
  }

  /** A term with a requirement that normalising revives matches no node. */
  lemma RevivedTermMatchesNothing(lib: Library, node: Node, t: Term)
    requires !SturdyTerm(lib, t)
    ensures !TermMatches(lib, node, t)
  {
    if r :| r in Items(t.expressions) && RevivedLabel(lib, r) {
      FragileMatchesNothing(lib, node, r);
    } else {
      var r :| r in Items(t.fields) && RevivedField(lib, r);
      FragileMatchesNothing(lib, node, r);
    }
  }

  /** Some term, sturdy or not as asked, has a normal form that matches. */
  ghost predicate SomeMatches(lib: Library, node: Node, terms: seq<Term>, each: seq<Term>, sturdy: bool)
    requires |each| == |terms|
  {
    exists i :: 0 <= i < |terms| && SturdyTerm(lib, terms[i]) == sturdy && TermMatches(lib, node, each[i])
  }

  lemma MatchesSturdy(lib: Library, node: Node, terms: seq<Term>, each: seq<Term>)
    requires EachNormal(terms, each)
    ensures Matches(lib, node, terms) <==> SomeMatches(lib, node, terms, each, true)
  {
    forall i | 0 <= i < |terms|
      ensures TermMatches(lib, node, terms[i]) <==> SturdyTerm(lib, terms[i]) && TermMatches(lib, node, each[i])
    {
      if SturdyTerm(lib, terms[i]) {
        TermMeaningKept(lib, node, terms[i], each[i]);
      } else {
        RevivedTermMatchesNothing(lib, node, terms[i]);
      }
    }
    if Matches(lib, node, terms) {
      var t :| t in terms && TermMatches(lib, node, t);
      var i :| 0 <= i < |terms| && terms[i] == t;
      assert TermMatches(lib, node, each[i]);
    }
  }

  lemma MatchesNormal(lib: Library, node: Node, terms: seq<Term>, each: seq<Term>)
    requires EachNormal(terms, each)
    ensures Matches(lib, node, Dedup(each)) <==>
            SomeMatches(lib, node, terms, each, true) || SomeMatches(lib, node, terms, each, false)
  {
    forall t
      ensures t in Dedup(each) <==> t in each
    {
      DedupMember(each, t);
    }
    if Matches(lib, node, Dedup(each)) {
      var t :| t in Dedup(each) && TermMatches(lib, node, t);
      var i :| 0 <= i < |each| && each[i] == t;
      assert SturdyTerm(lib, terms[i]) == true || SturdyTerm(lib, terms[i]) == false;
    }
    if i :| 0 <= i < |terms| && TermMatches(lib, node, each[i]) {
      assert each[i] in Dedup(each);
    }
  }

  /** On each node the normal form and the selector agree exactly when a matching
      normal form of a revived term comes with one of a sturdy term. */
  lemma MeaningKeptExactly(lib: Library, node: Node, terms: seq<Term>, each: seq<Term>)
    requires EachNormal(terms, each)
    ensures Matches(lib, node, terms) ==> Matches(lib, node, Dedup(each))
    ensures (Matches(lib, node, Dedup(each)) <==> Matches(lib, node, terms)) <==>
            (SomeMatches(lib, node, terms, each, false) ==> SomeMatches(lib, node, terms, each, true))
  {
    MatchesSturdy(lib, node, terms, each);
    MatchesNormal(lib, node, terms, each);
  }

  /** So for every node, the normal form of a sturdy selector matches it exactly
      when the selector does. */
  lemma MeaningKept(lib: Library, node: Node, terms: seq<Term>, out: seq<Term>)
    requires NormalTerms(terms, out) && Sturdy(lib, terms)
    ensures Matches(lib, node, out) <==> Matches(lib, node, terms)
  {
    var each :| EachNormal(terms, each) && out == Dedup(each);
    assert forall i :: 0 <= i < |terms| ==> terms[i] in terms;
    MeaningKeptExactly(lib, node, terms, each);
  }

  /** Selectors with a common normal form match the same nodes. */
  lemma EqualMeansSame(lib: Library, node: Node, terms1: seq<Term>, terms2: seq<Term>, out: seq<Term>)
    requires NormalTerms(terms1, out) && NormalTerms(terms2, out) && Sturdy(lib, terms1) && Sturdy(lib, terms2)
    ensures Matches(lib, node, terms1) <==> Matches(lib, node, terms2)
  {
    MeaningKept(lib, node, terms1, out);
    MeaningKept(lib, node, terms2, out);
  }

  // ------------------------------------------ what reviving a requirement does

  /** The selectors with one requirement, on labels and on fields. */
  function OnLabel(r: Requirement): seq<Term>
  {
    [Term(Slice([r]), Nil)]
  }

  function OnField(r: Requirement): seq<Term>
  {
    [Term(Nil, Slice([r]))]
  }

  lemma OneRequirementNormal(r: Requirement)
    ensures NormalTerms(OnLabel(r), OnLabel(Normalize(r))) && NormalTerms(OnField(r), OnField(Normalize(r)))
  {
    assert NormalizeAll([r]) == [Normalize(r)];
    assert EachNormal(OnLabel(r), OnLabel(Normalize(r))) && EachNormal(OnField(r), OnField(Normalize(r)));
    assert Dedup(OnLabel(Normalize(r))) == OnLabel(Normalize(r));
    assert Dedup(OnField(Normalize(r))) == OnField(Normalize(r));
  }

  lemma OneRequirementMatches(lib: Library, node: Node, r: Requirement)
    ensures Matches(lib, node, OnLabel(r)) <==> LabelMatches(lib, node, r)
    ensures Matches(lib, node, OnField(r)) <==> FieldMatches(lib, node, r)
  {
    assert OnLabel(r)[0] in OnLabel(r) && OnField(r)[0] in OnField(r);
    assert Items(OnLabel(r)[0].expressions)[0] == r && Items(OnField(r)[0].fields)[0] == r;
  }

  /** Two selectors match the same nodes. */
  ghost predicate SameNodes(lib: Library, terms1: seq<Term>, terms2: seq<Term>)
  {
    forall node :: Matches(lib, node, terms1) <==> Matches(lib, node, terms2)
  }

  /** The selector with one requirement and the one with its normal form compare
      equal. For each library, they match the same nodes exactly when normalising
      does not revive the requirement: Gt with its value written twice is invalid
      and matches nothing, Gt with one value may match. */
  lemma FragileChangesMeaning(lib: Library, r: Requirement)
    ensures NormalTerms(OnLabel(r), OnLabel(Normalize(r))) && NormalTerms(OnLabel(Normalize(r)), OnLabel(Normalize(r)))
    ensures NormalTerms(OnField(r), OnField(Normalize(r))) && NormalTerms(OnField(Normalize(r)), OnField(Normalize(r)))
    ensures SameNodes(lib, OnLabel(r), OnLabel(Normalize(r))) <==> !RevivedLabel(lib, r)
    ensures SameNodes(lib, OnField(r), OnField(Normalize(r))) <==> !RevivedField(lib, r)
  {
    OneRequirementNormal(r);
    OneRequirementNormal(Normalize(r));
    NormalizeTwice(r);
    RequirementKeepsMeaning(lib, r);
    forall node
      ensures Matches(lib, node, OnLabel(r)) <==> LabelMatches(lib, node, r)
      ensures Matches(lib, node, OnField(r)) <==> FieldMatches(lib, node, r)
      ensures Matches(lib, node, OnLabel(Normalize(r))) <==> LabelMatches(lib, node, Normalize(r))
      ensures Matches(lib, node, OnField(Normalize(r))) <==> FieldMatches(lib, node, Normalize(r))
    {
      OneRequirementMatches(lib, node, r);
      OneRequirementMatches(lib, node, Normalize(r));
    }
  }

  /** Everything is valid, and the bound is one below or one above all else. */
  function Separating(bound: string, op: string): Library
  {
    Library(_ => true, _ => true, _ => true,
            text => Some(if text == bound then 1 else if op == "Gt" then 2 else 0))
  }

  /** Whatever the library decides, so that only the requirement counts: being
      fragile is what it takes to be revived in some library. */
  lemma FragileIsRevivable(r: Requirement)
    ensures FragileLabel(r) <==> exists lib :: RevivedLabel(lib, r)
    ensures FragileField(r) <==> exists lib :: RevivedField(lib, r)
  {
    if FragileLabel(r) {
      var bound := Items(r.values)[0];
      assert Compares(Separating(bound, r.op), r.op, bound + "x", bound);
      assert RevivedLabel(Separating(bound, r.op), r);
    }
    if FragileField(r) {
      assert RevivedField(Separating("", ""), r);
    }
  }
}
