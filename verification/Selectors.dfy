/** Node selectors, which nodes they match, and their normal form: values sorted
    and deduplicated, requirements sorted and deduplicated, and neighbouring
    equal terms merged. */
module Selectors {
  import opened Sorting
  import opened Options
  import Orders
  import Strings

  /** A slice that may be nil; reflect.DeepEqual tells nil from empty. */
  datatype Slice<+T> = Nil | Slice(items: seq<T>)

  datatype Requirement = Requirement(key: string, op: string, values: Slice<string>)

  datatype Term = Term(expressions: Slice<Requirement>, fields: Slice<Requirement>)

  function Items<T>(s: Slice<T>): seq<T>
  {
    match s
    case Nil => []
    case Slice(items) => items
  }

  // ------------------------------------------------------------------ matching

  /** What the label library decides about single strings. */
  datatype Library = Library(
    validKey: string -> bool, validValue: string -> bool, validField: string -> bool, parseInt: string -> Option<int>)

  datatype Node = Node(labels: map<string, string>, fields: map<string, string>)

  /** How many values the operator takes in a label requirement. */
  predicate LabelArity(op: string, n: nat)
  {
    if op == "In" || op == "NotIn" then n > 0
    else if op == "Exists" || op == "DoesNotExist" then n == 0
    else if op == "Gt" || op == "Lt" then n == 1
    else false
  }

  predicate Compares(lib: Library, op: string, text: string, bound: string)
  {
    var x, y := lib.parseInt(text), lib.parseInt(bound);
    x.Some? && y.Some? && if op == "Gt" then x.value > y.value else x.value < y.value
  }

  /** An invalid requirement matches nothing, and neither does its term. */
  predicate LabelMatches(lib: Library, node: Node, r: Requirement)
  {
    var values := Items(r.values);
    && LabelArity(r.op, |values|)
    && lib.validKey(r.key)
    && (forall v :: v in values ==> lib.validValue(v))
    && if r.op == "In" then r.key in node.labels && node.labels[r.key] in values
       else if r.op == "NotIn" then r.key in node.labels ==> node.labels[r.key] !in values
       else if r.op == "Exists" then r.key in node.labels
       else if r.op == "DoesNotExist" then r.key !in node.labels
       else r.key in node.labels && forall v :: v in values ==> Compares(lib, r.op, node.labels[r.key], v)
  }

  /** A field requirement is an equality or inequality with one value. */
  predicate FieldArity(op: string, n: nat)
  {
    (op == "In" || op == "NotIn") && n == 1
  }

  predicate FieldValid(lib: Library, r: Requirement)
  {
    FieldArity(r.op, |Items(r.values)|) && lib.validField(r.key)
  }

  function FieldOf(node: Node, key: string): string
  {
    if key in node.fields then node.fields[key] else ""
  }

  predicate FieldMatches(lib: Library, node: Node, r: Requirement)
  {
    && FieldValid(lib, r)
    && (node.fields != map[] ==>
          if r.op == "In" then FieldOf(node, r.key) in Items(r.values)
          else FieldOf(node, r.key) !in Items(r.values))
  }

  /** A term without requirements matches no node. */
  predicate TermMatches(lib: Library, node: Node, t: Term)
  {
    && (Items(t.expressions) != [] || Items(t.fields) != [])
    && (forall r :: r in Items(t.expressions) ==> LabelMatches(lib, node, r))
    && (forall r :: r in Items(t.fields) ==> FieldMatches(lib, node, r))
  }

  /** The terms are alternatives. */
  predicate Matches(lib: Library, node: Node, terms: seq<Term>)
  {
    exists t :: t in terms && TermMatches(lib, node, t)
  }

  /** What the operators mean for a valid requirement: the value is among those given or
      is not, the label is there or is not, or it is a number above or below the bound. */
  lemma OperatorLaws(lib: Library, node: Node, key: string, values: seq<string>)
    requires lib.validKey(key) && forall v :: v in values ==> lib.validValue(v)
    ensures LabelMatches(lib, node, Requirement(key, "In", Slice(values))) <==>
            key in node.labels && node.labels[key] in values
    ensures values != [] ==>
              (LabelMatches(lib, node, Requirement(key, "In", Slice(values))) <==>
                 !LabelMatches(lib, node, Requirement(key, "NotIn", Slice(values))))
    ensures LabelMatches(lib, node, Requirement(key, "Exists", Slice([]))) <==> key in node.labels
    ensures LabelMatches(lib, node, Requirement(key, "Exists", Slice([]))) <==>
            !LabelMatches(lib, node, Requirement(key, "DoesNotExist", Slice([])))
    ensures |values| == 1 && key in node.labels
            && lib.parseInt(node.labels[key]).Some? && lib.parseInt(values[0]).Some? ==>
              var x, bound := lib.parseInt(node.labels[key]).value, lib.parseInt(values[0]).value;
              && (LabelMatches(lib, node, Requirement(key, "Gt", Slice(values))) <==> x > bound)
              && (LabelMatches(lib, node, Requirement(key, "Lt", Slice(values))) <==> x < bound)
  {
    if |values| == 1 {
      assert values[0] in values;
    }
  }

  /** And what makes a requirement match nothing: an invalid key or value, a number of
      values that does not suit the operator, or an unknown operator. */
  lemma InvalidMatchesNothing(lib: Library, node: Node, r: Requirement)
    ensures !lib.validKey(r.key) || (exists v :: v in Items(r.values) && !lib.validValue(v)) ==>
              !LabelMatches(lib, node, r)
    ensures (r.op == "In" || r.op == "NotIn") && Items(r.values) == [] ==> !LabelMatches(lib, node, r)
    ensures (r.op == "Exists" || r.op == "DoesNotExist") && Items(r.values) != [] ==> !LabelMatches(lib, node, r)
    ensures (r.op == "Gt" || r.op == "Lt") && |Items(r.values)| != 1 ==> !LabelMatches(lib, node, r)
    ensures r.op !in {"In", "NotIn", "Exists", "DoesNotExist", "Gt", "Lt"} ==> !LabelMatches(lib, node, r)
    ensures r.op !in {"In", "NotIn"} || |Items(r.values)| != 1 || !lib.validField(r.key) ==> !FieldMatches(lib, node, r)
  {
  }

  /** A valid field requirement compares one value; a node without fields passes. */
  lemma FieldLaws(lib: Library, node: Node, key: string, v: string)
    requires lib.validField(key)
    ensures key in node.fields ==>
              (FieldMatches(lib, node, Requirement(key, "In", Slice([v]))) <==> node.fields[key] == v)
    ensures node.fields != map[] ==>
              (FieldMatches(lib, node, Requirement(key, "In", Slice([v]))) <==>
                 !FieldMatches(lib, node, Requirement(key, "NotIn", Slice([v]))))
    ensures node.fields == map[] ==> FieldMatches(lib, node, Requirement(key, "In", Slice([v])))
  {
  }

  /** Requirements of a term are taken together and terms are alternatives; a term
      without requirements and a selector without terms match nothing. */
  lemma TermLaws(lib: Library, node: Node, t: Term, r: Requirement, terms: seq<Term>)
    ensures !Matches(lib, node, []) && !TermMatches(lib, node, Term(Slice([]), Slice([])))
    ensures Matches(lib, node, terms + [t]) <==> Matches(lib, node, terms) || TermMatches(lib, node, t)
    ensures Items(t.expressions) != [] || Items(t.fields) != [] ==>
              (TermMatches(lib, node, t.(expressions := Slice(Items(t.expressions) + [r]))) <==>
                 TermMatches(lib, node, t) && LabelMatches(lib, node, r))
    ensures Items(t.expressions) != [] || Items(t.fields) != [] ==>
              (TermMatches(lib, node, t.(fields := Slice(Items(t.fields) + [r]))) <==>
                 TermMatches(lib, node, t) && FieldMatches(lib, node, r))
  {
    assert t in terms + [t] && forall x :: x in terms + [t] <==> x in terms || x == t;
    assert forall q :: q in Items(t.expressions) + [r] <==> q in Items(t.expressions) || q == r;
    assert forall q :: q in Items(t.fields) + [r] <==> q in Items(t.fields) || q == r;
  }

  // --------------------------------------------------------------- normal form

  function SortedStrings(s: seq<string>): seq<string>
  {
    if s == [] then [] else Insert(Strings.Leq, s[|s| - 1], SortedStrings(s[..|s| - 1]))
  }

  lemma {:induction false} SortedStringsSorted(s: seq<string>)
    ensures SortedPermutation(Strings.Leq, s, SortedStrings(s))
  {
    if s != [] {
      var front, x := s[..|s| - 1], s[|s| - 1];
      SortedStringsSorted(front);
      Orders.StringPreorder();
      InsertSorted(Strings.Leq, x, SortedStrings(front));
      InsertPermutes(Strings.Leq, x, SortedStrings(front));
      assert s == front + [x];
    }
  }

  function NormalValues(values: Slice<string>): Slice<string>
  {
    match values
    case Nil => Nil
    case Slice(items) => Slice(Dedup(SortedStrings(items)))
  }

  function Normalize(r: Requirement): Requirement
  {
    r.(values := NormalValues(r.values))
  }

  function NormalizeAll(rs: seq<Requirement>): seq<Requirement>
  {
    seq(|rs|, i requires 0 <= i < |rs| => Normalize(rs[i]))
  }

  /** The comparator given to the sort, as written: true on ties. */
  predicate Before(a: Requirement, b: Requirement)
  {
    if Strings.Less(a.key, b.key) then true
    else if Strings.Less(b.key, a.key) then false
    else if Strings.Less(a.op, b.op) then true
    else if Strings.Less(b.op, a.op) then false
    else if |Items(a.values)| != |Items(b.values)| then |Items(a.values)| < |Items(b.values)|
    else ValuesBefore(Items(a.values), Items(b.values))
  }

  predicate ValuesBefore(a: seq<string>, b: seq<string>)
    requires |a| == |b|
  {
    if a == [] then true
    else if Strings.Less(a[0], b[0]) then true
    else if Strings.Less(b[0], a[0]) then false
    else ValuesBefore(a[1..], b[1..])
  }

  /** `out` is the normal form of a list of normalised requirements, for some
      outcome of the sort. */
  ghost predicate NormalForm(rs: seq<Requirement>, out: seq<Requirement>)
  {
    if |rs| < 2 then out == rs
    else exists sorted :: SortedPermutation(Before, rs, sorted) && out == Dedup(sorted)
  }

  ghost predicate NormalSlice(rs: Slice<Requirement>, out: Slice<Requirement>)
  {
    match rs
    case Nil => out == Nil
    case Slice(items) => out.Slice? && NormalForm(NormalizeAll(items), out.items)
  }

  ghost predicate NormalTerm(t: Term, out: Term)
  {
    NormalSlice(t.expressions, out.expressions) && NormalSlice(t.fields, out.fields)
  }

  /** Every term normalised, then neighbouring equal terms merged. */
  ghost predicate NormalTerms(terms: seq<Term>, out: seq<Term>)
  {
    exists each :: EachNormal(terms, each) && out == Dedup(each)
  }

  ghost predicate EachNormal(terms: seq<Term>, each: seq<Term>)
  {
    |each| == |terms| && forall i :: 0 <= i < |terms| ==> NormalTerm(terms[i], each[i])
  }

  // ----------------------------------------------------------- values as a set

  lemma NormalValuesMembers(items: seq<string>, v: string)
    ensures v in Dedup(SortedStrings(items)) <==> v in items
    ensures |Dedup(SortedStrings(items))| == 0 <==> |items| == 0
  {
    SortedStringsSorted(items);
    PermutationMember(items, SortedStrings(items), v);
    DedupMember(SortedStrings(items), v);
  }

  lemma NormalValuesStrict(items: seq<string>)
    ensures Strict(Strings.Leq, Dedup(SortedStrings(items)))
  {
    SortedStringsSorted(items);
    Orders.StringPreorder();
    Orders.StringAntisymmetric(SortedStrings(items));
    DedupStrict(Strings.Leq, SortedStrings(items));
  }

  /** The values' normal form is the value set: two lists have the same normal
      form exactly when they have the same members. */
  lemma NormalValuesCanonical(a: seq<string>, b: seq<string>)
    ensures Dedup(SortedStrings(a)) == Dedup(SortedStrings(b)) <==> (forall v :: v in a <==> v in b)
  {
    var x, y := Dedup(SortedStrings(a)), Dedup(SortedStrings(b));
    if forall v :: v in a <==> v in b {
      forall v
        ensures v in x <==> v in y
      {
        NormalValuesMembers(a, v);
        NormalValuesMembers(b, v);
      }
      NormalValuesStrict(a);
      NormalValuesStrict(b);
      Orders.StringPreorder();
      Orders.StringAntisymmetric(x);
      StrictUnique(Strings.Leq, x, y);
    } else {
      var v :| (v in a) != (v in b);
      NormalValuesMembers(a, v);
      NormalValuesMembers(b, v);
    }
  }

  /** Sorting the caller's values in place does not change the normal form. */
  lemma ResortedSameNormal(items: seq<string>)
    ensures SortedStrings(SortedStrings(items)) == SortedStrings(items)
  {
    SortedStringsSorted(items);
    SortedIsSorted(items, SortedStrings(items));
    SortedStringsSorted(SortedStrings(items));
    SortedIsSorted(items, SortedStrings(SortedStrings(items)));
  }

  /** Strings have one sorted permutation. */
  lemma {:induction false} SortedIsSorted(s: seq<string>, t: seq<string>)
    requires SortedPermutation(Strings.Leq, s, t)
    ensures t == SortedStrings(s)
  {
    SortedStringsSorted(s);
    SortedUnique(t, SortedStrings(s));
  }

  lemma TailMultiset(s: seq<string>)
    requires s != []
    ensures multiset(s[1..]) == multiset(s) - multiset{s[0]}
  {
    assert s == [s[0]] + s[1..];
  }

  lemma {:induction false} SortedUnique(a: seq<string>, b: seq<string>)
    requires Sorted(Strings.Leq, a) && Sorted(Strings.Leq, b) && multiset(a) == multiset(b)
    ensures a == b
  {
    PermutationMember(a, b, "");
    if a != [] {
      PermutationMember(a, b, a[0]);
      PermutationMember(a, b, b[0]);
      Strings.Trichotomy(a[0], b[0]);
      assert a[0] == b[0];
      TailMultiset(a);
      TailMultiset(b);
      SortedUnique(a[1..], b[1..]);
      assert a == [a[0]] + a[1..] && b == [b[0]] + b[1..];
    }
  }

  // ------------------------------------------------------ requirements as a set

  /** The same key, operator and value set, and nil values on both sides or
      neither. */
  ghost predicate SameRequirement(a: Requirement, b: Requirement)
  {
    && a.key == b.key && a.op == b.op && (a.values.Nil? <==> b.values.Nil?)
    && forall v :: v in Items(a.values) <==> v in Items(b.values)
  }

  lemma NormalizeCanonical(a: Requirement, b: Requirement)
    ensures Normalize(a) == Normalize(b) <==> SameRequirement(a, b)
  {
    NormalValuesCanonical(Items(a.values), Items(b.values));
  }

  lemma {:induction false} ValuesBeforeIsListLeq(a: seq<string>, b: seq<string>)
    requires |a| == |b|
    ensures ValuesBefore(a, b) <==> Strings.ListLeq(a, b)
  {
    if a != [] {
      Strings.Trichotomy(a[0], b[0]);
      ValuesBeforeIsListLeq(a[1..], b[1..]);
    }
  }

  lemma BeforeTotal(a: Requirement, b: Requirement)
    ensures Before(a, b) || Before(b, a)
    ensures Before(a, b) && Before(b, a) <==> a.key == b.key && a.op == b.op && Items(a.values) == Items(b.values)
  {
    Strings.Trichotomy(a.key, b.key);
    Strings.Trichotomy(a.op, b.op);
    if |Items(a.values)| == |Items(b.values)| {
      ValuesBeforeIsListLeq(Items(a.values), Items(b.values));
      ValuesBeforeIsListLeq(Items(b.values), Items(a.values));
      Strings.ListTrichotomy(Items(a.values), Items(b.values));
    }
  }

  lemma BeforeTransitive(a: Requirement, b: Requirement, c: Requirement)
    requires Before(a, b) && Before(b, c)
    ensures Before(a, c)
  {
    Strings.Trichotomy(a.key, b.key);
    Strings.Trichotomy(b.key, c.key);
    Strings.Trichotomy(a.key, c.key);
    if a.key == b.key == c.key {
      Strings.Trichotomy(a.op, b.op);
      Strings.Trichotomy(b.op, c.op);
      Strings.Trichotomy(a.op, c.op);
      if a.op == b.op == c.op {
        if |Items(a.values)| == |Items(b.values)| == |Items(c.values)| {
          ValuesTransitive(Items(a.values), Items(b.values), Items(c.values));
        }
      } else if a.op != b.op && b.op != c.op {
        Strings.LessTransitive(a.op, b.op, c.op);
      }
    } else if a.key != b.key && b.key != c.key {
      Strings.LessTransitive(a.key, b.key, c.key);
    }
  }

  lemma ValuesTransitive(a: seq<string>, b: seq<string>, c: seq<string>)
    requires |a| == |b| == |c| && ValuesBefore(a, b) && ValuesBefore(b, c)
    ensures ValuesBefore(a, c)
  {
    ValuesBeforeIsListLeq(a, b);
    ValuesBeforeIsListLeq(b, c);
    ValuesBeforeIsListLeq(a, c);
    Strings.ListLeqTransitive(a, b, c);
  }

  /** The order is by key first, then by operator, number of values and values. */
  lemma OrderedByKeyFirst(a: Requirement, b: Requirement)
    ensures Before(a, b) <==>
            || Strings.Less(a.key, b.key)
            || (a.key == b.key &&
                 (|| Strings.Less(a.op, b.op)
                  || (a.op == b.op &&
                       (|| |Items(a.values)| < |Items(b.values)|
                        || (|Items(a.values)| == |Items(b.values)|
                            && Strings.ListLeq(Items(a.values), Items(b.values)))))))
  {
    Strings.Trichotomy(a.key, b.key);
    Strings.Trichotomy(a.op, b.op);
    if |Items(a.values)| == |Items(b.values)| {
      ValuesBeforeIsListLeq(Items(a.values), Items(b.values));
    }
  }

  lemma BeforePreorder()
    ensures Preorder(Before)
  {
    forall x, y
      ensures Before(x, y) || Before(y, x)
    {
      BeforeTotal(x, y);
    }
    forall x, y, z | Before(x, y) && Before(y, z)
      ensures Before(x, z)
    {
      BeforeTransitive(x, y, z);
    }
  }

  /** No two requirements differ only in nil against empty values. */
  ghost predicate NilConsistent(rs: seq<Requirement>)
  {
    forall a, b :: a in rs && b in rs && a.key == b.key && a.op == b.op && Items(a.values) == Items(b.values) ==> a == b
  }

  lemma ConsistentIsAntisymmetric(rs: seq<Requirement>)
    requires NilConsistent(rs)
    ensures Antisymmetric(Before, rs)
  {
    forall x, y | x in rs && y in rs && Before(x, y) && Before(y, x)
      ensures x == y
    {
      BeforeTotal(x, y);
    }
  }

  /** The normal form has the input's members, nothing more and nothing less. */
  lemma NormalFormMembers(rs: seq<Requirement>, out: seq<Requirement>, r: Requirement)
    requires NormalForm(rs, out)
    ensures r in out <==> r in rs
    ensures out == [] <==> rs == []
  {
    if |rs| >= 2 {
      var sorted :| SortedPermutation(Before, rs, sorted) && out == Dedup(sorted);
      PermutationMember(rs, sorted, r);
      DedupMember(sorted, r);
    }
  }

  /** It is sorted and has no equal neighbours; where no two requirements differ only
      in nil against empty values, it is strictly increasing. */
  lemma NormalFormStrict(rs: seq<Requirement>, out: seq<Requirement>)
    requires NormalForm(rs, out)
    ensures Sorted(Before, out) && forall i :: 0 < i < |out| ==> out[i - 1] != out[i]
    ensures NilConsistent(rs) ==> Strict(Before, out)
  {
    if |rs| >= 2 {
      var sorted :| SortedPermutation(Before, rs, sorted) && out == Dedup(sorted);
      DedupSorted(Before, sorted);
      if NilConsistent(rs) {
        forall x
          ensures x in sorted <==> x in rs
        {
          PermutationMember(rs, sorted, x);
        }
        BeforePreorder();
        ConsistentIsAntisymmetric(sorted);
        DedupStrict(Before, sorted);
      }
    }
  }

  /** Two lists have the same normal form exactly when they have the same set of
      requirements. */
  lemma NormalFormCanonical(
      rs1: seq<Requirement>, rs2: seq<Requirement>, out1: seq<Requirement>, out2: seq<Requirement>)
    requires NormalForm(rs1, out1) && NormalForm(rs2, out2) && NilConsistent(rs1) && NilConsistent(rs2)
    ensures out1 == out2 <==> (forall r :: r in rs1 <==> r in rs2)
  {
    forall r
      ensures (r in out1 <==> r in rs1) && (r in out2 <==> r in rs2)
    {
      NormalFormMembers(rs1, out1, r);
      NormalFormMembers(rs2, out2, r);
    }
    if forall r :: r in rs1 <==> r in rs2 {
      NormalFormStrict(rs1, out1);
      NormalFormStrict(rs2, out2);
      BeforePreorder();
      ConsistentIsAntisymmetric(out1);
      StrictUnique(Before, out1, out2);
    }
  }

  ghost predicate Covers(src: seq<Requirement>, other: seq<Requirement>)
  {
    forall r :: r in src ==> exists q :: q in other && SameRequirement(r, q)
  }

  lemma NormalizedMember(rs: seq<Requirement>, r: Requirement)
    requires r in rs
    ensures Normalize(r) in NormalizeAll(rs)
  {
    var i :| 0 <= i < |rs| && rs[i] == r;
    assert NormalizeAll(rs)[i] == Normalize(r);
  }

  lemma CoversIsSubset(src: seq<Requirement>, other: seq<Requirement>)
    ensures Covers(src, other) <==> (forall x :: x in NormalizeAll(src) ==> x in NormalizeAll(other))
  {
    if Covers(src, other) {
      forall x | x in NormalizeAll(src)
        ensures x in NormalizeAll(other)
      {
        var i :| 0 <= i < |src| && Normalize(src[i]) == x;
        assert src[i] in src;
        var q :| q in other && SameRequirement(src[i], q);
        NormalizeCanonical(src[i], q);
        NormalizedMember(other, q);
      }
    }
    if forall x :: x in NormalizeAll(src) ==> x in NormalizeAll(other) {
      forall r | r in src
        ensures exists q :: q in other && SameRequirement(r, q)
      {
        NormalizedMember(src, r);
        var j :| 0 <= j < |other| && Normalize(other[j]) == Normalize(r);
        NormalizeCanonical(r, other[j]);
      }
    }
  }

  /** On the requirements as the caller wrote them: the normal forms are equal
      exactly when the two lists have the same set of (key, operator, value set)
      requirements. */
  lemma RequirementsCanonical(
      src1: seq<Requirement>, src2: seq<Requirement>, out1: seq<Requirement>, out2: seq<Requirement>)
    requires NormalForm(NormalizeAll(src1), out1) && NormalForm(NormalizeAll(src2), out2)
    requires NilConsistent(NormalizeAll(src1)) && NilConsistent(NormalizeAll(src2))
    ensures out1 == out2 <==> Covers(src1, src2) && Covers(src2, src1)
  {
    NormalFormCanonical(NormalizeAll(src1), NormalizeAll(src2), out1, out2);
    CoversIsSubset(src1, src2);
    CoversIsSubset(src2, src1);
  }

  /** A normal form consists of normalised requirements. */
  lemma NormalFormNormalized(src: seq<Requirement>, out: seq<Requirement>)
    requires NormalForm(NormalizeAll(src), out)
    ensures NormalizeAll(out) == out
  {
    forall i | 0 <= i < |out|
      ensures Normalize(out[i]) == out[i]
    {
      NormalFormMembers(NormalizeAll(src), out, out[i]);
      var k :| 0 <= k < |src| && Normalize(src[k]) == out[i];
      NormalizeTwice(src[k]);
    }
  }

  lemma NormalFormStays(src: seq<Requirement>, out: seq<Requirement>, again: seq<Requirement>)
    requires NormalForm(NormalizeAll(src), out) && NilConsistent(NormalizeAll(src))
    requires NormalForm(NormalizeAll(out), again)
    ensures again == out
  {
    var rs := NormalizeAll(src);
    NormalFormNormalized(src, out);
    NormalFormStrict(rs, out);
    if |out| >= 2 {
      forall r
        ensures r in out <==> r in rs
      {
        NormalFormMembers(rs, out, r);
      }
      var sorted :| SortedPermutation(Before, out, sorted) && again == Dedup(sorted);
      BeforePreorder();
      ConsistentIsAntisymmetric(out);
      SortOfStrict(Before, out, sorted);
      DedupOfStrict(Before, out);
    }
  }

  lemma NormalFormMoves(src: seq<Requirement>, a: Requirement, b: Requirement)
    returns (out: seq<Requirement>, again: seq<Requirement>)
    requires a in NormalizeAll(src) && b in NormalizeAll(src) && a != b
    requires a.key == b.key && a.op == b.op && Items(a.values) == Items(b.values)
    ensures NormalForm(NormalizeAll(src), out) && NormalForm(NormalizeAll(out), again) && again != out
  {
    var rs := NormalizeAll(src);
    var other;
    out, other := DifferentTieOrders(rs, a, b);
    NormalFormNormalized(src, out);
    NormalFormMembers(rs, out, a);
    NormalFormMembers(rs, out, b);
    var again1, again2 := DifferentTieOrders(out, a, b);
    again := if again1 == out then again2 else again1;
  }

  /** Normalising a second time changes nothing, whatever the sort does with ties,
      exactly when no two requirements differ only in nil against empty values. */
  lemma NormalFormIdempotent(src: seq<Requirement>)
    ensures NilConsistent(NormalizeAll(src)) <==>
            forall out, again :: NormalForm(NormalizeAll(src), out) && NormalForm(NormalizeAll(out), again) ==>
              again == out
  {
    var rs := NormalizeAll(src);
    if NilConsistent(rs) {
      forall out, again | NormalForm(rs, out) && NormalForm(NormalizeAll(out), again)
        ensures again == out
      {
        NormalFormStays(src, out, again);
      }
    } else {
      var a, b :| a in rs && b in rs && a.key == b.key && a.op == b.op && Items(a.values) == Items(b.values) && a != b;
      var out, again := NormalFormMoves(src, a, b);
    }
  }

  lemma NormalizeTwice(r: Requirement)
    ensures Normalize(Normalize(r)) == Normalize(r)
  {
    forall v
      ensures v in Items(r.values) <==> v in Items(NormalValues(r.values))
    {
      NormalValuesMembers(Items(r.values), v);
    }
    NormalizeCanonical(r, Normalize(r));
  }

  // ------------------------------------- when the sort's tie order is invisible

  /** `Before` with ties broken by nil values first, or by nil values last. */
  predicate NilFirst(a: Requirement, b: Requirement)
  {
    Before(a, b) && (Before(b, a) ==> a.values.Nil? || !b.values.Nil?)
  }

  predicate NilLast(a: Requirement, b: Requirement)
  {
    Before(a, b) && (Before(b, a) ==> b.values.Nil? || !a.values.Nil?)
  }

  lemma TieBreakPreorders()
    ensures Preorder(NilFirst) && Preorder(NilLast)
  {
    forall x, y
      ensures NilFirst(x, y) || NilFirst(y, x)
      ensures NilLast(x, y) || NilLast(y, x)
    {
      BeforeTotal(x, y);
    }
    forall x, y, z
      ensures NilFirst(x, y) && NilFirst(y, z) ==> NilFirst(x, z)
      ensures NilLast(x, y) && NilLast(y, z) ==> NilLast(x, z)
    {
      if Before(x, y) && Before(y, z) {
        BeforeTransitive(x, y, z);
        if Before(z, x) {
          BeforeTransitive(z, x, y);
          BeforeTransitive(y, z, x);
        }
      }
    }
  }

  lemma TieBreakAntisymmetric(s: seq<Requirement>)
    ensures Antisymmetric(NilFirst, s) && Antisymmetric(NilLast, s)
  {
    forall x, y
      ensures NilFirst(x, y) && NilFirst(y, x) ==> x == y
      ensures NilLast(x, y) && NilLast(y, x) ==> x == y
    {
      BeforeTotal(x, y);
    }
  }

  lemma DifferentTieOrders(rs: seq<Requirement>, a: Requirement, b: Requirement)
    returns (out1: seq<Requirement>, out2: seq<Requirement>)
    requires |rs| >= 2 && a in rs && b in rs && a != b
    requires a.key == b.key && a.op == b.op && Items(a.values) == Items(b.values)
    ensures NormalForm(rs, out1) && NormalForm(rs, out2) && out1 != out2
  {
    TieBreakPreorders();
    var t1 := SortedExists(NilFirst, rs);
    var t2 := SortedExists(NilLast, rs);
    assert SortedPermutation(Before, rs, t1) && SortedPermutation(Before, rs, t2);
    TieBreakAntisymmetric(t1);
    TieBreakAntisymmetric(t2);
    DedupStrict(NilFirst, t1);
    DedupStrict(NilLast, t2);
    out1, out2 := Dedup(t1), Dedup(t2);
    NormalFormMembers(rs, out1, a);
    NormalFormMembers(rs, out1, b);
    BeforeTotal(a, b);
    var i :| 0 <= i < |out1| && out1[i] == a;
    var j :| 0 <= j < |out1| && out1[j] == b;
    assert i < j || j < i;
  }

  /** The normal form does not depend on what the sort does with ties exactly
      when no two requirements of the list differ only in nil against empty
      values. */
  lemma NormalFormDetermined(rs: seq<Requirement>)
    ensures (forall out1, out2 :: NormalForm(rs, out1) && NormalForm(rs, out2) ==> out1 == out2) <==> NilConsistent(rs)
  {
    if NilConsistent(rs) {
      forall out1, out2 | NormalForm(rs, out1) && NormalForm(rs, out2)
        ensures out1 == out2
      {
        NormalFormCanonical(rs, rs, out1, out2);
      }
    } else {
      var a, b :| a in rs && b in rs && a.key == b.key && a.op == b.op && Items(a.values) == Items(b.values) && a != b;
      if |rs| >= 2 {
        var out1, out2 := DifferentTieOrders(rs, a, b);
      }
    }
  }
}
