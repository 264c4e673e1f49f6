/** Go's built-in string comparison: lexicographic, a proper prefix first. */
module Strings {

  predicate Less(a: string, b: string)
  {
    if b == "" then false
    else if a == "" then true
    else if a[0] != b[0] then a[0] < b[0]
    else Less(a[1..], b[1..])
  }

  predicate Leq(a: string, b: string)
  {
    !Less(b, a)
  }

  /** Exactly one of `a < b`, `a == b` and `a > b` holds. */
  lemma {:induction false} Trichotomy(a: string, b: string)
    ensures a == b ==> !Less(a, b)
    ensures a != b ==> (Less(a, b) <==> !Less(b, a))
  {
    if a != "" && b != "" && a[0] == b[0] {
      Trichotomy(a[1..], b[1..]);
      assert a == [a[0]] + a[1..] && b == [b[0]] + b[1..];
    }
  }

  lemma {:induction false} LessTransitive(a: string, b: string, c: string)
    requires Less(a, b) && Less(b, c)
    ensures Less(a, c)
  {
    if a != "" && a[0] == b[0] == c[0] {
      LessTransitive(a[1..], b[1..], c[1..]);
    }
  }

  lemma LeqTransitive(a: string, b: string, c: string)
    requires Leq(a, b) && Leq(b, c)
    ensures Leq(a, c)
  {
    Trichotomy(a, b);
    Trichotomy(b, c);
    Trichotomy(a, c);
    if a != b && b != c {
      LessTransitive(a, b, c);
    }
  }

  /** Lists of strings, compared from the front. */
  predicate ListLess(a: seq<string>, b: seq<string>)
  {
    if b == [] then false
    else if a == [] then true
    else if a[0] != b[0] then Less(a[0], b[0])
    else ListLess(a[1..], b[1..])
  }

  lemma ListLessCons(x: string, a: seq<string>, y: string, b: seq<string>)
    ensures ListLess([x] + a, [y] + b) <==> if x != y then Less(x, y) else ListLess(a, b)
  {
    assert ([x] + a)[1..] == a && ([y] + b)[1..] == b;
  }

  predicate ListLeq(a: seq<string>, b: seq<string>)
  {
    !ListLess(b, a)
  }

  lemma {:induction false} ListTrichotomy(a: seq<string>, b: seq<string>)
    ensures a == b ==> !ListLess(a, b)
    ensures a != b ==> (ListLess(a, b) <==> !ListLess(b, a))
  {
    if a != [] && b != [] {
      Trichotomy(a[0], b[0]);
      if a[0] == b[0] {
        ListTrichotomy(a[1..], b[1..]);
        assert a == [a[0]] + a[1..] && b == [b[0]] + b[1..];
      }
    }
  }

  lemma {:induction false} ListLessTransitive(a: seq<string>, b: seq<string>, c: seq<string>)
    requires ListLess(a, b) && ListLess(b, c)
    ensures ListLess(a, c)
  {
    if a != [] {
      Trichotomy(a[0], b[0]);
      Trichotomy(b[0], c[0]);
      Trichotomy(a[0], c[0]);
      if a[0] == b[0] == c[0] {
        ListLessTransitive(a[1..], b[1..], c[1..]);
      } else if a[0] != b[0] && b[0] != c[0] {
        LessTransitive(a[0], b[0], c[0]);
      }
    }
  }

  lemma ListLeqTransitive(a: seq<string>, b: seq<string>, c: seq<string>)
    requires ListLeq(a, b) && ListLeq(b, c)
    ensures ListLeq(a, c)
  {
    ListTrichotomy(a, b);
    ListTrichotomy(b, c);
    ListTrichotomy(a, c);
    if a != b && b != c {
      ListLessTransitive(a, b, c);
    }
  }
}
