/** Resource versions are decimal strings. The barrier compares them without
    parsing them: by length first, then as strings. */
module ResourceVersion {
  import Strings

  /** A number as etcd prints it: digits only, at least one, no leading zero. */
  predicate IsDecimal(s: string)
  {
    && s != ""
    && (forall i :: 0 <= i < |s| ==> '0' <= s[i] <= '9')
    && (|s| > 1 ==> s[0] != '0')
  }

  predicate Digits(s: string)
  {
    forall i :: 0 <= i < |s| ==> '0' <= s[i] <= '9'
  }

  function Digit(c: char): (d: nat)
    requires '0' <= c <= '9'
    ensures d < 10
  {
    (c - '0') as nat
  }

  /** The number that a digit string writes, most significant digit first. */
  function Num(s: string): nat
    requires Digits(s)
  {
    if s == "" then 0 else 10 * Num(s[..|s| - 1]) + Digit(s[|s| - 1])
  }

  function Pow10(n: nat): (p: nat)
    ensures p >= 1
  {
    if n == 0 then 1 else 10 * Pow10(n - 1)
  }

  /** The barrier's comparison: is `current` at least as new as `target`? */
  predicate IsRVReached(current: string, target: string)
  {
    if current == target then true
    else if |current| != |target| then |current| > |target|
    else Strings.Less(target, current)
  }

  lemma {:induction false} NumBelowPow(s: string)
    requires Digits(s)
    ensures Num(s) < Pow10(|s|)
  {
    if s != "" {
      NumBelowPow(s[..|s| - 1]);
    }
  }

  lemma {:induction false} Pow10Monotone(m: nat, n: nat)
    requires m <= n
    ensures Pow10(m) <= Pow10(n)
    decreases n - m
  {
    if m < n {
      Pow10Monotone(m + 1, n);
    }
  }

  lemma ShiftLeft(d: nat, p: nat, x: nat)
    ensures 10 * (d * p + x) == d * (10 * p) + 10 * x
  {
  }

  /** The leading digit carries weight 10^(n-1). */
  lemma {:induction false} NumHead(s: string)
    requires Digits(s) && s != ""
    ensures Num(s) == Digit(s[0]) * Pow10(|s| - 1) + Num(s[1..])
  {
    if |s| > 1 {
      var front := s[..|s| - 1];
      NumHead(front);
      assert front[1..] == s[1..][..|s| - 2];
      ShiftLeft(Digit(s[0]), Pow10(|s| - 2), Num(front[1..]));
    } else {
      assert s[..0] == "" && s[1..] == "";
    }
  }

  lemma LongerIsLarger(a: string, b: string)
    requires IsDecimal(a) && IsDecimal(b) && |a| > |b|
    ensures Num(a) > Num(b)
  {
    NumHead(a);
    NumBelowPow(b);
    Pow10Monotone(|b|, |a| - 1);
    MulAtLeast(Digit(a[0]), Pow10(|a| - 1));
  }

  lemma MulAtLeast(d: nat, p: nat)
    requires d >= 1
    ensures d * p >= p
  {
  }

  lemma {:induction false} SameLengthOrder(a: string, b: string)
    requires Digits(a) && Digits(b) && |a| == |b|
    ensures Strings.Less(a, b) <==> Num(a) < Num(b)
  {
    if a != "" {
      NumHead(a);
      NumHead(b);
      if a[0] == b[0] {
        SameLengthOrder(a[1..], b[1..]);
      } else {
        NumBelowPow(a[1..]);
        NumBelowPow(b[1..]);
        LeadingDigit(Digit(a[0]), Digit(b[0]), Pow10(|a| - 1), Num(a[1..]), Num(b[1..]));
      }
    }
  }

  lemma LeadingDigit(d: nat, e: nat, p: nat, x: nat, y: nat)
    requires d != e && x < p && y < p
    ensures d < e <==> d * p + x < e * p + y
  {
    if d < e {
      assert (d + 1) * p <= e * p;
    } else {
      assert (e + 1) * p <= d * p;
    }
  }

  /** On numbers printed without leading zeros, of any length, the string
      comparison decides the numeric order. */
  lemma ReachedIsNumeric(current: string, target: string)
    requires IsDecimal(current) && IsDecimal(target)
    ensures IsRVReached(current, target) <==> Num(current) >= Num(target)
  {
    if |current| > |target| {
      LongerIsLarger(current, target);
    } else if |current| < |target| {
      LongerIsLarger(target, current);
    } else {
      SameLengthOrder(target, current);
      SameLengthOrder(current, target);
      Strings.Trichotomy(current, target);
    }
  }

  /** Distinct resource versions write distinct numbers. */
  lemma NumInjective(a: string, b: string)
    requires IsDecimal(a) && IsDecimal(b) && Num(a) == Num(b)
    ensures a == b
  {
    ReachedIsNumeric(a, b);
    ReachedIsNumeric(b, a);
    Strings.Trichotomy(a, b);
  }

  /** Hence the comparison is a total order. */
  lemma ReachedIsTotalOrder(a: string, b: string, c: string)
    requires IsDecimal(a) && IsDecimal(b) && IsDecimal(c)
    ensures IsRVReached(a, b) || IsRVReached(b, a)
    ensures IsRVReached(a, b) && IsRVReached(b, a) ==> a == b
    ensures IsRVReached(a, b) && IsRVReached(b, c) ==> IsRVReached(a, c)
  {
    ReachedIsNumeric(a, b);
    ReachedIsNumeric(b, a);
    ReachedIsNumeric(b, c);
    ReachedIsNumeric(a, c);
    if Num(a) == Num(b) {
      NumInjective(a, b);
    }
  }

  function WithoutLeadingZeros(s: string): string
  {
    if |s| > 1 && s[0] == '0' then WithoutLeadingZeros(s[1..]) else s
  }

  lemma {:induction false} SameNumber(s: string)
    requires Digits(s) && s != ""
    ensures IsDecimal(WithoutLeadingZeros(s)) && Num(WithoutLeadingZeros(s)) == Num(s)
    ensures !IsDecimal(s) ==> |WithoutLeadingZeros(s)| < |s|
  {
    if |s| > 1 && s[0] == '0' {
      SameNumber(s[1..]);
      NumHead(s);
    }
  }

  /** The numeric reading needs printed numbers: a string of digits is compared as
      its number with all of them exactly when it is one itself. */
  lemma NumericExactly(s: string)
    requires Digits(s) && s != ""
    ensures IsDecimal(s) <==> forall t :: IsDecimal(t) ==> (IsRVReached(t, s) <==> Num(t) >= Num(s))
  {
    if IsDecimal(s) {
      forall t | IsDecimal(t)
        ensures IsRVReached(t, s) <==> Num(t) >= Num(s)
      {
        ReachedIsNumeric(t, s);
      }
    } else {
      SameNumber(s);
      var t := WithoutLeadingZeros(s);
      assert !IsRVReached(t, s);
    }
  }
}
