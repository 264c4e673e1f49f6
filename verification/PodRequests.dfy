/** What a pod asks for of one resource: the sum over its containers, then a walk
    over its init containers in which sidecars add up and the others compete. */
module PodRequests {
  import opened Options

  /** One container, for one resource; `limit` is its CPU limit in millicores. */
  datatype Container = Container(request: Option<int>, limit: Option<int>, sidecar: bool)

  /** `podRequest` and `podLimit` are the pod-level settings, if they apply. */
  datatype PodSpec = PodSpec(
    containers: seq<Container>, initContainers: seq<Container>,
    overhead: Option<int>, podRequest: Option<int>, podLimit: Option<int>)

  /** An amount and whether it is a sidecar's. */
  datatype Stage = Stage(amount: Option<int>, sidecar: bool)

  function Amount(s: Stage): int
  {
    if s.amount.Some? then s.amount.value else 0
  }

  function Total(stages: seq<Stage>): int
  {
    if stages == [] then 0 else Total(stages[..|stages| - 1]) + Amount(stages[|stages| - 1])
  }

  function Sidecars(stages: seq<Stage>): int
  {
    if stages == [] then 0
    else Sidecars(stages[..|stages| - 1]) + if stages[|stages| - 1].sidecar then Amount(stages[|stages| - 1]) else 0
  }

  predicate Regular(s: Stage)
  {
    !s.sidecar && s.amount.Some?
  }

  /** The walk over the init containers. */
  function Walk(base: int, stages: seq<Stage>): int
  {
    if stages == [] then base
    else
      var before, s := Walk(base, stages[..|stages| - 1]), stages[|stages| - 1];
      if s.sidecar then before + Amount(s)
      else if s.amount.Some? && before < s.amount.value then s.amount.value
      else before
  }

  /** A regular init container together with the sidecars declared after it. */
  function WithLater(stages: seq<Stage>, i: nat): int
    requires i < |stages|
  {
    Amount(stages[i]) + Sidecars(stages[i + 1..])
  }

  /** A regular init container together with the sidecars declared before it. */
  function WithEarlier(stages: seq<Stage>, i: nat): int
    requires i < |stages|
  {
    Amount(stages[i]) + Sidecars(stages[..i])
  }

  /** `peak` is the larger of the steady state and the regular init containers,
      each with its later sidecars. */
  ghost predicate IsPeak(base: int, stages: seq<Stage>, peak: int)
  {
    && peak >= base + Sidecars(stages)
    && (forall i :: 0 <= i < |stages| && Regular(stages[i]) ==> peak >= WithLater(stages, i))
    && (peak == base + Sidecars(stages)
        || exists i :: 0 <= i < |stages| && Regular(stages[i]) && peak == WithLater(stages, i))
  }

  /** The same with the earlier sidecars, as KEP-753 defines it in its section
      "Resources calculation for scheduling and pod admission". */
  ghost predicate IsKepPeak(base: int, stages: seq<Stage>, peak: int)
  {
    && peak >= base + Sidecars(stages)
    && (forall i :: 0 <= i < |stages| && Regular(stages[i]) ==> peak >= WithEarlier(stages, i))
    && (peak == base + Sidecars(stages)
        || exists i :: 0 <= i < |stages| && Regular(stages[i]) && peak == WithEarlier(stages, i))
  }

  lemma LaterOfPrefix(stages: seq<Stage>, i: nat)
    requires i < |stages| - 1
    ensures var last := stages[|stages| - 1];
            WithLater(stages, i) == WithLater(stages[..|stages| - 1], i) + if last.sidecar then Amount(last) else 0
  {
    var front := stages[..|stages| - 1];
    var later := stages[i + 1..];
    assert later[..|later| - 1] == front[i + 1..];
  }

  /** The walk computes the closed form, for all amounts. */
  lemma {:induction false} WalkIsPeak(base: int, stages: seq<Stage>)
    ensures IsPeak(base, stages, Walk(base, stages))
  {
    if stages != [] {
      var front, last := stages[..|stages| - 1], stages[|stages| - 1];
      WalkIsPeak(base, front);
      forall i | 0 <= i < |front|
        ensures WithLater(stages, i) == WithLater(front, i) + if last.sidecar then Amount(last) else 0
      {
        LaterOfPrefix(stages, i);
      }
      assert stages[|stages|..] == [];
      assert WithLater(stages, |stages| - 1) == Amount(last);
      var before := Walk(base, front);
      if Regular(last) && before < last.amount.value {
        assert Regular(stages[|stages| - 1]) && Walk(base, stages) == WithLater(stages, |stages| - 1);
      } else if before != base + Sidecars(front) {
        var i :| 0 <= i < |front| && Regular(front[i]) && before == WithLater(front, i);
        assert Regular(stages[i]) && Walk(base, stages) == WithLater(stages, i);
      }
    }
  }

  // ----------------------------------------------------------------- requests

  function RequestStages(cs: seq<Container>): seq<Stage>
  {
    seq(|cs|, i requires 0 <= i < |cs| => Stage(cs[i].request, cs[i].sidecar))
  }

  /** What the stages stand for: a container asks for its request, or for nothing, and
      the containers together for the sum. */
  lemma RequestsRead(cs: seq<Container>, c: Container)
    ensures |RequestStages(cs)| == |cs|
    ensures forall i :: 0 <= i < |cs| ==>
              && RequestStages(cs)[i].sidecar == cs[i].sidecar
              && (Regular(RequestStages(cs)[i]) <==> !cs[i].sidecar && cs[i].request.Some?)
              && Amount(RequestStages(cs)[i]) == if cs[i].request.Some? then cs[i].request.value else 0
    ensures Total(RequestStages([])) == 0
    ensures Total(RequestStages(cs + [c])) ==
            Total(RequestStages(cs)) + if c.request.Some? then c.request.value else 0
  {
    assert RequestStages(cs + [c])[..|cs|] == RequestStages(cs);
  }

  /** The pod-level request, if it applies, or the peak; the overhead goes on top of
      anything but zero. */
  method GetResourceRequestQuantity(pod: PodSpec) returns (quantity: int)
    ensures pod.podRequest.Some? ==>
              quantity == pod.podRequest.value
                          + if pod.overhead.Some? && pod.podRequest.value != 0 then pod.overhead.value else 0
    ensures pod.podRequest.None? ==>
              exists peak ::
                && IsPeak(Total(RequestStages(pod.containers)), RequestStages(pod.initContainers), peak)
                && quantity == peak + if pod.overhead.Some? && peak != 0 then pod.overhead.value else 0
  {
    if pod.podRequest.Some? {
      quantity := pod.podRequest.value;
      if pod.overhead.Some? && quantity != 0 {
        quantity := quantity + pod.overhead.value;
      }
      return;
    }
    quantity := 0;
    ghost var regular, init := RequestStages(pod.containers), RequestStages(pod.initContainers);
    for i := 0 to |pod.containers|
      invariant quantity == Total(regular[..i])
    {
      assert regular[..i + 1][..i] == regular[..i];
      if pod.containers[i].request.Some? {
        quantity := quantity + pod.containers[i].request.value;
      }
    }
    assert regular[..|regular|] == regular;
    ghost var base := quantity;
    for i := 0 to |pod.initContainers|
      invariant quantity == Walk(base, init[..i])
    {
      var c := pod.initContainers[i];
      assert init[..i + 1][..i] == init[..i];
      if c.sidecar {
        if c.request.Some? {
          quantity := quantity + c.request.value;
        }
      } else if c.request.Some? {
        if quantity < c.request.value {
          quantity := c.request.value;
        }
      }
    }
    assert init[..|init|] == init;
    WalkIsPeak(base, init);
    if pod.overhead.Some? && quantity != 0 {
      quantity := quantity + pod.overhead.value;
    }
  }

  // ----------------------------------------------------------- against KEP-753

  predicate SidecarsNonNegative(stages: seq<Stage>)
  {
    forall i :: 0 <= i < |stages| && stages[i].sidecar ==> Amount(stages[i]) >= 0
  }

  predicate RegularsWithin(base: int, stages: seq<Stage>)
  {
    forall s :: s in stages && Regular(s) ==> Amount(s) <= base
  }

  lemma {:induction false} SidecarsSplit(stages: seq<Stage>, i: nat)
    requires i <= |stages|
    ensures Sidecars(stages) == Sidecars(stages[..i]) + Sidecars(stages[i..])
  {
    if i == |stages| {
      assert stages[..i] == stages && stages[i..] == [];
    } else {
      var front := stages[..|stages| - 1];
      SidecarsSplit(front, i);
      assert front[..i] == stages[..i];
      var rest := stages[i..];
      assert rest[..|rest| - 1] == front[i..];
    }
  }

  lemma {:induction false} SidecarsAtLeastZero(stages: seq<Stage>)
    requires SidecarsNonNegative(stages)
    ensures Sidecars(stages) >= 0
  {
    if stages != [] {
      SidecarsAtLeastZero(stages[..|stages| - 1]);
    }
  }

  /** Earlier and later sidecars of a regular init container make up all of
      them. */
  lemma SidecarsAround(stages: seq<Stage>, i: nat)
    requires i < |stages| && Regular(stages[i])
    ensures Sidecars(stages) == Sidecars(stages[..i]) + Sidecars(stages[i + 1..])
  {
    SidecarsSplit(stages, i);
    SidecarsSplit(stages[i..], 1);
    assert stages[i..][1..] == stages[i + 1..];
    assert stages[i..][..1] == [stages[i]] && [stages[i]][..0] == [];
    assert Sidecars([stages[i]]) == 0;
  }

  lemma EarlierAndLater(stages: seq<Stage>, i: nat)
    requires i < |stages| && Regular(stages[i]) && SidecarsNonNegative(stages)
    ensures WithEarlier(stages, i) + WithLater(stages, i) == 2 * Amount(stages[i]) + Sidecars(stages)
    ensures Amount(stages[i]) <= WithEarlier(stages, i) <= Amount(stages[i]) + Sidecars(stages)
    ensures Amount(stages[i]) <= WithLater(stages, i) <= Amount(stages[i]) + Sidecars(stages)
  {
    SidecarsAround(stages, i);
    SidecarsAtLeastZero(stages[..i]);
    SidecarsAtLeastZero(stages[i + 1..]);
  }

  /** Whether the walk over the init containers gives what the KEP defines. */
  ghost predicate Agrees(base: int, stages: seq<Stage>)
  {
    IsKepPeak(base, stages, Walk(base, stages))
  }

  /** When no regular init container asks for more than the containers together,
      the code and the KEP agree. */
  lemma AgreesWithKep(base: int, stages: seq<Stage>)
    requires SidecarsNonNegative(stages) && RegularsWithin(base, stages)
    ensures Agrees(base, stages)
    ensures forall peak, kep :: IsPeak(base, stages, peak) && IsKepPeak(base, stages, kep) ==>
              peak == kep == base + Sidecars(stages)
  {
    WalkIsPeak(base, stages);
    forall i | 0 <= i < |stages| && Regular(stages[i])
      ensures WithLater(stages, i) <= base + Sidecars(stages)
      ensures WithEarlier(stages, i) <= base + Sidecars(stages)
    {
      assert stages[i] in stages;
      EarlierAndLater(stages, i);
    }
  }

  /** The two differ by at most what all sidecars ask for. */
  lemma DiffersByAtMostSidecars(base: int, stages: seq<Stage>, peak: int, kep: int)
    requires IsPeak(base, stages, peak) && IsKepPeak(base, stages, kep) && SidecarsNonNegative(stages)
    ensures peak - Sidecars(stages) <= kep <= peak + Sidecars(stages)
  {
    SidecarsAtLeastZero(stages);
    forall i | 0 <= i < |stages| && Regular(stages[i])
      ensures WithLater(stages, i) <= WithEarlier(stages, i) + Sidecars(stages)
      ensures WithEarlier(stages, i) <= WithLater(stages, i) + Sidecars(stages)
    {
      EarlierAndLater(stages, i);
    }
  }

  // ------------------------------------------------- when the two agree, exactly

  lemma {:induction false} SidecarsAppend(a: seq<Stage>, b: seq<Stage>)
    ensures Sidecars(a + b) == Sidecars(a) + Sidecars(b)
  {
    SidecarsSplit(a + b, |a|);
    assert (a + b)[..|a|] == a && (a + b)[|a|..] == b;
  }

  /** The sidecars' total does not depend on the order. */
  lemma {:induction false} SidecarsPermuted(a: seq<Stage>, b: seq<Stage>)
    requires multiset(a) == multiset(b)
    ensures Sidecars(a) == Sidecars(b)
  {
    if a == [] {
      assert |b| == |multiset(b)| == 0;
    } else {
      var front, last := a[..|a| - 1], a[|a| - 1];
      assert a == front + [last];
      assert last in multiset(b);
      var i :| 0 <= i < |b| && b[i] == last;
      var rest := b[..i] + b[i + 1..];
      TakenOut(b, i);
      SidecarsPermuted(front, rest);
      SidecarsAppend(front, [last]);
    }
  }

  lemma TakenOut(b: seq<Stage>, i: nat)
    requires i < |b|
    ensures var rest := b[..i] + b[i + 1..];
            multiset(rest) == multiset(b) - multiset{b[i]} && Sidecars(b) == Sidecars(rest) + Sidecars([b[i]])
  {
    assert b == b[..i] + [b[i]] + b[i + 1..];
    SidecarsAppend(b[..i] + [b[i]], b[i + 1..]);
    SidecarsAppend(b[..i], [b[i]]);
    SidecarsAppend(b[..i], b[i + 1..]);
  }

  lemma PermutedMember(a: seq<Stage>, b: seq<Stage>, s: Stage)
    requires multiset(a) == multiset(b)
    ensures s in a <==> s in b
  {
    assert s in a <==> s in multiset(a);
    assert s in b <==> s in multiset(b);
  }

  /** The sidecars first, then the others. */
  function Chosen(stages: seq<Stage>, sidecar: bool): (out: seq<Stage>)
    ensures forall s :: s in out <==> s in stages && s.sidecar == sidecar
  {
    if stages == [] then []
    else
      var front, last := stages[..|stages| - 1], stages[|stages| - 1];
      assert stages == front + [last];
      Chosen(front, sidecar) + if last.sidecar == sidecar then [last] else []
  }

  function SidecarsFirst(stages: seq<Stage>): seq<Stage>
  {
    Chosen(stages, true) + Chosen(stages, false)
  }

  lemma {:induction false} SidecarsFirstPermutes(stages: seq<Stage>)
    ensures multiset(SidecarsFirst(stages)) == multiset(stages)
  {
    if stages != [] {
      var front, last := stages[..|stages| - 1], stages[|stages| - 1];
      SidecarsFirstPermutes(front);
      assert stages == front + [last];
      assert multiset(stages) == multiset(front) + multiset{last};
    }
  }

  lemma {:induction false} NoSidecars(stages: seq<Stage>)
    requires forall s :: s in stages ==> !s.sidecar
    ensures Sidecars(stages) == 0
  {
    if stages != [] {
      var front := stages[..|stages| - 1];
      assert forall s :: s in front ==> s in stages;
      assert stages[|stages| - 1] in stages;
      NoSidecars(front);
    }
  }

  /** Then a regular init container has no sidecar after it, */
  lemma NoneLater(stages: seq<Stage>, i: nat)
    requires i < |SidecarsFirst(stages)| && Regular(SidecarsFirst(stages)[i])
    ensures Sidecars(SidecarsFirst(stages)[i + 1..]) == 0
  {
    var first, rest := Chosen(stages, true), Chosen(stages, false);
    assert forall j :: 0 <= j < |first| ==> SidecarsFirst(stages)[j] in first;
    var later := SidecarsFirst(stages)[i + 1..];
    assert later == rest[i + 1 - |first|..];
    assert forall s :: s in later ==> s in rest;
    NoSidecars(later);
  }

  /** and so all of them before it. */
  lemma SidecarsFirstSplits(stages: seq<Stage>, i: nat)
    requires i < |SidecarsFirst(stages)| && Regular(SidecarsFirst(stages)[i])
    ensures var p := SidecarsFirst(stages);
            WithLater(p, i) == Amount(p[i]) && WithEarlier(p, i) == Amount(p[i]) + Sidecars(p)
  {
    NoneLater(stages, i);
    SidecarsAround(SidecarsFirst(stages), i);
  }

  /** A regular init container above the base then makes the KEP's peak larger. */
  lemma SidecarsFirstDiffers(base: int, stages: seq<Stage>, peak: int)
    requires IsPeak(base, SidecarsFirst(stages), peak) && IsKepPeak(base, SidecarsFirst(stages), peak)
    requires Sidecars(SidecarsFirst(stages)) > 0
    ensures RegularsWithin(base, SidecarsFirst(stages))
  {
    var p := SidecarsFirst(stages);
    forall i | 0 <= i < |p| && Regular(p[i])
      ensures WithLater(p, i) == Amount(p[i]) && WithEarlier(p, i) == Amount(p[i]) + Sidecars(p)
      ensures Amount(p[i]) <= base
    {
      SidecarsFirstSplits(stages, i);
      if peak != base + Sidecars(p) {
        var j :| 0 <= j < |p| && Regular(p[j]) && peak == WithLater(p, j);
        SidecarsFirstSplits(stages, j);
      }
    }
  }

  lemma AgreesWithoutSidecars(base: int, stages: seq<Stage>)
    requires SidecarsNonNegative(stages) && Sidecars(stages) == 0
    ensures Agrees(base, stages)
  {
    WalkIsPeak(base, stages);
    forall i | 0 <= i < |stages| && Regular(stages[i])
      ensures WithLater(stages, i) == WithEarlier(stages, i)
    {
      EarlierAndLater(stages, i);
    }
  }

  lemma PermutedStages(a: seq<Stage>, b: seq<Stage>)
    requires multiset(a) == multiset(b)
    ensures Sidecars(a) == Sidecars(b) && (SidecarsNonNegative(a) ==> SidecarsNonNegative(b))
    ensures forall base :: RegularsWithin(base, a) <==> RegularsWithin(base, b)
  {
    SidecarsPermuted(a, b);
    forall s
      ensures s in a <==> s in b
    {
      PermutedMember(a, b, s);
    }
    assert forall i :: 0 <= i < |b| ==> b[i] in a;
  }

  /** The code agrees with the KEP for every order of the init containers exactly
      when the sidecars ask for nothing or no regular init container asks for more
      than the containers together. */
  lemma AgreesExactly(base: int, stages: seq<Stage>)
    requires SidecarsNonNegative(stages)
    ensures (forall order :: multiset(order) == multiset(stages) ==> Agrees(base, order)) <==>
            Sidecars(stages) == 0 || RegularsWithin(base, stages)
  {
    if Sidecars(stages) == 0 || RegularsWithin(base, stages) {
      forall order | multiset(order) == multiset(stages)
        ensures Agrees(base, order)
      {
        PermutedStages(stages, order);
        if Sidecars(stages) == 0 {
          AgreesWithoutSidecars(base, order);
        } else {
          AgreesWithKep(base, order);
        }
      }
    } else {
      var p := SidecarsFirst(stages);
      SidecarsFirstPermutes(stages);
      PermutedStages(stages, p);
      SidecarsAtLeastZero(stages);
      if Agrees(base, p) {
        WalkIsPeak(base, p);
        SidecarsFirstDiffers(base, stages, Walk(base, p));
      }
    }
  }

  lemma OneOfEach(a: Stage, b: Stage)
    ensures Sidecars([a, b]) == Sidecars([a]) + Sidecars([b])
    ensures WithEarlier([a, b], 0) == Amount(a) && WithLater([a, b], 1) == Amount(b)
    ensures WithLater([a, b], 0) == Amount(a) + Sidecars([b]) && WithEarlier([a, b], 1) == Amount(b) + Sidecars([a])
    ensures Sidecars([a]) == if a.sidecar then Amount(a) else 0
    ensures Sidecars([b]) == if b.sidecar then Amount(b) else 0
  {
    assert [a][..0] == [] && [b][..0] == [] && [a, b] == [a] + [b];
    SidecarsAppend([a], [b]);
    assert [a, b][..0] == [] && [a, b][..1] == [a] && [a, b][1..] == [b] && [a, b][2..] == [];
  }

  /** A sidecar declared before a large init container is left out, */
  lemma SidecarLeftOut(s: nat, r: int)
    requires r >= s
    ensures IsPeak(0, [Stage(Some(s), true), Stage(Some(r), false)], r)
    ensures IsKepPeak(0, [Stage(Some(s), true), Stage(Some(r), false)], r + s)
  {
    var stages := [Stage(Some(s as int), true), Stage(Some(r), false)];
    OneOfEach(stages[0], stages[1]);
    assert Regular(stages[1]);
  }

  /** and one declared after it is added. */
  lemma SidecarAdded(s: nat, r: int)
    requires r >= s
    ensures IsPeak(0, [Stage(Some(r), false), Stage(Some(s), true)], r + s)
    ensures IsKepPeak(0, [Stage(Some(r), false), Stage(Some(s), true)], r)
  {
    var stages := [Stage(Some(r), false), Stage(Some(s as int), true)];
    OneOfEach(stages[0], stages[1]);
    assert Regular(stages[0]);
  }

  /** So the difference is attained in both directions. */
  lemma KepDifferenceAttained(s: nat, r: int)
    requires r >= s
    ensures var side, init := Stage(Some(s as int), true), Stage(Some(r), false);
            var first, second := [side, init], [init, side];
            && IsPeak(0, first, r) && IsKepPeak(0, first, r + s) && Sidecars(first) == s
            && IsPeak(0, second, r + s) && IsKepPeak(0, second, r) && Sidecars(second) == s
  {
    SidecarLeftOut(s, r);
    SidecarAdded(s, r);
    OneOfEach(Stage(Some(s as int), true), Stage(Some(r), false));
    OneOfEach(Stage(Some(r), false), Stage(Some(s as int), true));
  }

  // ------------------------------------------------------------------- limits

  function Limit(c: Container): int
  {
    if c.limit.Some? then c.limit.value else -1
  }

  function LimitStages(cs: seq<Container>): seq<Stage>
  {
    seq(|cs|, i requires 0 <= i < |cs| => Stage(Some(Limit(cs[i])), cs[i].sidecar))
  }

  predicate Unlimited(cs: seq<Container>)
  {
    exists c :: c in cs && Limit(c) <= 0
  }

  /** The same for limits, in which a container without a positive limit makes the
      whole pod unlimited. */
  lemma LimitsRead(cs: seq<Container>, c: Container)
    ensures |LimitStages(cs)| == |cs|
    ensures forall i :: 0 <= i < |cs| ==>
              && LimitStages(cs)[i].sidecar == cs[i].sidecar
              && (Regular(LimitStages(cs)[i]) <==> !cs[i].sidecar)
              && (cs[i].limit.Some? ==> Amount(LimitStages(cs)[i]) == cs[i].limit.value)
    ensures Unlimited(cs + [c]) <==> Unlimited(cs) || c.limit.None? || c.limit.value <= 0
    ensures !Unlimited([])
    ensures Total(LimitStages([])) == 0
    ensures c.limit.Some? ==> Total(LimitStages(cs + [c])) == Total(LimitStages(cs)) + c.limit.value
  {
    assert LimitStages(cs + [c])[..|cs|] == LimitStages(cs);
    assert c in cs + [c];
    if x :| x in cs && Limit(x) <= 0 {
      assert x in cs + [c];
    }
  }

  /** -1, meaning unlimited, exactly when the pod-level limit is not positive or,
      without one, some container has no positive limit or there is none at all;
      otherwise the same closed form as for requests. */
  method GetPodMilliCPULimit(pod: PodSpec) returns (limit: int)
    ensures pod.podLimit.Some? ==> limit == if pod.podLimit.value > 0 then pod.podLimit.value else -1
    ensures pod.podLimit.None? ==>
              (limit == -1 <==>
                Unlimited(pod.containers) || Unlimited(pod.initContainers)
                || (pod.containers == [] && pod.initContainers == []))
    ensures pod.podLimit.None? && limit != -1 ==>
              limit > 0 && IsPeak(Total(LimitStages(pod.containers)), LimitStages(pod.initContainers), limit)
  {
    if pod.podLimit.Some? {
      if pod.podLimit.value > 0 {
        return pod.podLimit.value;
      }
      return -1;
    }
    limit := TotalLimit(pod.containers);
    if limit == -1 {
      return;
    }
    ghost var base, init := limit, LimitStages(pod.initContainers);
    for i := 0 to |pod.initContainers|
      invariant limit == Walk(base, init[..i]) && limit >= 0
      invariant limit == 0 <==> i == 0 && pod.containers == []
      invariant forall k :: 0 <= k < i ==> Limit(pod.initContainers[k]) > 0
    {
      var c := pod.initContainers[i];
      assert init[..i + 1][..i] == init[..i];
      if Limit(c) <= 0 {
        assert c in pod.initContainers;
        return -1;
      }
      if c.sidecar {
        limit := limit + Limit(c);
      } else {
        limit := if limit > Limit(c) then limit else Limit(c);
      }
    }
    assert init[..|init|] == init;
    WalkIsPeak(base, init);
    if limit <= 0 {
      return -1;
    }
  }

  /** The sum over the containers, or -1 as soon as one is unlimited. */
  method TotalLimit(cs: seq<Container>) returns (limit: int)
    ensures limit == -1 <==> Unlimited(cs)
    ensures limit != -1 ==> limit == Total(LimitStages(cs)) && limit >= 0 && (limit == 0 <==> cs == [])
  {
    limit := 0;
    ghost var stages := LimitStages(cs);
    for i := 0 to |cs|
      invariant limit == Total(stages[..i]) && limit >= 0 && (limit == 0 <==> i == 0)
      invariant forall k :: 0 <= k < i ==> Limit(cs[k]) > 0
    {
      assert stages[..i + 1][..i] == stages[..i];
      if Limit(cs[i]) <= 0 {
        assert cs[i] in cs;
        return -1;
      }
      limit := limit + Limit(cs[i]);
    }
    assert stages[..|stages|] == stages;
  }
}
