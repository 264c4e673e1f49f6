/** The evictor's own limits: equality tests instead of the limiter's
    comparison, without a total cap. */
module PodEvictor {
  import opened Evictions
  import opened Options

  predicate NodeLimitExceeded(l: Limits, c: Counters, node: string)
  {
    l.perNode.Some? && Count(c.nodes, node) == l.perNode.value
  }

  predicate NamespaceLimitExceeded(l: Limits, c: Counters, namespace: string)
  {
    l.perNamespace.Some? && Count(c.namespaces, namespace) == l.perNamespace.value
  }

  predicate Passes(l: Limits, c: Counters, pod: Pod)
  {
    !NodeLimitExceeded(l, c, pod.node) && !NamespaceLimitExceeded(l, c, pod.namespace)
  }

  datatype Outcome = Outcome(counters: Counters, accepted: bool)

  /** One eviction outside dry run; `evicted` says whether the API call
      succeeds. */
  function EvictorStep(l: Limits, c: Counters, pod: Pod, evicted: bool): Outcome
  {
    if Passes(l, c, pod) && evicted then Outcome(Recorded(c, pod), true) else Outcome(c, false)
  }

  /** The same through the limiter: check, evict, record on success. */
  function LimiterStep(l: Limits, c: Counters, pod: Pod, evicted: bool): Outcome
  {
    if Allows(l, c, pod) && evicted then Outcome(Recorded(c, pod), true) else Outcome(c, false)
  }

  /** No counter has passed its cap. */
  ghost predicate AllWithin(l: Limits, c: Counters)
  {
    forall scope :: WithinCap(l, c, scope)
  }

  class PodEvictor {
    const limits: Limits
    const dryRun: bool
    var totalCount: nat
    var nodePodCount: map<string, nat>
    var namespacePodCount: map<string, nat>

    ghost function State(): Counters
      reads this
    {
      Counters(totalCount, nodePodCount, namespacePodCount)
    }

    constructor (limits: Limits, dryRun: bool)
      ensures this.limits == limits && this.dryRun == dryRun && State() == ZERO
    {
      this.limits := limits;
      this.dryRun := dryRun;
      totalCount := 0;
      nodePodCount := map[];
      namespacePodCount := map[];
    }

    /** A dry run accepts what passes and counts nothing. */
    method Evict(pod: Pod, evicted: bool) returns (accepted: bool)
      modifies this
      ensures !dryRun ==> Outcome(State(), accepted) == EvictorStep(limits, old(State()), pod, evicted)
      ensures dryRun ==> State() == old(State()) && (accepted <==> Passes(limits, State(), pod))
      ensures limits.total.None? && old(AllWithin(limits, State())) ==> AllWithin(limits, State())
    {
      StepStaysWithin(limits, State(), pod, evicted);
      if limits.perNode.Some? && Count(nodePodCount, pod.node) == limits.perNode.value {
        return false;
      }
      if limits.perNamespace.Some? && Count(namespacePodCount, pod.namespace) == limits.perNamespace.value {
        return false;
      }
      if !dryRun {
        if !evicted {
          return false;
        }
        if pod.node != "" {
          nodePodCount := nodePodCount[pod.node := Count(nodePodCount, pod.node) + 1];
        }
        namespacePodCount := namespacePodCount[pod.namespace := Count(namespacePodCount, pod.namespace) + 1];
        totalCount := totalCount + 1;
      }
      return true;
    }
  }

  /** As long as the caps hold, the equality tests keep them. */
  lemma StepStaysWithin(l: Limits, c: Counters, pod: Pod, evicted: bool)
    ensures l.total.None? && AllWithin(l, c) ==> AllWithin(l, EvictorStep(l, c, pod, evicted).counters)
  {
    if l.total.None? && AllWithin(l, c) && Passes(l, c, pod) && evicted {
      forall scope
        ensures WithinCap(l, Recorded(c, pod), scope)
      {
        RecordedCounter(c, pod, scope);
        assert WithinCap(l, c, scope);
      }
    }
  }

  /** The two tests differ in one case exactly: a pod without a node under a
      zero node cap, which only the evictor refuses. */
  lemma TestsAgree(l: Limits, c: Counters, pod: Pod)
    requires l.total.None? && AllWithin(l, c) && "" !in c.nodes
    ensures Passes(l, c, pod) ==> Allows(l, c, pod)
    ensures Passes(l, c, pod) != Allows(l, c, pod) <==>
            pod.node == "" && l.perNode == Some(0) && Allows(l, c, pod)
  {
    assert WithinCap(l, c, OnNode(pod.node));
    assert WithinCap(l, c, InNamespace(pod.namespace));
  }

  // ------------------------------------------------------------ sequences of calls

  datatype Call = Call(pod: Pod, evicted: bool)

  datatype Trace = Trace(counters: Counters, answers: seq<bool>)

  function EvictorRun(l: Limits, calls: seq<Call>): Trace
  {
    if calls == [] then Trace(ZERO, [])
    else
      var before, call := EvictorRun(l, calls[..|calls| - 1]), calls[|calls| - 1];
      var out := EvictorStep(l, before.counters, call.pod, call.evicted);
      Trace(out.counters, before.answers + [out.accepted])
  }

  function LimiterRun(l: Limits, calls: seq<Call>): Trace
  {
    if calls == [] then Trace(ZERO, [])
    else
      var before, call := LimiterRun(l, calls[..|calls| - 1]), calls[|calls| - 1];
      var out := LimiterStep(l, before.counters, call.pod, call.evicted);
      Trace(out.counters, before.answers + [out.accepted])
  }

  /** In every sequence of calls the evictor's counters stay within their caps,
      so its equality tests decide what comparisons would. */
  lemma {:induction false} SequentialWithin(l: Limits, calls: seq<Call>)
    requires l.total.None?
    ensures AllWithin(l, EvictorRun(l, calls).counters) && "" !in EvictorRun(l, calls).counters.nodes
  {
    if calls != [] {
      var front, call := calls[..|calls| - 1], calls[|calls| - 1];
      SequentialWithin(l, front);
      StepStaysWithin(l, EvictorRun(l, front).counters, call.pod, call.evicted);
    }
  }

  ghost predicate Comparable(l: Limits, calls: seq<Call>)
  {
    l.perNode != Some(0) || forall i :: 0 <= i < |calls| ==> calls[i].pod.node != ""
  }

  /** For every sequence of calls, the evictor and the limiter give the same
      answers and end with the same counters, unless the node cap is zero and a
      pod has no node. */
  lemma {:induction false} SameAnswers(l: Limits, calls: seq<Call>)
    requires l.total.None? && Comparable(l, calls)
    ensures EvictorRun(l, calls) == LimiterRun(l, calls)
  {
    if calls != [] {
      var front := calls[..|calls| - 1];
      SameAnswers(l, front);
      SequentialWithin(l, front);
      TestsAgree(l, EvictorRun(l, front).counters, calls[|calls| - 1].pod);
    }
  }

  // ------------------------------------------------------------------ overlapping

  /** A call between its tests and its end; `cleared` once it has passed the
      namespace test too. */
  datatype InFlight = InFlight(pod: Pod, cleared: bool)

  datatype Overlap = Overlap(counters: Counters, inFlight: seq<InFlight>)

  datatype OverlapMove = Enter(pod: Pod) | Clear(i: nat) | Record(i: nat) | Leave(i: nat)

  /** The tests read the counters without the lock, one after the other, and the
      counters move only when an eviction has succeeded: between any two of these
      steps of one call, other calls may take theirs. A call leaves without effect
      when the namespace test refuses it or the eviction fails. */
  predicate OverlapStep(l: Limits, s: Overlap, t: Overlap, move: OverlapMove)
  {
    match move
    case Enter(pod) =>
      && !NodeLimitExceeded(l, s.counters, pod.node)
      && t == s.(inFlight := s.inFlight + [InFlight(pod, false)])
    case Clear(i) =>
      && i < |s.inFlight| && !NamespaceLimitExceeded(l, s.counters, s.inFlight[i].pod.namespace)
      && t == s.(inFlight := s.inFlight[i := s.inFlight[i].(cleared := true)])
    case Record(i) =>
      && i < |s.inFlight| && s.inFlight[i].cleared
      && t == Overlap(Recorded(s.counters, s.inFlight[i].pod), s.inFlight[..i] + s.inFlight[i + 1..])
    case Leave(i) =>
      i < |s.inFlight| && t == s.(inFlight := s.inFlight[..i] + s.inFlight[i + 1..])
  }

  ghost predicate OverlapNext(l: Limits, s: Overlap, t: Overlap)
  {
    exists move :: OverlapStep(l, s, t, move)
  }

  ghost predicate OverlapAt(l: Limits, run: seq<Overlap>, i: nat)
    requires i < |run| - 1
  {
    OverlapNext(l, run[i], run[i + 1])
  }

  /** Any interleaving with at most `k` calls in flight at any time. */
  ghost predicate OverlapRun(l: Limits, k: nat, run: seq<Overlap>)
  {
    && run != [] && run[0] == Overlap(ZERO, [])
    && (forall i :: 0 <= i < |run| ==> |run[i].inFlight| <= k)
    && (forall i :: 0 <= i < |run| - 1 ==> OverlapAt(l, run, i))
  }

  ghost predicate AlwaysWithin(l: Limits, k: nat)
  {
    forall run: seq<Overlap>, i :: OverlapRun(l, k, run) && 0 <= i < |run| ==> AllWithin(l, run[i].counters)
  }

  /** A zero cap refuses every pod. */
  predicate RefusesAll(l: Limits)
  {
    l.perNode == Some(0) || l.perNamespace == Some(0)
  }

  /** What holds with at most one call in flight: its tests are still true. */
  ghost predicate TestsHold(l: Limits, s: Overlap)
  {
    && |s.inFlight| <= 1 && AllWithin(l, s.counters)
    && forall c :: c in s.inFlight ==>
         && !NodeLimitExceeded(l, s.counters, c.pod.node)
         && (c.cleared ==> !NamespaceLimitExceeded(l, s.counters, c.pod.namespace))
  }

  lemma AloneStep(l: Limits, s: Overlap, t: Overlap, move: OverlapMove)
    requires l.total.None? && TestsHold(l, s) && OverlapStep(l, s, t, move) && |t.inFlight| <= 1
    ensures TestsHold(l, t)
  {
    if move.Record? {
      assert s.inFlight[move.i] in s.inFlight;
      StepStaysWithin(l, s.counters, s.inFlight[move.i].pod, true);
    } else if move.Clear? {
      assert s.inFlight[move.i] in s.inFlight;
    }
  }

  ghost predicate NothingRecorded(s: Overlap)
  {
    s.counters == ZERO && forall c :: c in s.inFlight ==> !c.cleared
  }

  /** Under a zero cap no call gets past the tests. */
  lemma RefusedStep(l: Limits, s: Overlap, t: Overlap, move: OverlapMove)
    requires RefusesAll(l) && NothingRecorded(s) && OverlapStep(l, s, t, move)
    requires l.perNode == Some(0) ==> s.inFlight == []
    ensures NothingRecorded(t) && (l.perNode == Some(0) ==> t.inFlight == [])
  {
  }

  lemma {:induction false} AloneStaysWithin(l: Limits, run: seq<Overlap>, i: nat)
    requires l.total.None? && OverlapRun(l, 1, run) && i < |run|
    ensures TestsHold(l, run[i])
  {
    if i > 0 {
      AloneStaysWithin(l, run, i - 1);
      assert OverlapAt(l, run, i - 1);
      var move :| OverlapStep(l, run[i - 1], run[i], move);
      AloneStep(l, run[i - 1], run[i], move);
    }
  }

  lemma {:induction false} RefusedStaysEmpty(l: Limits, k: nat, run: seq<Overlap>, i: nat)
    requires RefusesAll(l) && OverlapRun(l, k, run) && i < |run|
    ensures NothingRecorded(run[i]) && (l.perNode == Some(0) ==> run[i].inFlight == [])
  {
    if i > 0 {
      RefusedStaysEmpty(l, k, run, i - 1);
      assert OverlapAt(l, run, i - 1);
      var move :| OverlapStep(l, run[i - 1], run[i], move);
      RefusedStep(l, run[i - 1], run[i], move);
    }
  }

  // ------------------------------------------------------- stepping over the cap

  lemma OverlapExtends(l: Limits, k: nat, run: seq<Overlap>, t: Overlap, move: OverlapMove)
    requires OverlapRun(l, k, run) && OverlapStep(l, run[|run| - 1], t, move) && |t.inFlight| <= k
    ensures OverlapRun(l, k, run + [t])
  {
    var more := run + [t];
    forall i | 0 <= i < |more| - 1
      ensures OverlapAt(l, more, i)
    {
      if i < |run| - 1 {
        assert OverlapAt(l, run, i);
      }
    }
  }

  /** Some run ends in this state. */
  ghost predicate Reached(l: Limits, k: nat, s: Overlap)
  {
    exists run :: OverlapRun(l, k, run) && run[|run| - 1] == s
  }

  lemma ReachedNext(l: Limits, k: nat, s: Overlap, t: Overlap, move: OverlapMove)
    requires Reached(l, k, s) && OverlapStep(l, s, t, move) && |t.inFlight| <= k
    ensures Reached(l, k, t)
  {
    var run :| OverlapRun(l, k, run) && run[|run| - 1] == s;
    OverlapExtends(l, k, run, t, move);
    assert (run + [t])[|run|] == t;
  }

  /** A call that passes both tests, while others may be in flight. */
  lemma Admitted(l: Limits, k: nat, s: Overlap, pod: Pod)
    requires Reached(l, k, s) && Passes(l, s.counters, pod) && |s.inFlight| < k
    ensures Reached(l, k, s.(inFlight := s.inFlight + [InFlight(pod, true)]))
  {
    var n := |s.inFlight|;
    var entered := s.(inFlight := s.inFlight + [InFlight(pod, false)]);
    ReachedNext(l, k, s, entered, Enter(pod));
    var cleared := s.(inFlight := s.inFlight + [InFlight(pod, true)]);
    assert cleared.inFlight == entered.inFlight[n := InFlight(pod, true)];
    ReachedNext(l, k, entered, cleared, Clear(n));
  }

  /** Two calls that both pass before either is recorded. */
  lemma TwoRecorded(l: Limits, k: nat, c: Counters, pod1: Pod, pod2: Pod)
    requires k >= 2 && Reached(l, k, Overlap(c, [])) && Passes(l, c, pod1) && Passes(l, c, pod2)
    ensures Reached(l, k, Overlap(Recorded(Recorded(c, pod1), pod2), []))
  {
    var first, second := InFlight(pod1, true), InFlight(pod2, true);
    Admitted(l, k, Overlap(c, []), pod1);
    assert [] + [first] == [first];
    Admitted(l, k, Overlap(c, [first]), pod2);
    assert [first] + [second] == [first, second];
    var one := Overlap(Recorded(c, pod1), [second]);
    assert [first, second][..0] + [first, second][1..] == [second];
    ReachedNext(l, k, Overlap(c, [first, second]), one, Record(0));
    ReachedNext(l, k, one, Overlap(Recorded(one.counters, pod2), []), Record(0));
  }

  lemma OneRecorded(l: Limits, k: nat, c: Counters, pod: Pod)
    requires k >= 1 && Reached(l, k, Overlap(c, [])) && Passes(l, c, pod)
    ensures Reached(l, k, Overlap(Recorded(c, pod), []))
  {
    Admitted(l, k, Overlap(c, []), pod);
    assert [] + [InFlight(pod, true)] == [InFlight(pod, true)];
    ReachedNext(l, k, Overlap(c, [InFlight(pod, true)]), Overlap(Recorded(c, pod), []), Record(0));
  }

  /** The n-th pod that touches a scope and shares no other capped scope with the
      others: on a node, each in a namespace of its own; in a namespace, none on a
      node. */
  function Victim(scope: Scope, n: nat): Pod
  {
    match scope
    case OnNode(node) => Pod("", seq(n, _ => 'n'), node)
    case InNamespace(namespace) => Pod("", namespace, "")
    case Everywhere => Pod("", "", "")
  }

  /** `n` victims have been recorded and no other pod. */
  ghost predicate VictimsOnly(c: Counters, scope: Scope, n: nat)
  {
    && Counter(c, scope) == n
    && match scope
       case OnNode(_) => forall namespace :: namespace in c.namespaces ==> |namespace| < n
       case InNamespace(_) => c.nodes == map[]
       case Everywhere => true
  }

  /** A scope with a positive cap, in which no zero cap refuses the victims. */
  predicate Passable(l: Limits, scope: Scope)
  {
    && !RefusesAll(l) && Cap(l, scope).Some?
    && match scope
       case OnNode(node) => node != ""
       case InNamespace(_) => true
       case Everywhere => false
  }

  lemma VictimPasses(l: Limits, c: Counters, scope: Scope, n: nat, next: nat)
    requires Passable(l, scope) && VictimsOnly(c, scope, n) && n <= next
    ensures Passes(l, c, Victim(scope, next)) <==> n != Cap(l, scope).value
  {
    assert scope.OnNode? ==> |Victim(scope, next).namespace| == next;
  }

  lemma VictimRecorded(c: Counters, scope: Scope, n: nat)
    requires VictimsOnly(c, scope, n) && !scope.Everywhere? && (scope.OnNode? ==> scope.node != "")
    ensures VictimsOnly(Recorded(c, Victim(scope, n)), scope, n + 1)
  {
    RecordedCounter(c, Victim(scope, n), scope);
  }

  /** With two calls in flight every count is reached: the equality test is stepped
      over and stops nothing any more. */
  lemma {:induction false} EqualityRunsAway(l: Limits, k: nat, scope: Scope, n: nat) returns (c: Counters)
    requires Passable(l, scope) && k >= 2
    ensures Reached(l, k, Overlap(c, [])) && VictimsOnly(c, scope, n)
  {
    if n == 0 {
      c := ZERO;
      assert OverlapRun(l, k, [Overlap(ZERO, [])]);
      assert [Overlap(ZERO, [])][0] == Overlap(ZERO, []);
    } else if n == Cap(l, scope).value + 1 {
      var was := EqualityRunsAway(l, k, scope, n - 2);
      VictimPasses(l, was, scope, n - 2, n - 2);
      VictimPasses(l, was, scope, n - 2, n - 1);
      TwoRecorded(l, k, was, Victim(scope, n - 2), Victim(scope, n - 1));
      VictimRecorded(was, scope, n - 2);
      VictimRecorded(Recorded(was, Victim(scope, n - 2)), scope, n - 1);
      c := Recorded(Recorded(was, Victim(scope, n - 2)), Victim(scope, n - 1));
    } else {
      var was := EqualityRunsAway(l, k, scope, n - 1);
      VictimPasses(l, was, scope, n - 1, n - 1);
      OneRecorded(l, k, was, Victim(scope, n - 1));
      VictimRecorded(was, scope, n - 1);
      c := Recorded(was, Victim(scope, n - 1));
    }
  }

  lemma CapPassed(l: Limits, k: nat, scope: Scope)
    requires Passable(l, scope) && k >= 2
    ensures !AlwaysWithin(l, k)
  {
    var c := EqualityRunsAway(l, k, scope, Cap(l, scope).value + 1);
    var run :| OverlapRun(l, k, run) && run[|run| - 1] == Overlap(c, []);
    assert !WithinCap(l, c, scope);
  }

  /** All runs with at most `k` calls in flight keep every cap exactly when calls do
      not overlap, a zero cap refuses everything, or there is no cap. */
  lemma OverlapExactly(l: Limits, k: nat)
    requires l.total.None?
    ensures AlwaysWithin(l, k) <==> k <= 1 || RefusesAll(l) || (l.perNode.None? && l.perNamespace.None?)
  {
    if k <= 1 || RefusesAll(l) {
      forall run: seq<Overlap>, i | OverlapRun(l, k, run) && 0 <= i < |run|
        ensures AllWithin(l, run[i].counters)
      {
        if k <= 1 {
          assert OverlapRun(l, 1, run);
          AloneStaysWithin(l, run, i);
        } else {
          RefusedStaysEmpty(l, k, run, i);
        }
      }
    } else if l.perNode.Some? {
      CapPassed(l, k, OnNode("node"));
    } else if l.perNamespace.Some? {
      CapPassed(l, k, InNamespace(""));
    } else {
      assert forall c, scope :: WithinCap(l, c, scope);
    }
  }
}
