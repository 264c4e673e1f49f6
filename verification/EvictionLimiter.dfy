/** The limiter: the check and the commit take the lock separately, so between
    them other evictions may be admitted. */
module EvictionLimiter {
  import opened Evictions
  import opened Options

  class EvictionLimiter {
    const limits: Limits
    var totalCount: nat
    var nodePodCount: map<string, nat>
    var namespacePodCount: map<string, nat>

    ghost function State(): Counters
      reads this
    {
      Counters(totalCount, nodePodCount, namespacePodCount)
    }

    constructor (limits: Limits)
      ensures this.limits == limits && State() == ZERO
    {
      this.limits := limits;
      totalCount := 0;
      nodePodCount := map[];
      namespacePodCount := map[];
    }

    method Reset()
      modifies this
      ensures State() == ZERO
    {
      totalCount := 0;
      nodePodCount := map[];
      namespacePodCount := map[];
    }

    /** True exactly when one more eviction of the pod fits all its caps. */
    method AllowEvict(pod: Pod) returns (allowed: bool)
      ensures allowed <==> forall scope :: Touches(pod, scope) ==> WithinCap(limits, Recorded(State(), pod), scope)
    {
      AllowsMeansFits(limits, State(), pod);
      if pod.node != "" {
        if limits.perNode.Some? && Count(nodePodCount, pod.node) + 1 > limits.perNode.value {
          return false;
        }
      }
      if limits.perNamespace.Some? && Count(namespacePodCount, pod.namespace) + 1 > limits.perNamespace.value {
        return false;
      }
      if limits.total.Some? && totalCount + 1 > limits.total.value {
        return false;
      }
      return true;
    }

    /** Counts the pod in every scope it touches and in no other. */
    method Done(pod: Pod)
      modifies this
      ensures forall scope ::
                Counter(State(), scope) == old(Counter(State(), scope)) + if Touches(pod, scope) then 1 else 0
      ensures State() == Recorded(old(State()), pod)
    {
      if pod.node != "" {
        nodePodCount := nodePodCount[pod.node := Count(nodePodCount, pod.node) + 1];
      }
      namespacePodCount := namespacePodCount[pod.namespace := Count(namespacePodCount, pod.namespace) + 1];
      totalCount := totalCount + 1;
    }

    /** As long as the node's counter is within its cap, the equality test tells
        whether the node has no eviction left. */
    method NodeLimitExceeded(node: string) returns (exceeded: bool)
      ensures exceeded <==> limits.perNode.Some? && Count(State().nodes, node) == limits.perNode.value
      ensures node != "" && WithinCap(limits, State(), OnNode(node)) ==>
                (exceeded <==> forall pod: Pod :: pod.node == node ==>
                                 !WithinCap(limits, Recorded(State(), pod), OnNode(node)))
    {
      exceeded := limits.perNode.Some? && Count(nodePodCount, node) == limits.perNode.value;
      assert node != "" ==> Touches(Pod("", "", node), OnNode(node));
      assert Pod("", "", node).node == node;
    }

    method NamespaceLimitExceeded(namespace: string) returns (exceeded: bool)
      ensures exceeded <==>
                limits.perNamespace.Some? && Count(State().namespaces, namespace) == limits.perNamespace.value
      ensures WithinCap(limits, State(), InNamespace(namespace)) ==>
                (exceeded <==> forall pod: Pod :: pod.namespace == namespace ==>
                                 !WithinCap(limits, Recorded(State(), pod), InNamespace(namespace)))
    {
      exceeded := limits.perNamespace.Some? && Count(namespacePodCount, namespace) == limits.perNamespace.value;
      assert Pod("", namespace, "").namespace == namespace;
    }
  }

  // ------------------------------------------------------------ concurrent runs

  /** `inFlight` are the admitted pods whose eviction has neither succeeded nor
      failed yet; `done` are the evictions recorded since the last reset. */
  datatype State = State(counters: Counters, inFlight: seq<Pod>, done: seq<Pod>)

  datatype Step = Check(pod: Pod) | Commit(i: nat) | Abandon(i: nat) | ResetAll

  function Without(pods: seq<Pod>, i: nat): seq<Pod>
    requires i < |pods|
  {
    pods[..i] + pods[i + 1..]
  }

  /** A check admits or refuses; an admitted pod is later recorded or, if its
      eviction fails, dropped; a reset leaves the pods in flight alone. */
  predicate NextStep(l: Limits, s: State, t: State, step: Step)
  {
    match step
    case Check(pod) => t == if Allows(l, s.counters, pod) then s.(inFlight := s.inFlight + [pod]) else s
    case Commit(i) =>
      && i < |s.inFlight|
      && t == State(Recorded(s.counters, s.inFlight[i]), Without(s.inFlight, i), s.done + [s.inFlight[i]])
    case Abandon(i) =>
      i < |s.inFlight| && t == s.(inFlight := Without(s.inFlight, i))
    case ResetAll => t == State(ZERO, s.inFlight, [])
  }

  const START := State(ZERO, [], [])

  /** Any interleaving with at most `k` pods in flight at any time. */
  ghost predicate IsRun(l: Limits, k: nat, run: seq<State>)
  {
    && run != [] && run[0] == START
    && (forall i :: 0 <= i < |run| ==> |run[i].inFlight| <= k)
    && (forall i :: 0 <= i < |run| - 1 ==> StepAt(l, run, i))
  }

  ghost predicate StepAt(l: Limits, run: seq<State>, i: nat)
    requires i < |run| - 1
  {
    Next(l, run[i], run[i + 1])
  }

  ghost predicate Next(l: Limits, s: State, t: State)
  {
    exists step :: NextStep(l, s, t, step)
  }

  /** The counters are exactly the tallies of what was recorded. */
  ghost predicate CountersTally(s: State)
  {
    forall scope :: Counter(s.counters, scope) == Tally(s.done, scope)
  }

  /** What is recorded and what is in flight together pass a cap by fewer than
      `k`; under a zero cap there is neither. */
  ghost predicate CapsHold(l: Limits, k: nat, s: State)
  {
    forall scope :: ScopeHolds(l, k, s, scope)
  }

  ghost predicate ScopeHolds(l: Limits, k: nat, s: State, scope: Scope)
  {
    Cap(l, scope).Some? ==>
      && Counter(s.counters, scope) + Tally(s.inFlight, scope) <= Cap(l, scope).value + k - 1
      && (Cap(l, scope).value == 0 ==> Counter(s.counters, scope) == 0 && Tally(s.inFlight, scope) == 0)
  }

  lemma StepKeepsTally(l: Limits, s: State, t: State, step: Step)
    requires CountersTally(s) && NextStep(l, s, t, step)
    ensures CountersTally(t)
  {
    forall scope
      ensures Counter(t.counters, scope) == Tally(t.done, scope)
    {
      if step.Commit? {
        RecordedCounter(s.counters, s.inFlight[step.i], scope);
        TallyAppend(s.done, s.inFlight[step.i], scope);
      }
    }
  }

  lemma AdmittedFits(l: Limits, c: Counters, pod: Pod, scope: Scope)
    ensures Allows(l, c, pod) && Touches(pod, scope) && Cap(l, scope).Some? ==>
              Counter(c, scope) + 1 <= Cap(l, scope).value
  {
    if Allows(l, c, pod) && Touches(pod, scope) {
      AllowsMeansFits(l, c, pod);
      RecordedCounter(c, pod, scope);
      assert WithinCap(l, Recorded(c, pod), scope);
    }
  }

  lemma StepKeepsScope(l: Limits, k: nat, s: State, t: State, step: Step, scope: Scope)
    requires k >= 1 && |s.inFlight| <= k && |t.inFlight| <= k && NextStep(l, s, t, step)
    requires ScopeHolds(l, k, s, scope)
    ensures ScopeHolds(l, k, t, scope)
  {
    match step
    case Check(pod) =>
      TallyAppend(s.inFlight, pod, scope);
      AdmittedFits(l, s.counters, pod, scope);
    case Commit(i) =>
      RecordedCounter(s.counters, s.inFlight[i], scope);
      TallyRemove(s.inFlight, i, scope);
    case Abandon(i) => TallyRemove(s.inFlight, i, scope);
    case ResetAll =>
  }

  lemma {:induction false} RunKeeps(l: Limits, k: nat, run: seq<State>, i: nat)
    requires k >= 1 && IsRun(l, k, run) && i < |run|
    ensures CountersTally(run[i]) && CapsHold(l, k, run[i])
  {
    if i > 0 {
      RunKeeps(l, k, run, i - 1);
      assert StepAt(l, run, i - 1);
      var step :| NextStep(l, run[i - 1], run[i], step);
      StepKeepsTally(l, run[i - 1], run[i], step);
      forall scope
        ensures ScopeHolds(l, k, run[i], scope)
      {
        assert ScopeHolds(l, k, run[i - 1], scope);
        StepKeepsScope(l, k, run[i - 1], run[i], step, scope);
      }
    }
  }

  /** In every interleaving with at most `k` pods in flight, no counter passes
      its cap by more than `k - 1`; so sequential use is exact. Under a zero cap
      nothing is counted. */
  lemma CapsNearlyExact(l: Limits, k: nat, run: seq<State>, i: nat, scope: Scope)
    requires k >= 1 && IsRun(l, k, run) && i < |run| && Cap(l, scope).Some?
    ensures Counter(run[i].counters, scope) <= Cap(l, scope).value + k - 1
    ensures k == 1 ==> WithinCap(l, run[i].counters, scope)
    ensures Cap(l, scope).value == 0 ==> Counter(run[i].counters, scope) == 0
  {
    RunKeeps(l, k, run, i);
    assert ScopeHolds(l, k, run[i], scope);
  }

  /** The total is the sum of the namespace counters and at least the sum of the
      node counters. */
  ghost predicate SumsAgree(c: Counters)
  {
    c.total == Sum(c.namespaces) && c.total >= Sum(c.nodes)
  }

  lemma RecordedKeepsSums(c: Counters, pod: Pod)
    requires SumsAgree(c)
    ensures SumsAgree(Recorded(c, pod))
  {
    SumBump(c.namespaces, pod.namespace);
    SumBump(c.nodes, pod.node);
  }

  lemma {:induction false} SumsConserved(l: Limits, k: nat, run: seq<State>, i: nat)
    requires IsRun(l, k, run) && i < |run|
    ensures SumsAgree(run[i].counters)
  {
    if i > 0 {
      SumsConserved(l, k, run, i - 1);
      assert StepAt(l, run, i - 1);
      var step :| NextStep(l, run[i - 1], run[i], step);
      if step.Commit? {
        RecordedKeepsSums(run[i - 1].counters, run[i - 1].inFlight[step.i]);
      }
    }
  }

  // ---------------------------------------------------------- the bound is tight

  lemma RunExtends(l: Limits, k: nat, run: seq<State>, t: State, step: Step)
    requires IsRun(l, k, run) && NextStep(l, run[|run| - 1], t, step) && |t.inFlight| <= k
    ensures IsRun(l, k, run + [t])
  {
    var more := run + [t];
    forall i | 0 <= i < |more| - 1
      ensures StepAt(l, more, i)
    {
      if i < |run| - 1 {
        assert StepAt(l, run, i);
        var s :| NextStep(l, run[i], run[i + 1], s);
        assert NextStep(l, more[i], more[i + 1], s);
      } else {
        assert NextStep(l, more[i], more[i + 1], step);
      }
    }
  }

  /** A cap on one scope's counters and no other. */
  function OnlyCap(scope: Scope, cap: nat): Limits
  {
    match scope
    case OnNode(_) => Limits(Some(cap), None, None)
    case InNamespace(_) => Limits(None, Some(cap), None)
    case Everywhere => Limits(None, None, Some(cap))
  }

  /** Admits one more pod while the counter is below its cap. */
  lemma AdmitMore(scope: Scope, cap: nat, k: nat, pod: Pod, run: seq<State>) returns (more: seq<State>)
    requires IsRun(OnlyCap(scope, cap), k, run) && Touches(pod, scope)
    requires Counter(run[|run| - 1].counters, scope) < cap && |run[|run| - 1].inFlight| < k
    ensures IsRun(OnlyCap(scope, cap), k, more)
    ensures more[|more| - 1] == run[|run| - 1].(inFlight := run[|run| - 1].inFlight + [pod])
  {
    var s := run[|run| - 1];
    var t := s.(inFlight := s.inFlight + [pod]);
    RunExtends(OnlyCap(scope, cap), k, run, t, Check(pod));
    more := run + [t];
  }

  ghost predicate AllAre(pods: seq<Pod>, pod: Pod)
  {
    forall p :: p in pods ==> p == pod
  }

  lemma CommitOne(scope: Scope, cap: nat, k: nat, pod: Pod, run: seq<State>) returns (more: seq<State>)
    requires IsRun(OnlyCap(scope, cap), k, run) && Touches(pod, scope)
    requires run[|run| - 1].inFlight != [] && AllAre(run[|run| - 1].inFlight, pod)
    ensures IsRun(OnlyCap(scope, cap), k, more)
    ensures Counter(more[|more| - 1].counters, scope) == Counter(run[|run| - 1].counters, scope) + 1
    ensures |more[|more| - 1].inFlight| == |run[|run| - 1].inFlight| - 1 && AllAre(more[|more| - 1].inFlight, pod)
  {
    var s := run[|run| - 1];
    assert s.inFlight[0] in s.inFlight;
    var t := State(Recorded(s.counters, pod), Without(s.inFlight, 0), s.done + [pod]);
    assert forall p :: p in t.inFlight ==> p in s.inFlight;
    assert |run[|run| - 1].inFlight| <= k;
    RunExtends(OnlyCap(scope, cap), k, run, t, Commit(0));
    RecordedCounter(s.counters, pod, scope);
    more := run + [t];
  }

  /** For every scope, every positive cap on it and every `k`, some run does pass the
      cap by `k - 1`. */
  lemma BoundIsTight(scope: Scope, cap: nat, k: nat, pod: Pod) returns (run: seq<State>)
    requires cap >= 1 && k >= 1 && Touches(pod, scope)
    ensures IsRun(OnlyCap(scope, cap), k, run)
    ensures Counter(run[|run| - 1].counters, scope) == cap + k - 1
  {
    run := OneByOne(scope, cap, k, pod, cap - 1);
    while |run[|run| - 1].inFlight| < k
      invariant IsRun(OnlyCap(scope, cap), k, run) && AllAre(run[|run| - 1].inFlight, pod)
      invariant Counter(run[|run| - 1].counters, scope) == cap - 1 && |run[|run| - 1].inFlight| <= k
      decreases k - |run[|run| - 1].inFlight|
    {
      run := AdmitMore(scope, cap, k, pod, run);
    }
    while run[|run| - 1].inFlight != []
      invariant IsRun(OnlyCap(scope, cap), k, run) && AllAre(run[|run| - 1].inFlight, pod)
      invariant Counter(run[|run| - 1].counters, scope) + |run[|run| - 1].inFlight| == cap + k - 1
      decreases |run[|run| - 1].inFlight|
    {
      run := CommitOne(scope, cap, k, pod, run);
    }
  }

  /** Checks and commits in turn, up to a count below the cap. */
  lemma {:induction false} OneByOne(scope: Scope, cap: nat, k: nat, pod: Pod, n: nat) returns (run: seq<State>)
    requires n < cap && k >= 1 && Touches(pod, scope)
    ensures IsRun(OnlyCap(scope, cap), k, run)
    ensures Counter(run[|run| - 1].counters, scope) == n && run[|run| - 1].inFlight == []
  {
    if n == 0 {
      run := [START];
    } else {
      run := OneByOne(scope, cap, k, pod, n - 1);
      run := AdmitMore(scope, cap, k, pod, run);
      run := CommitOne(scope, cap, k, pod, run);
    }
  }

  /** A reset does not reach pods in flight: one that was admitted before it is recorded
      after it. */
  lemma AdmittedBeforeReset(l: Limits, pod: Pod) returns (run: seq<State>)
    requires Allows(l, ZERO, pod)
    ensures IsRun(l, 1, run) && |run| == 4
    ensures NextStep(l, run[1], run[2], ResetAll) && run[2].counters == ZERO
    ensures run[3].counters == Recorded(ZERO, pod)
  {
    var admitted := State(ZERO, [pod], []);
    var recorded := State(Recorded(ZERO, pod), [], [pod]);
    assert [] + [pod] == [pod] && Without([pod], 0) == [];
    run := [START];
    RunExtends(l, 1, run, admitted, Check(pod));
    run := run + [admitted];
    RunExtends(l, 1, run, admitted, ResetAll);
    run := run + [admitted];
    RunExtends(l, 1, run, recorded, Commit(0));
    run := run + [recorded];
  }
}
