/** How a barrier run ends: each exit exactly, and the hard timeout in a bounded number
    of steps of the poll. */
module SyncBarrierTimeout {
  import opened ResourceVersion
  import opened ApiLog
  import opened SyncBarrier
  import opened SyncBarrierSafety
  import opened SyncBarrierProgress

  // ------------------------------------------------------------- the exits, exactly

  /** No pod that the informer has seen is on a node. */
  ghost predicate NothingScheduled(s: State)
    requires InBounds(s)
  {
    var store := Store(s.log[..s.informer]);
    forall n :: n in store ==> store[n].node == ""
  }

  /** What makes a step take an exit: an answered patch or a look that finds what the
      exit is for, or a poll that begins after the time is up. */
  ghost predicate EndsBy(cfg: Config, s: State, t: State, reason: Reason)
    requires InBounds(s)
  {
    match reason
    case BarrierMissing => cfg.barrier !in Store(s.log) && exists rv :: NextStep(cfg, s, t, Patch(rv))
    case BarrierGone => cfg.barrier !in Store(s.log[..s.informer]) && NextStep(cfg, s, t, Get)
    case NoScheduledPods => NothingScheduled(s) && exists pods :: NextStep(cfg, s, t, List(pods))
    case AnchorDeleted =>
      && s.anchor.Some? && s.anchor.value.name !in Store(s.log[..s.informer])
      && NextStep(cfg, s, t, ReadLister)
    case CacheSynced =>
      && s.anchor.Some? && s.anchor.value.uid in Cache(s.log[..s.cache])
      && Backlog(s.log, s.cache, s.anchor.value.rv) == 0
      && NextStep(cfg, s, t, ReadCache)
    case TimedOut => s.expired && NextStep(cfg, s, t, PollStart)
  }

  lemma ListingExit(cfg: Config, s: State, pods: seq<Pod>)
    requires Inv(cfg, s) && Lists(pods, Store(s.log[..s.informer]))
    ensures LatestScheduled(pods).None? <==> NothingScheduled(s)
  {
    PrefixValid(s.log, s.informer);
    ListingDecimal(s.log[..s.informer], pods);
    LatestIsNewest(pods);
    var store := Store(s.log[..s.informer]);
    if LatestScheduled(pods).None? {
      forall n | n in store
        ensures store[n].node == ""
      {
        assert store[n] in pods;
      }
    }
  }

  lemma StepTakesExit(cfg: Config, s: State, t: State, step: Step)
    requires Inv(cfg, s) && NextStep(cfg, s, t, step) && !s.pc.Stopped? && t.pc.Stopped?
    ensures EndsBy(cfg, s, t, t.pc.reason)
  {
    match step
    case List(pods) => ListingExit(cfg, s, pods);
    case ReadCache => CacheReadOutcome(cfg, s, t);
    case _ =>
  }

  lemma NothingScheduledStops(cfg: Config, s: State, t: State)
    requires Inv(cfg, s) && EndsBy(cfg, s, t, NoScheduledPods)
    ensures t.pc == Stopped(NoScheduledPods)
  {
    var pods :| NextStep(cfg, s, t, List(pods));
    ListingExit(cfg, s, pods);
  }

  lemma CacheSyncedStops(cfg: Config, s: State, t: State)
    requires Inv(cfg, s) && EndsBy(cfg, s, t, CacheSynced)
    ensures t.pc == Stopped(CacheSynced)
  {
    CacheReadOutcome(cfg, s, t);
  }

  lemma ExitStops(cfg: Config, s: State, t: State, reason: Reason)
    requires Inv(cfg, s) && EndsBy(cfg, s, t, reason)
    ensures t.pc == Stopped(reason)
  {
    if reason == NoScheduledPods {
      NothingScheduledStops(cfg, s, t);
    } else if reason == CacheSynced {
      CacheSyncedStops(cfg, s, t);
    }
  }

  ghost predicate ExitAt(cfg: Config, run: seq<State>, m: nat, reason: Reason)
    requires m < |run| - 1 && InBounds(run[m])
  {
    EndsBy(cfg, run[m], run[m + 1], reason)
  }

  lemma {:induction false} ExitFound(cfg: Config, run: seq<State>, k: nat) returns (m: nat)
    requires IsRun(cfg, run) && k < |run| && run[k].pc.Stopped?
    ensures m < k && ExitAt(cfg, run, m, run[k].pc.reason)
  {
    if run[k - 1].pc.Stopped? {
      WrittenOnce(cfg, run, k - 1, k);
      m := ExitFound(cfg, run, k - 1);
    } else {
      m := k - 1;
      RunKeepsInv(cfg, run, m);
      assert StepAt(cfg, run, m);
      var step :| NextStep(cfg, run[m], run[m + 1], step);
      StepTakesExit(cfg, run[m], run[m + 1], step);
    }
  }

  /** In every run, the barrier has ended for a reason exactly when some step of the
      poll has found what that exit is for. */
  lemma ExitsExactly(cfg: Config, run: seq<State>, k: nat, reason: Reason)
    requires IsRun(cfg, run) && k < |run|
    ensures run[k].pc == Stopped(reason) <==> exists m: nat :: m < k && ExitAt(cfg, run, m, reason)
  {
    if run[k].pc == Stopped(reason) {
      var m := ExitFound(cfg, run, k);
    }
    if m: nat :| m < k && ExitAt(cfg, run, m, reason) {
      RunKeepsInv(cfg, run, m);
      ExitStops(cfg, run[m], run[m + 1], reason);
      WrittenOnce(cfg, run, m + 1, k);
    }
  }

  // ------------------------------------------------------------------ the timeout

  predicate IsPollStep(step: Step)
  {
    !step.ApiWrite? && !step.InformerSees? && !step.CacheSees? && !step.Expire?
  }

  /** How many steps the poll can still take once the time is up. */
  function StepsLeft(pc: Pc): nat
  {
    match pc
    case Stopped(_) => 0
    case Idle => 1
    case ListerRead => 2
    case CacheRead => 3
    case Listing => 4
    case Getting => 5
    case Patching => 6
  }

  lemma ExpiredStep(cfg: Config, s: State, t: State, step: Step)
    requires Inv(cfg, s) && NextStep(cfg, s, t, step) && s.expired
    ensures t.expired
    ensures if IsPollStep(step) then StepsLeft(t.pc) < StepsLeft(s.pc) else t.pc == s.pc
  {
  }

  /** How often the poll moves between two positions of a run. */
  function PollMoves(run: seq<State>, j: nat, k: nat): nat
    requires j <= k < |run|
  {
    if j == k then 0 else PollMoves(run, j, k - 1) + if run[k - 1].pc != run[k].pc then 1 else 0
  }

  lemma {:induction false} ExpiredRunsOut(cfg: Config, run: seq<State>, j: nat, k: nat)
    requires IsRun(cfg, run) && j <= k < |run| && run[j].expired
    ensures run[k].expired && PollMoves(run, j, k) + StepsLeft(run[k].pc) <= StepsLeft(run[j].pc)
  {
    if j < k {
      ExpiredRunsOut(cfg, run, j, k - 1);
      RunKeepsInv(cfg, run, k - 1);
      assert StepAt(cfg, run, k - 1);
      var step :| NextStep(cfg, run[k - 1], run[k], step);
      ExpiredStep(cfg, run[k - 1], run[k], step);
    }
  }

  /** A barrier that has not ended is never stuck: its poll can take a step. */
  lemma PollCanMove(cfg: Config, s: State) returns (t: State, step: Step)
    requires Inv(cfg, s) && !s.pc.Stopped?
    ensures IsPollStep(step) && NextStep(cfg, s, t, step)
  {
    match s.pc
    case Idle =>
      step := PollStart;
      t := s.(pc := if s.expired then Stopped(TimedOut)
                    else if s.target == "" then Patching
                    else if s.anchor.None? then Getting
                    else CacheRead);
    case Patching => step, t := PatchLost("", false), s.(pc := Idle);
    case Getting => step, t := ReadError, s.(pc := Idle);
    case Listing => step, t := ReadError, s.(pc := Idle);
    case CacheRead =>
      step := ReadCache;
      var cache := Cache(s.log[..s.cache]);
      t := s.(pc := if s.anchor.value.uid !in cache then ListerRead
                    else if IsRVReached(cache[s.anchor.value.uid].rv, s.anchor.value.rv) then Stopped(CacheSynced)
                    else Idle);
    case ListerRead => step, t := ReadError, s.(pc := Idle);
  }

  /** Once the time is up the poll moves at most six more times, whatever happens
      around it: a poll that is under way comes to its end, and the next one does not
      begin but ends the barrier by timeout. So six moves later it has ended. */
  lemma TimeoutEnds(cfg: Config, run: seq<State>, j: nat, k: nat)
    requires IsRun(cfg, run) && j <= k < |run| && run[j].expired
    ensures PollMoves(run, j, k) <= 6
    ensures PollMoves(run, j, k) == 6 ==> run[k].pc.Stopped?
    ensures k < |run| - 1 && run[k].pc == Idle && run[k + 1].pc != Idle ==> run[k + 1].pc == Stopped(TimedOut)
  {
    ExpiredRunsOut(cfg, run, j, k);
    if k < |run| - 1 {
      ExpiredRunsOut(cfg, run, k, k + 1);
      if run[k].pc == Idle && run[k + 1].pc != Idle {
        IdleEndsByTimeout(cfg, run, k);
      }
    }
  }

  lemma IdleEndsByTimeout(cfg: Config, run: seq<State>, k: nat)
    requires IsRun(cfg, run) && k < |run| - 1 && run[k].expired && run[k].pc == Idle && run[k + 1].pc != Idle
    ensures run[k + 1].pc == Stopped(TimedOut)
  {
    assert StepAt(cfg, run, k);
  }

  /** And only then: a barrier that has timed out was out of time. */
  lemma TimedOutWasExpired(cfg: Config, run: seq<State>, k: nat)
    requires IsRun(cfg, run) && k < |run| && run[k].pc == Stopped(TimedOut)
    ensures run[k].expired
  {
    var m := ExitFound(cfg, run, k);
    ExpiredRunsOut(cfg, run, m, k);
  }

  lemma StepInBounds(cfg: Config, s: State, t: State, step: Step)
    requires Inv(cfg, s) && NextStep(cfg, s, t, step)
    ensures InBounds(t)
  {
    StepKeepsInv(cfg, s, t, step);
  }

  /** However a run has gone, it can still be brought to an end: let the time run out and
      the poll take its steps. */
  lemma EveryRunCanEnd(cfg: Config, run: seq<State>) returns (more: seq<State>)
    requires IsRun(cfg, run)
    ensures IsRun(cfg, more) && run <= more && more[|more| - 1].pc.Stopped?
    ensures run[|run| - 1].pc == Idle ==> more[|more| - 1].pc == Stopped(TimedOut)
  {
    var last := run[|run| - 1];
    if last.pc.Stopped? {
      more := run;
    } else {
      var late := last.(expired := true);
      assert NextStep(cfg, last, late, Expire);
      RunExtends(cfg, run, late);
      more := PollsOut(cfg, run + [late]);
    }
  }

  lemma {:induction false} PollsOut(cfg: Config, run: seq<State>) returns (more: seq<State>)
    requires IsRun(cfg, run) && run[|run| - 1].expired
    ensures IsRun(cfg, more) && run <= more && more[|more| - 1].pc.Stopped?
    ensures run[|run| - 1].pc == Idle ==> more[|more| - 1].pc == Stopped(TimedOut)
    ensures run[|run| - 1].pc.Stopped? ==> more == run
    decreases StepsLeft(run[|run| - 1].pc)
  {
    var last := run[|run| - 1];
    if last.pc.Stopped? {
      more := run;
    } else {
      RunKeepsInv(cfg, run, |run| - 1);
      var t, step := PollCanMove(cfg, last);
      ExpiredStep(cfg, last, t, step);
      StepInBounds(cfg, last, t, step);
      RunExtends(cfg, run, t);
      more := run + [t];
      if last.pc == Idle {
        IdleEndsByTimeout(cfg, more, |run| - 1);
      }
      more := PollsOut(cfg, more);
    }
  }

  // -------------------------------------------------------------- calls that fail

  /** A call that fails ends the poll and leaves everything else as it was, but that a
      patch may have been applied all the same. */
  lemma FailedCallsRetry(cfg: Config, s: State, rv: string)
    requires InBounds(s)
    ensures s.pc in {Patching, Getting, Listing, ListerRead} ==> Next(cfg, s, s.(pc := Idle))
    ensures s.pc == Patching && PatchApplies(cfg, s.log, rv) ==>
              Next(cfg, s, s.(log := AfterPatch(cfg, s.log, rv), pc := Idle))
  {
    if s.pc == Patching {
      assert NextStep(cfg, s, s.(pc := Idle), PatchLost(rv, false));
      if PatchApplies(cfg, s.log, rv) {
        assert NextStep(cfg, s, s.(log := AfterPatch(cfg, s.log, rv), pc := Idle), PatchLost(rv, true));
      }
    } else if s.pc in {Getting, Listing, ListerRead} {
      assert NextStep(cfg, s, s.(pc := Idle), ReadError);
    }
  }

  /** A patch that was applied without an answer and is repeated writes nothing and
      finds the version it has written itself. */
  lemma RepeatedPatchFindsItself(cfg: Config, log: seq<Event>, rv: string, again: string)
    requires Valid(log) && PatchApplies(cfg, log, rv) && Store(log)[cfg.barrier].mark != cfg.stamp
    ensures var once := AfterPatch(cfg, log, rv);
            && Valid(once) && PatchApplies(cfg, once, again) && AfterPatch(cfg, once, again) == once
            && Store(once)[cfg.barrier].rv == rv
  {
    var e := Put(Store(log)[cfg.barrier].(mark := cfg.stamp, rv := rv), Other);
    ViewsAgree(log);
    assert (log + [e])[..|log|] == log;
  }
}
