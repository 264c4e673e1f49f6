/** What never changes during a barrier run, and how it comes to an end: the
    cache's distance to the anchor only shrinks. */
module SyncBarrierProgress {
  import opened ResourceVersion
  import opened ApiLog
  import opened SyncBarrier
  import opened SyncBarrierSafety

  lemma RunExtends(cfg: Config, run: seq<State>, t: State)
    requires IsRun(cfg, run) && Next(cfg, run[|run| - 1], t) && InBounds(t)
    ensures IsRun(cfg, run + [t])
  {
    var more := run + [t];
    forall k | 0 <= k < |more| - 1
      ensures StepAt(cfg, more, k)
    {
      if k < |run| - 1 {
        assert StepAt(cfg, run, k);
      }
    }
  }

  lemma StepWritesOnce(cfg: Config, s: State, t: State, step: Step)
    requires Inv(cfg, s) && NextStep(cfg, s, t, step)
    ensures s.target != "" ==> t.target == s.target
    ensures s.anchor.Some? ==> t.anchor == s.anchor && t.snapshot == s.snapshot
    ensures s.pc.Stopped? ==> t.pc == s.pc
  {
  }

  lemma RunStepWritesOnce(cfg: Config, run: seq<State>, k: nat)
    requires IsRun(cfg, run) && k < |run| - 1
    ensures run[k].target != "" ==> run[k + 1].target == run[k].target
    ensures run[k].anchor.Some? ==> run[k + 1].anchor == run[k].anchor && run[k + 1].snapshot == run[k].snapshot
    ensures run[k].pc.Stopped? ==> run[k + 1].pc == run[k].pc
  {
    RunKeepsInv(cfg, run, k);
    assert StepAt(cfg, run, k);
    var step :| NextStep(cfg, run[k], run[k + 1], step);
    StepWritesOnce(cfg, run[k], run[k + 1], step);
  }

  /** The watermark and the anchor are never rewritten. */
  lemma {:induction false} WrittenOnce(cfg: Config, run: seq<State>, j: nat, k: nat)
    requires IsRun(cfg, run) && j <= k < |run|
    ensures run[j].target != "" ==> run[k].target == run[j].target
    ensures run[j].anchor.Some? ==> run[k].anchor == run[j].anchor && run[k].snapshot == run[j].snapshot
    ensures run[j].pc.Stopped? ==> run[k].pc == run[j].pc
  {
    if j < k {
      WrittenOnce(cfg, run, j, k - 1);
      RunStepWritesOnce(cfg, run, k - 1);
    }
  }

  /** How many events, none newer than `rv`, a reader at position `n` still has
      before it. */
  function Backlog(log: seq<Event>, n: nat, rv: string): nat
    requires n <= |log|
    decreases |log| - n
  {
    if n < |log| && IsRVReached(rv, Version(log[n])) then 1 + Backlog(log, n + 1, rv) else 0
  }

  lemma {:induction false} BacklogIgnoresChurn(log: seq<Event>, n: nat, rv: string, e: Event)
    requires Valid(log) && Admissible(log, e) && n <= |log| && Seen(log, |log|, rv)
    ensures Backlog(log + [e], n, rv) == Backlog(log, n, rv)
    decreases |log| - n
  {
    if n < |log| {
      BacklogIgnoresChurn(log, n + 1, rv, e);
    } else {
      assert (log + [e])[..|log|] == log;
      if IsRVReached(rv, Version(e)) {
        SeenMonotone(log, |log|, rv, [e], |log|);
        OlderWasSeen(log + [e], |log|, rv, |log|);
      }
    }
  }

  /** No backlog means caught up, and the other way round. */
  lemma BacklogZero(log: seq<Event>, n: nat, rv: string)
    requires Valid(log) && n <= |log| && Seen(log, |log|, rv)
    ensures Backlog(log, n, rv) == 0 <==> Seen(log, n, rv)
  {
    var w :| 0 <= w < |log| && Version(log[w]) == rv;
    VersionDecimal(log, w);
    if Seen(log, n, rv) {
      if n < |log| && IsRVReached(rv, Version(log[n])) {
        OlderWasSeen(log, n, rv, n);
      }
    } else {
      assert n <= w;
      if n < w {
        VersionsIncrease(log, n, w);
      }
      VersionDecimal(log, n);
      ReachedIsNumeric(rv, Version(log[n]));
    }
  }

  /** The cache's backlog to the anchor is a measure that no step increases, no
      matter what happens to pods, and that each cache step decreases. */
  lemma BacklogShrinks(cfg: Config, s: State, t: State, step: Step)
    requires Inv(cfg, s) && s.anchor.Some? && NextStep(cfg, s, t, step)
    ensures t.anchor == s.anchor && InBounds(t)
    ensures Backlog(t.log, t.cache, s.anchor.value.rv) <= Backlog(s.log, s.cache, s.anchor.value.rv)
    ensures step.CacheSees? && Backlog(s.log, s.cache, s.anchor.value.rv) > 0
            ==> Backlog(t.log, t.cache, s.anchor.value.rv) == Backlog(s.log, s.cache, s.anchor.value.rv) - 1
  {
    StepWritesOnce(cfg, s, t, step);
    if step.ApiWrite? || step.CacheSees? {
      MovesShrink(cfg, s, t, step);
    } else {
      OtherStepsStay(cfg, s, t, step);
    }
  }

  lemma MovesShrink(cfg: Config, s: State, t: State, step: Step)
    requires Inv(cfg, s) && s.anchor.Some? && NextStep(cfg, s, t, step) && (step.ApiWrite? || step.CacheSees?)
    ensures InBounds(t)
    ensures var was := Backlog(s.log, s.cache, s.anchor.value.rv);
            Backlog(t.log, t.cache, s.anchor.value.rv) == if step.CacheSees? && was > 0 then was - 1 else was
  {
    AnchorSeen(cfg, s);
    if step.ApiWrite? {
      BacklogIgnoresChurn(s.log, s.cache, s.anchor.value.rv, step.event);
    } else {
      CacheStepShrinks(s.log, s.cache, s.anchor.value.rv);
    }
  }

  /** With an anchor the patch is over, so only the API server and the cache move
      what the backlog depends on. */
  lemma OtherStepsStay(cfg: Config, s: State, t: State, step: Step)
    requires Inv(cfg, s) && s.anchor.Some? && NextStep(cfg, s, t, step) && !step.ApiWrite? && !step.CacheSees?
    ensures t.log == s.log && t.cache == s.cache && InBounds(t)
  {
  }

  lemma CacheStepShrinks(log: seq<Event>, n: nat, rv: string)
    requires Valid(log) && n < |log| && Seen(log, |log|, rv)
    ensures Backlog(log, n + 1, rv) == if Backlog(log, n, rv) > 0 then Backlog(log, n, rv) - 1 else 0
  {
    if Backlog(log, n, rv) == 0 {
      BacklogZero(log, n, rv);
      SeenMonotone(log, n, rv, [], n + 1);
      assert log + [] == log;
      BacklogZero(log, n + 1, rv);
    }
  }

  /** What one look at the cache does, exactly: it ends the barrier when the
      backlog is gone and the anchor is still cached, it turns to the lister
      when the anchor is not cached, and it waits otherwise. */
  lemma CacheReadOutcome(cfg: Config, s: State, t: State)
    requires Inv(cfg, s) && s.pc == CacheRead && NextStep(cfg, s, t, ReadCache)
    ensures t.pc == Stopped(CacheSynced) <==>
            s.anchor.value.uid in Cache(s.log[..s.cache]) && Backlog(s.log, s.cache, s.anchor.value.rv) == 0
    ensures t.pc == ListerRead <==> s.anchor.value.uid !in Cache(s.log[..s.cache])
  {
    AnchorSeen(cfg, s);
    BacklogZero(s.log, s.cache, s.anchor.value.rv);
    var uid := s.anchor.value.uid;
    if uid in Cache(s.log[..s.cache]) {
      if t.pc == Stopped(CacheSynced) {
        CacheReadKeepsInv(cfg, s);
      } else if Seen(s.log, s.cache, s.anchor.value.rv) {
        CachedAnchorIsNew(cfg, s);
      }
    }
  }

  /** A caught-up cache holds the anchor in the snapshot's version or later. */
  lemma CachedAnchorIsNew(cfg: Config, s: State)
    requires Inv(cfg, s) && s.anchor.Some? && Seen(s.log, s.cache, s.anchor.value.rv)
    requires s.anchor.value.uid in Cache(s.log[..s.cache])
    ensures IsRVReached(Cache(s.log[..s.cache])[s.anchor.value.uid].rv, s.anchor.value.rv)
  {
    AnchorWritten(cfg, s);
    PrefixValid(s.log, s.cache);
    ViewsAgree(s.log[..s.cache]);
    LaterReadIsNewer(s.log, s.snapshot, s.cache, s.anchor.value.uid);
  }

  /** Two readers of the log: one that has passed the version in which the other
      holds a pod holds it in that version or a later one. */
  lemma LaterReadIsNewer(log: seq<Event>, m: nat, n: nat, uid: string)
    requires Valid(log) && m <= |log| && n <= |log|
    requires uid in Live(log[..m]) && uid in Live(log[..n]) && Seen(log, n, Live(log[..m])[uid].rv)
    ensures IsRVReached(Live(log[..n])[uid].rv, Live(log[..m])[uid].rv)
  {
    PrefixValid(log, m);
    PrefixValid(log, n);
    var a := LastWrite(log[..m], uid);
    assert log[..m][a] == log[a];
    VersionDecimal(log, a);
    ReachedIsNumeric(Version(log[a]), Version(log[a]));
    OlderWasSeen(log, n, Version(log[a]), a);
    assert log[..n][a] == log[a];
    NewestWrite(log[..n], a);
  }

  /** A live pod is at least as new as every write of its UID. */
  lemma NewestWrite(log: seq<Event>, a: nat)
    requires Valid(log) && a < |log| && log[a].Put? && log[a].pod.uid in Live(log)
    ensures IsRVReached(Live(log)[log[a].pod.uid].rv, log[a].pod.rv)
  {
    var c := LastWrite(log, log[a].pod.uid);
    if a < c {
      VersionsIncrease(log, a, c);
      ReachedIsNumeric(Version(log[c]), Version(log[a]));
    } else if c < a {
      LiveAfterPut(log, a);
    }
  }

  /** Over a run: every cache step since the anchor was chosen takes one off the
      backlog, whatever else happens in between. */
  lemma {:induction false} BacklogRunsDown(cfg: Config, run: seq<State>, j: nat, k: nat)
    requires IsRun(cfg, run) && j <= k < |run| && run[j].anchor.Some?
    ensures run[k].anchor == run[j].anchor && run[j].cache <= run[k].cache
    ensures var rv := run[j].anchor.value.rv;
            var left := Backlog(run[j].log, run[j].cache, rv) - (run[k].cache - run[j].cache);
            Backlog(run[k].log, run[k].cache, rv) <= if left > 0 then left else 0
  {
    if j < k {
      BacklogRunsDown(cfg, run, j, k - 1);
      BacklogStep(cfg, run, k - 1);
    }
  }

  lemma BacklogStep(cfg: Config, run: seq<State>, k: nat)
    requires IsRun(cfg, run) && k < |run| - 1 && run[k].anchor.Some?
    ensures run[k + 1].anchor == run[k].anchor && run[k].cache <= run[k + 1].cache <= run[k].cache + 1
    ensures var rv := run[k].anchor.value.rv;
            var was, now := Backlog(run[k].log, run[k].cache, rv), Backlog(run[k + 1].log, run[k + 1].cache, rv);
            now <= was && (run[k + 1].cache > run[k].cache && was > 0 ==> now < was)
  {
    RunKeepsInv(cfg, run, k);
    assert StepAt(cfg, run, k);
    var step :| NextStep(cfg, run[k], run[k + 1], step);
    BacklogShrinks(cfg, run[k], run[k + 1], step);
    assert !step.CacheSees? ==> run[k + 1].cache == run[k].cache;
  }

  /** Once the cache has taken as many steps as the backlog was, each look at it
      ends the barrier or, if the anchor is gone from it, turns to the lister. */
  lemma CaughtUpDecides(cfg: Config, run: seq<State>, j: nat, k: nat)
    requires IsRun(cfg, run) && j <= k < |run| - 1 && run[j].anchor.Some?
    requires run[k].cache - run[j].cache >= Backlog(run[j].log, run[j].cache, run[j].anchor.value.rv)
    requires NextStep(cfg, run[k], run[k + 1], ReadCache)
    ensures run[k + 1].pc == Stopped(CacheSynced) || run[k + 1].pc == ListerRead
  {
    BacklogRunsDown(cfg, run, j, k);
    RunKeepsInv(cfg, run, k);
    CacheReadOutcome(cfg, run[k], run[k + 1]);
  }
}
