/** What a finished barrier guarantees: no live binding up to the watermark is missing
    from the scheduler cache. */
module SyncBarrierSafety {
  import opened ResourceVersion
  import opened ApiLog
  import opened SyncBarrier

  /** No binding at or before the watermark whose pod still exists is missing
      from the cache, and the cache has it on the node it was bound to. */
  ghost predicate NoBindingMissed(s: State)
    requires InBounds(s)
  {
    forall i: nat, uid, node ::
      BindsAt(s.log, i, uid, node) && IsRVReached(s.target, s.log[i].pod.rv) && uid in Live(s.log)
      ==> uid in Cache(s.log[..s.cache]) && Cache(s.log[..s.cache])[uid].node == node
  }

  /** Versions order positions: what is not newer than a seen version was seen. */
  lemma OlderWasSeen(log: seq<Event>, n: nat, rv: string, i: nat)
    requires Valid(log) && i < |log| && Seen(log, n, rv) && IsRVReached(rv, Version(log[i]))
    ensures i < n
  {
    var w :| 0 <= w < n && w < |log| && Version(log[w]) == rv;
    VersionDecimal(log, w);
    VersionDecimal(log, i);
    ReachedIsNumeric(rv, Version(log[i]));
    if w < i {
      VersionsIncrease(log, w, i);
    }
  }

  /** A binding at or before the watermark is in the snapshot. */
  lemma BindingInSnapshot(cfg: Config, s: State, i: nat, uid: string, node: string)
    requires Inv(cfg, s) && SnapshotTaken(s)
    requires BindsAt(s.log, i, uid, node) && IsRVReached(s.target, s.log[i].pod.rv) && uid in Live(s.log)
    ensures uid in Live(s.log[..s.snapshot]) && Live(s.log[..s.snapshot])[uid].node == node
    ensures forall pods :: Lists(pods, Store(s.log[..s.snapshot])) ==> Live(s.log[..s.snapshot])[uid] in pods
  {
    OlderWasSeen(s.log, s.snapshot, s.target, i);
    BindingVisible(s.log, i, uid, node, s.snapshot);
    PrefixValid(s.log, s.snapshot);
    ViewsAgree(s.log[..s.snapshot]);
  }

  /** The cache has this binding, or has already processed the pod's deletion. */
  ghost predicate Accounted(s: State, uid: string, node: string)
    requires InBounds(s)
  {
    var seen := s.log[..s.cache];
    || (uid in Cache(seen) && Cache(seen)[uid].node == node)
    || (Mentions(seen, uid) && uid !in Live(seen))
  }

  ghost predicate ScheduledAtSnapshot(s: State, uid: string)
    requires s.snapshot <= |s.log|
  {
    uid in Live(s.log[..s.snapshot]) && Scheduled(Live(s.log[..s.snapshot])[uid])
  }

  /** No scheduled pod of the snapshot is newer than the anchor, so a cache that
      has processed the anchor has processed its last write. */
  lemma CaughtUpHasWrite(cfg: Config, s: State, uid: string) returns (j: nat)
    requires Inv(cfg, s) && s.anchor.Some? && Seen(s.log, s.cache, s.anchor.value.rv)
    requires ScheduledAtSnapshot(s, uid)
    ensures j < s.cache && s.log[j].Put? && s.log[j].pod == Live(s.log[..s.snapshot])[uid] && s.log[j].pod.uid == uid
  {
    var prefix := s.log[..s.snapshot];
    PrefixValid(s.log, s.snapshot);
    ViewsAgree(prefix);
    var pods :| Lists(pods, Store(prefix)) && IsNewest(pods, s.anchor);
    assert IsRVReached(s.anchor.value.rv, Live(prefix)[uid].rv);
    j := LastWrite(prefix, uid);
    assert s.log[j] == prefix[j];
    OlderWasSeen(s.log, s.cache, s.anchor.value.rv, j);
  }

  /** So it accounts for every scheduled pod of the snapshot. */
  lemma CaughtUpAccounts(cfg: Config, s: State, uid: string)
    requires Inv(cfg, s) && s.anchor.Some? && Seen(s.log, s.cache, s.anchor.value.rv)
    requires ScheduledAtSnapshot(s, uid)
    ensures Accounted(s, uid, Live(s.log[..s.snapshot])[uid].node)
  {
    var j := CaughtUpHasWrite(cfg, s, uid);
    WriteAccounted(s, j);
  }

  lemma WriteAccounted(s: State, j: nat)
    requires Valid(s.log) && InBounds(s) && j < s.cache && s.log[j].Put? && Scheduled(s.log[j].pod)
    ensures Accounted(s, s.log[j].pod.uid, s.log[j].pod.node)
  {
    var seen, uid := s.log[..s.cache], s.log[j].pod.uid;
    assert seen[j] == s.log[j];
    assert Mentions(seen, uid);
    if uid in Live(seen) {
      PrefixValid(s.log, s.cache);
      assert BindsAt(seen, j, uid, s.log[j].pod.node);
      BindingVisible(seen, j, uid, s.log[j].pod.node, |seen|);
      assert seen[..|seen|] == seen;
      ViewsAgree(seen);
    }
  }

  lemma CaughtUpCacheHasBinding(cfg: Config, s: State, i: nat, uid: string, node: string)
    requires Inv(cfg, s) && s.anchor.Some? && Seen(s.log, s.cache, s.anchor.value.rv)
    requires BindsAt(s.log, i, uid, node) && IsRVReached(s.target, s.log[i].pod.rv) && uid in Live(s.log)
    ensures uid in Cache(s.log[..s.cache]) && Cache(s.log[..s.cache])[uid].node == node
  {
    BindingInSnapshot(cfg, s, i, uid, node);
    CaughtUpAccounts(cfg, s, uid);
    if uid !in Live(s.log[..s.cache]) && Mentions(s.log[..s.cache], uid) {
      GoneStaysGone(s.log, s.cache, uid);
    }
    PrefixValid(s.log, s.cache);
    ViewsAgree(s.log[..s.cache]);
  }

  lemma CaughtUpIsSafe(cfg: Config, s: State)
    requires Inv(cfg, s) && s.anchor.Some? && Seen(s.log, s.cache, s.anchor.value.rv)
    ensures NoBindingMissed(s)
  {
    forall i: nat, uid, node |
      BindsAt(s.log, i, uid, node) && IsRVReached(s.target, s.log[i].pod.rv) && uid in Live(s.log)
      ensures uid in Cache(s.log[..s.cache]) && Cache(s.log[..s.cache])[uid].node == node
    {
      CaughtUpCacheHasBinding(cfg, s, i, uid, node);
    }
  }

  lemma NothingScheduledIsSafe(cfg: Config, s: State)
    requires Inv(cfg, s) && s.pc == Stopped(NoScheduledPods)
    ensures NoBindingMissed(s)
  {
    forall i: nat, uid, node |
      BindsAt(s.log, i, uid, node) && IsRVReached(s.target, s.log[i].pod.rv) && uid in Live(s.log)
      ensures false
    {
      BindingInSnapshot(cfg, s, i, uid, node);
    }
  }

  /** In every run, from the moment the barrier ends by reaching the anchor or
      by finding no scheduled pod, no live binding up to the watermark is
      missing from the scheduler cache. */
  lemma BarrierIsSafe(cfg: Config, run: seq<State>, k: nat)
    requires IsRun(cfg, run) && k < |run|
    requires run[k].pc == Stopped(CacheSynced) || run[k].pc == Stopped(NoScheduledPods)
    ensures NoBindingMissed(run[k])
  {
    RunKeepsInv(cfg, run, k);
    if run[k].pc == Stopped(CacheSynced) {
      CaughtUpIsSafe(cfg, run[k]);
    } else {
      NothingScheduledIsSafe(cfg, run[k]);
    }
  }

  /** And it accounts for every pod that was scheduled at the anchor snapshot,
      however late its binding: the cache has it on its node, or has already
      processed its deletion. */
  lemma SnapshotAccounted(cfg: Config, run: seq<State>, k: nat, uid: string)
    requires IsRun(cfg, run) && k < |run| && run[k].snapshot <= |run[k].log|
    requires run[k].pc == Stopped(CacheSynced) || run[k].pc == Stopped(NoScheduledPods)
    requires uid in Live(run[k].log[..run[k].snapshot]) && Scheduled(Live(run[k].log[..run[k].snapshot])[uid])
    ensures Accounted(run[k], uid, Live(run[k].log[..run[k].snapshot])[uid].node)
  {
    var s := run[k];
    RunKeepsInv(cfg, run, k);
    if s.pc == Stopped(CacheSynced) {
      CaughtUpAccounts(cfg, s, uid);
    } else {
      PrefixValid(s.log, s.snapshot);
      ViewsAgree(s.log[..s.snapshot]);
    }
  }

  /** No write of the previous leader is newer than the watermark. */
  ghost predicate OldLeaderFenced(s: State)
  {
    forall i :: 0 <= i < |s.log| && s.log[i].Put? && s.log[i].writer == OldLeader ==>
      IsRVReached(s.target, Version(s.log[i]))
  }

  /** So the new leader starts with every live binding of the previous one. */
  lemma HandoverIsSafe(cfg: Config, run: seq<State>, k: nat, i: nat, uid: string, node: string)
    requires IsRun(cfg, run) && k < |run| && OldLeaderFenced(run[k])
    requires run[k].pc == Stopped(CacheSynced) || run[k].pc == Stopped(NoScheduledPods)
    requires BindsAt(run[k].log, i, uid, node) && run[k].log[i].writer == OldLeader && uid in Live(run[k].log)
    ensures uid in Cache(run[k].log[..run[k].cache])
    ensures Cache(run[k].log[..run[k].cache])[uid].node == node
  {
    BarrierIsSafe(cfg, run, k);
    assert IsRVReached(run[k].target, Version(run[k].log[i]));
  }

  /** Whatever was written before the run began is older than the watermark, even
      if the patch that set it had to be repeated and found its own effect. So a
      previous leader that has stopped by then is fenced. */
  lemma StartedAfterWrites(cfg: Config, run: seq<State>, k: nat, i: nat)
    requires IsRun(cfg, run) && k < |run| && run[k].target != "" && i < run[0].handover
    ensures i < |run[k].log| && IsRVReached(run[k].target, Version(run[k].log[i]))
  {
    var s := run[k];
    RunKeepsInv(cfg, run, k);
    HandoverFixed(cfg, run, k);
    var w :| s.handover <= w < |s.log| && Version(s.log[w]) == s.target;
    VersionsIncrease(s.log, i, w);
    ReachedIsNumeric(s.target, Version(s.log[i]));
  }

  lemma {:induction false} HandoverFixed(cfg: Config, run: seq<State>, k: nat)
    requires IsRun(cfg, run) && k < |run|
    ensures run[k].handover == run[0].handover
  {
    if k > 0 {
      HandoverFixed(cfg, run, k - 1);
      assert StepAt(cfg, run, k - 1);
    }
  }
}
