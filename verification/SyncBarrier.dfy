/** The synchronisation barrier that a new leader runs before it schedules:
    patch a barrier pod to get a watermark, wait until the informer has seen it,
    remember the newest scheduled pod as the anchor, and wait until the scheduler
    cache has caught up with the anchor. The poll's reads are separate steps, so
    the API server, the informer and the cache may move between any two of them. */
module SyncBarrier {
  import opened ResourceVersion
  import opened ApiLog
  import opened Options

  // ---------------------------------------------------------------- the anchor

  predicate Scheduled(p: Pod)
  {
    p.node != ""
  }

  function Newer(anchor: Option<Pod>, p: Pod): Option<Pod>
  {
    if Scheduled(p) && (anchor.None? || IsRVReached(p.rv, anchor.value.rv)) then Some(p) else anchor
  }

  function LatestScheduled(pods: seq<Pod>): Option<Pod>
  {
    if pods == [] then None else Newer(LatestScheduled(pods[..|pods| - 1]), pods[|pods| - 1])
  }

  /** `anchor` is a scheduled pod of maximal version, if there is one at all. */
  predicate IsNewest(pods: seq<Pod>, anchor: Option<Pod>)
  {
    match anchor
    case None => forall p :: p in pods ==> !Scheduled(p)
    case Some(a) => a in pods && Scheduled(a) && forall p :: p in pods && Scheduled(p) ==> IsRVReached(a.rv, p.rv)
  }

  predicate AllDecimal(pods: seq<Pod>)
  {
    forall p :: p in pods ==> IsDecimal(p.rv)
  }

  lemma {:induction false} LatestIsNewest(pods: seq<Pod>)
    requires AllDecimal(pods)
    ensures IsNewest(pods, LatestScheduled(pods))
  {
    if pods != [] {
      var front, p := pods[..|pods| - 1], pods[|pods| - 1];
      LatestIsNewest(front);
      assert pods == front + [p];
      var a := LatestScheduled(front);
      forall q | q in front && a.Some? && Scheduled(p) && Scheduled(q)
        ensures IsRVReached(p.rv, a.value.rv) ==> IsRVReached(p.rv, q.rv)
        ensures IsRVReached(p.rv, a.value.rv) || IsRVReached(a.value.rv, p.rv)
      {
        ReachedIsTotalOrder(p.rv, a.value.rv, q.rv);
      }
    }
  }

  /** The loop over the listing keeps the newest scheduled pod seen so far. */
  method SelectAnchor(pods: seq<Pod>) returns (anchor: Option<Pod>)
    ensures anchor == LatestScheduled(pods)
    ensures AllDecimal(pods) ==> IsNewest(pods, anchor)
  {
    anchor := None;
    for i := 0 to |pods|
      invariant anchor == LatestScheduled(pods[..i])
    {
      var p := pods[i];
      assert pods[..i + 1][..i] == pods[..i];
      if Scheduled(p) {
        if anchor.None? || IsRVReached(p.rv, anchor.value.rv) {
          anchor := Some(p);
        }
      }
    }
    assert pods[..|pods|] == pods;
    if AllDecimal(pods) {
      LatestIsNewest(pods);
    }
  }

  /** A listing of a store: every pod in it, in any order. */
  ghost predicate Lists(pods: seq<Pod>, store: map<string, Pod>)
  {
    forall p :: p in pods <==> exists n :: n in store && store[n] == p
  }

  lemma ListingDecimal(log: seq<Event>, pods: seq<Pod>)
    requires Valid(log) && Lists(pods, Store(log))
    ensures AllDecimal(pods)
  {
    ViewsAgree(log);
    forall p | p in pods
      ensures IsDecimal(p.rv)
    {
      var n :| n in Store(log) && Store(log)[n] == p;
      var i := LastWrite(log, p.uid);
      VersionDecimal(log, i);
    }
  }

  ghost predicate InStore(log: seq<Event>, p: Pod)
  {
    exists n :: n in Store(log) && Store(log)[n] == p
  }

  lemma SameVersionSamePod(log: seq<Event>, p: Pod, q: Pod)
    requires Valid(log) && InStore(log, p) && InStore(log, q) && p.rv == q.rv
    ensures p == q
  {
    ViewsAgree(log);
    var i := LastWrite(log, p.uid);
    var j := LastWrite(log, q.uid);
    if i < j {
      VersionsIncrease(log, i, j);
    } else if j < i {
      VersionsIncrease(log, j, i);
    }
  }

  /** The anchor does not depend on the listing's order. */
  lemma AnchorUnique(log: seq<Event>, pods1: seq<Pod>, pods2: seq<Pod>)
    requires Valid(log) && Lists(pods1, Store(log)) && Lists(pods2, Store(log))
    ensures LatestScheduled(pods1) == LatestScheduled(pods2)
  {
    ListingDecimal(log, pods1);
    ListingDecimal(log, pods2);
    LatestIsNewest(pods1);
    LatestIsNewest(pods2);
    var a, b := LatestScheduled(pods1), LatestScheduled(pods2);
    if a.Some? {
      assert a.value in pods2;
      assert b.Some? && b.value in pods1;
      ReachedIsTotalOrder(a.value.rv, b.value.rv, a.value.rv);
      SameVersionSamePod(log, a.value, b.value);
    }
  }

  // ------------------------------------------------------------------- the run

  datatype Reason = BarrierMissing | BarrierGone | NoScheduledPods | AnchorDeleted | CacheSynced | TimedOut

  /** Where the poll body stands. */
  datatype Pc = Idle | Patching | Getting | Listing | CacheRead | ListerRead | Stopped(reason: Reason)

  /** The barrier pod's name and this run's annotation value. */
  datatype Config = Config(barrier: string, stamp: string)

  /** `informer` and `cache` count the log events each has processed.
      `handover` is the log's length when the run began and `snapshot` the
      informer's position when the pods were listed. */
  datatype State = State(
    log: seq<Event>, informer: nat, cache: nat,
    pc: Pc, target: string, anchor: Option<Pod>, expired: bool,
    handover: nat, snapshot: nat)

  datatype Step =
    | ApiWrite(event: Event)
    | InformerSees
    | CacheSees
    | Expire
    | PollStart
    | Patch(rv: string)
    | PatchLost(rv: string, applied: bool)
    | ReadError
    | Get
    | List(pods: seq<Pod>)
    | ReadCache
    | ReadLister

  ghost predicate Init(cfg: Config, s: State)
  {
    && Valid(s.log) && s.cache <= s.informer <= |s.log|
    && s.pc == Idle && s.target == "" && s.anchor == None && !s.expired
    && s.handover == |s.log| && s.snapshot == 0
    && (forall i :: 0 <= i < |s.log| && s.log[i].Put? ==> s.log[i].pod.mark != cfg.stamp)
  }

  /** The merge patch sets one annotation; patching it to the value it already
      has writes nothing and returns the pod as it is. */
  ghost function AfterPatch(cfg: Config, log: seq<Event>, rv: string): seq<Event>
    requires cfg.barrier in Store(log)
  {
    var pod := Store(log)[cfg.barrier];
    if pod.mark == cfg.stamp then log else log + [Put(pod.(mark := cfg.stamp, rv := rv), Other)]
  }

  ghost predicate PatchApplies(cfg: Config, log: seq<Event>, rv: string)
  {
    && cfg.barrier in Store(log)
    && (Store(log)[cfg.barrier].mark != cfg.stamp ==>
          Admissible(log, Put(Store(log)[cfg.barrier].(mark := cfg.stamp, rv := rv), Other)))
  }

  ghost predicate NextStep(cfg: Config, s: State, t: State, step: Step)
    requires s.cache <= s.informer <= |s.log|
  {
    match step
    case ApiWrite(e) =>
      Admissible(s.log, e) && t == s.(log := s.log + [e])
    case InformerSees =>
      s.informer < |s.log| && t == s.(informer := s.informer + 1)
    case CacheSees =>
      s.cache < s.informer && t == s.(cache := s.cache + 1)
    case Expire =>
      t == s.(expired := true)
    case PollStart =>
      && s.pc == Idle
      && t == s.(pc := if s.expired then Stopped(TimedOut)
                       else if s.target == "" then Patching
                       else if s.anchor.None? then Getting
                       else CacheRead)
    case Patch(rv) =>
      && s.pc == Patching
      && if cfg.barrier !in Store(s.log) then t == s.(pc := Stopped(BarrierMissing))
         else
           && PatchApplies(cfg, s.log, rv)
           && var log := AfterPatch(cfg, s.log, rv);
              cfg.barrier in Store(log) && t == s.(log := log, pc := Getting, target := Store(log)[cfg.barrier].rv)
    case PatchLost(rv, applied) =>
      && s.pc == Patching
      && (applied ==> PatchApplies(cfg, s.log, rv))
      && t == s.(log := if applied then AfterPatch(cfg, s.log, rv) else s.log, pc := Idle)
    case ReadError =>
      (s.pc == Getting || s.pc == Listing || s.pc == ListerRead) && t == s.(pc := Idle)
    case Get =>
      && s.pc == Getting
      && var store := Store(s.log[..s.informer]);
         t == s.(pc := if cfg.barrier !in store then Stopped(BarrierGone)
                       else if IsRVReached(store[cfg.barrier].rv, s.target) then Listing
                       else Idle)
    case List(pods) =>
      && s.pc == Listing
      && Lists(pods, Store(s.log[..s.informer]))
      && var anchor := LatestScheduled(pods);
         t == s.(anchor := anchor, snapshot := s.informer,
                 pc := if anchor.None? then Stopped(NoScheduledPods) else CacheRead)
    case ReadCache =>
      && s.pc == CacheRead && s.anchor.Some?
      && var cache := Cache(s.log[..s.cache]);
         t == s.(pc := if s.anchor.value.uid !in cache then ListerRead
                       else if IsRVReached(cache[s.anchor.value.uid].rv, s.anchor.value.rv) then Stopped(CacheSynced)
                       else Idle)
    case ReadLister =>
      && s.pc == ListerRead && s.anchor.Some?
      && t == s.(pc := if s.anchor.value.name !in Store(s.log[..s.informer]) then Stopped(AnchorDeleted) else Idle)
  }

  ghost predicate Next(cfg: Config, s: State, t: State)
    requires s.cache <= s.informer <= |s.log|
  {
    exists step :: NextStep(cfg, s, t, step)
  }

  ghost predicate InBounds(s: State)
  {
    s.cache <= s.informer <= |s.log|
  }

  /** Any finite interleaving, from the start of the barrier on. */
  ghost predicate IsRun(cfg: Config, run: seq<State>)
  {
    && run != []
    && Init(cfg, run[0])
    && (forall k :: 0 <= k < |run| ==> InBounds(run[k]))
    && (forall k :: 0 <= k < |run| - 1 ==> StepAt(cfg, run, k))
  }

  ghost predicate StepAt(cfg: Config, run: seq<State>, k: nat)
    requires k < |run| - 1 && InBounds(run[k])
  {
    Next(cfg, run[k], run[k + 1])
  }

  // ------------------------------------------------------------- the invariant

  /** One of the first `n` events carries version `rv`. */
  ghost predicate Seen(log: seq<Event>, n: nat, rv: string)
  {
    exists w :: 0 <= w < n && w < |log| && Version(log[w]) == rv
  }

  ghost predicate WrittenSince(log: seq<Event>, from: nat, rv: string)
  {
    exists w :: from <= w < |log| && Version(log[w]) == rv
  }

  /** The listing that `snapshot` and `anchor` remember: it was taken after the
      informer had passed the watermark. */
  ghost predicate SnapshotTaken(s: State)
  {
    && s.target != ""
    && s.snapshot <= s.informer <= |s.log|
    && Seen(s.log, s.snapshot, s.target)
    && exists pods :: Lists(pods, Store(s.log[..s.snapshot])) && IsNewest(pods, s.anchor)
  }

  ghost predicate Inv(cfg: Config, s: State)
  {
    && Valid(s.log) && InBounds(s) && s.handover <= |s.log|
    && (forall i :: 0 <= i < s.handover && s.log[i].Put? ==> s.log[i].pod.mark != cfg.stamp)
    && (s.target != "" ==> WrittenSince(s.log, s.handover, s.target))
    && (s.anchor.Some? ==> SnapshotTaken(s))
    && match s.pc
       case Idle => true
       case Patching => s.target == ""
       case Getting => s.target != "" && s.anchor.None?
       case Listing => s.target != "" && s.anchor.None? && Seen(s.log, s.informer, s.target)
       case CacheRead => s.anchor.Some?
       case ListerRead => s.anchor.Some?
       case Stopped(NoScheduledPods) => SnapshotTaken(s) && s.anchor.None?
       case Stopped(CacheSynced) => s.anchor.Some? && Seen(s.log, s.cache, s.anchor.value.rv)
       case Stopped(AnchorDeleted) => s.anchor.Some?
       case Stopped(_) => true
  }

  /** Growing the log or a position forgets nothing that was seen. */
  lemma SeenMonotone(log: seq<Event>, n: nat, rv: string, more: seq<Event>, m: nat)
    requires Seen(log, n, rv) && n <= m
    ensures Seen(log + more, m, rv)
  {
    var w :| 0 <= w < n && w < |log| && Version(log[w]) == rv;
    assert Version((log + more)[w]) == rv;
  }

  lemma WrittenMonotone(log: seq<Event>, from: nat, rv: string, e: Event)
    requires WrittenSince(log, from, rv)
    ensures WrittenSince(log + [e], from, rv)
  {
    var w :| from <= w < |log| && Version(log[w]) == rv;
    assert Version((log + [e])[w]) == rv;
  }

  /** Environment steps: the log, a position or the clock moves. */
  lemma GrowKeepsInv(cfg: Config, s: State, e: Event)
    requires Inv(cfg, s) && Admissible(s.log, e)
    ensures Inv(cfg, s.(log := s.log + [e]))
  {
    var t := s.(log := s.log + [e]);
    assert t.log[..|t.log| - 1] == s.log;
    if s.target != "" {
      WrittenMonotone(s.log, s.handover, s.target, e);
    }
    if s.anchor.Some? || s.pc == Stopped(NoScheduledPods) {
      assert t.log[..s.snapshot] == s.log[..s.snapshot];
      SeenMonotone(s.log, s.snapshot, s.target, [e], s.snapshot);
      assert SnapshotTaken(t);
    }
    if s.pc == Listing {
      SeenMonotone(s.log, s.informer, s.target, [e], s.informer);
    }
    if s.pc == Stopped(CacheSynced) {
      SeenMonotone(s.log, s.cache, s.anchor.value.rv, [e], s.cache);
    }
  }

  lemma AdvanceKeepsInv(cfg: Config, s: State, informer: nat, cache: nat)
    requires Inv(cfg, s) && s.informer <= informer <= |s.log| && s.cache <= cache <= informer
    ensures Inv(cfg, s.(informer := informer, cache := cache))
  {
    var t := s.(informer := informer, cache := cache);
    assert s.log + [] == s.log;
    if s.anchor.Some? || s.pc == Stopped(NoScheduledPods) {
      assert SnapshotTaken(t);
    }
    if s.pc == Listing {
      SeenMonotone(s.log, s.informer, s.target, [], informer);
    }
    if s.pc == Stopped(CacheSynced) {
      SeenMonotone(s.log, s.cache, s.anchor.value.rv, [], cache);
    }
  }

  /** The barrier pod carries this run's stamp only if it was written in it. */
  lemma StampedSinceHandover(cfg: Config, log: seq<Event>, handover: nat)
    requires Valid(log) && cfg.barrier in Store(log) && Store(log)[cfg.barrier].mark == cfg.stamp
    requires handover <= |log|
    requires forall i :: 0 <= i < handover && log[i].Put? ==> log[i].pod.mark != cfg.stamp
    ensures WrittenSince(log, handover, Store(log)[cfg.barrier].rv)
    ensures Store(log)[cfg.barrier].rv != ""
  {
    ViewsAgree(log);
    var i := LastWrite(log, Store(log)[cfg.barrier].uid);
    VersionDecimal(log, i);
    assert i >= handover;
  }

  /** After the patch, written or not, the barrier pod carries the stamp. */
  lemma PatchKeepsInv(cfg: Config, s: State, rv: string)
    requires Inv(cfg, s) && s.pc == Patching && PatchApplies(cfg, s.log, rv)
    ensures var log := AfterPatch(cfg, s.log, rv);
            && Inv(cfg, s.(log := log))
            && cfg.barrier in Store(log) && Store(log)[cfg.barrier].mark == cfg.stamp
  {
    var pod := Store(s.log)[cfg.barrier];
    if pod.mark != cfg.stamp {
      var e := Put(pod.(mark := cfg.stamp, rv := rv), Other);
      GrowKeepsInv(cfg, s, e);
      ViewsAgree(s.log);
      assert (s.log + [e])[..|s.log|] == s.log;
    }
  }

  /** A barrier pod at least as new as the watermark means the watermark itself
      has been delivered. */
  lemma BarrierSeen(cfg: Config, s: State)
    requires Inv(cfg, s) && s.target != "" && cfg.barrier in Store(s.log[..s.informer])
    requires IsRVReached(Store(s.log[..s.informer])[cfg.barrier].rv, s.target)
    ensures Seen(s.log, s.informer, s.target)
  {
    var prefix := s.log[..s.informer];
    PrefixValid(s.log, s.informer);
    ViewsAgree(prefix);
    VersionSeen(s.log, s.informer, Store(prefix)[cfg.barrier].uid, s.target);
  }

  /** If a pod live at position `n` has reached version `rv` of the log, then
      `rv` is among the first `n` events. */
  lemma VersionSeen(log: seq<Event>, n: nat, uid: string, rv: string)
    requires Valid(log) && n <= |log| && uid in Live(log[..n]) && Seen(log, |log|, rv)
    requires IsRVReached(Live(log[..n])[uid].rv, rv)
    ensures Seen(log, n, rv)
  {
    PrefixValid(log, n);
    var i := LastWrite(log[..n], uid);
    var w :| 0 <= w < |log| && Version(log[w]) == rv;
    VersionDecimal(log, i);
    VersionDecimal(log, w);
    ReachedIsNumeric(Version(log[i]), rv);
    if i < w {
      VersionsIncrease(log, i, w);
    }
    assert Version(log[w]) == rv;
  }

  lemma ListKeepsInv(cfg: Config, s: State, pods: seq<Pod>)
    requires Inv(cfg, s) && s.pc == Listing && Lists(pods, Store(s.log[..s.informer]))
    ensures var t := s.(anchor := LatestScheduled(pods), snapshot := s.informer);
            SnapshotTaken(t)
  {
    PrefixValid(s.log, s.informer);
    ListingDecimal(s.log[..s.informer], pods);
    LatestIsNewest(pods);
  }

  lemma CacheReadKeepsInv(cfg: Config, s: State)
    requires Inv(cfg, s) && s.anchor.Some? && s.anchor.value.uid in Cache(s.log[..s.cache])
    requires IsRVReached(Cache(s.log[..s.cache])[s.anchor.value.uid].rv, s.anchor.value.rv)
    ensures Seen(s.log, s.cache, s.anchor.value.rv)
  {
    PrefixValid(s.log, s.cache);
    ViewsAgree(s.log[..s.cache]);
    AnchorSeen(cfg, s);
    VersionSeen(s.log, s.cache, s.anchor.value.uid, s.anchor.value.rv);
  }

  /** The anchor is a scheduled pod of the snapshot. */
  lemma AnchorWritten(cfg: Config, s: State)
    requires Inv(cfg, s) && s.anchor.Some?
    ensures Seen(s.log, s.snapshot, s.anchor.value.rv) && IsDecimal(s.anchor.value.rv)
    ensures s.anchor.value.uid in Live(s.log[..s.snapshot])
    ensures Live(s.log[..s.snapshot])[s.anchor.value.uid] == s.anchor.value
  {
    var prefix := s.log[..s.snapshot];
    var pods :| Lists(pods, Store(prefix)) && IsNewest(pods, s.anchor);
    PrefixValid(s.log, s.snapshot);
    ViewsAgree(prefix);
    assert s.anchor.value in pods;
    var i := LastWrite(prefix, s.anchor.value.uid);
    VersionDecimal(prefix, i);
    assert Version(s.log[i]) == s.anchor.value.rv;
  }

  lemma AnchorSeen(cfg: Config, s: State)
    requires Inv(cfg, s) && s.anchor.Some?
    ensures Seen(s.log, |s.log|, s.anchor.value.rv)
  {
    AnchorWritten(cfg, s);
    SeenMonotone(s.log, s.snapshot, s.anchor.value.rv, [], |s.log|);
    assert s.log + [] == s.log;
  }

  lemma StepKeepsInv(cfg: Config, s: State, t: State, step: Step)
    requires Inv(cfg, s) && NextStep(cfg, s, t, step)
    ensures Inv(cfg, t)
  {
    match step
    case ApiWrite(e) => GrowKeepsInv(cfg, s, e);
    case InformerSees => AdvanceKeepsInv(cfg, s, s.informer + 1, s.cache);
    case CacheSees => AdvanceKeepsInv(cfg, s, s.informer, s.cache + 1);
    case Expire => ControlStepKeepsInv(cfg, s, t, step);
    case PollStart => ControlStepKeepsInv(cfg, s, t, step);
    case Patch(rv) => PatchStepKeepsInv(cfg, s, t, step);
    case PatchLost(rv, applied) => PatchStepKeepsInv(cfg, s, t, step);
    case ReadError => ControlStepKeepsInv(cfg, s, t, step);
    case Get =>
      if cfg.barrier in Store(s.log[..s.informer])
        && IsRVReached(Store(s.log[..s.informer])[cfg.barrier].rv, s.target) {
        BarrierSeen(cfg, s);
      }
    case List(pods) => ListKeepsInv(cfg, s, pods);
    case ReadCache => LookKeepsInv(cfg, s, t, step);
    case ReadLister => LookKeepsInv(cfg, s, t, step);
  }

  /** Steps that move only the poll and the clock. */
  lemma ControlStepKeepsInv(cfg: Config, s: State, t: State, step: Step)
    requires Inv(cfg, s) && NextStep(cfg, s, t, step) && (step.Expire? || step.PollStart? || step.ReadError?)
    ensures Inv(cfg, t)
  {
    assert s.anchor.Some? || s.pc == Stopped(NoScheduledPods) ==> SnapshotTaken(t);
  }

  lemma PatchStepKeepsInv(cfg: Config, s: State, t: State, step: Step)
    requires Inv(cfg, s) && NextStep(cfg, s, t, step) && (step.Patch? || step.PatchLost?)
    ensures Inv(cfg, t)
  {
    match step
    case Patch(rv) =>
      if cfg.barrier in Store(s.log) {
        PatchKeepsInv(cfg, s, rv);
        StampedSinceHandover(cfg, t.log, s.handover);
      }
    case PatchLost(rv, applied) =>
      if applied {
        PatchKeepsInv(cfg, s, rv);
      }
  }

  lemma LookKeepsInv(cfg: Config, s: State, t: State, step: Step)
    requires Inv(cfg, s) && NextStep(cfg, s, t, step) && (step.ReadCache? || step.ReadLister?)
    ensures Inv(cfg, t)
  {
    assert SnapshotTaken(t);
    if step.ReadCache? && t.pc == Stopped(CacheSynced) {
      CacheReadKeepsInv(cfg, s);
    }
  }

  lemma {:induction false} RunKeepsInv(cfg: Config, run: seq<State>, k: nat)
    requires IsRun(cfg, run) && k < |run|
    ensures Inv(cfg, run[k])
  {
    if k > 0 {
      RunKeepsInv(cfg, run, k - 1);
      assert StepAt(cfg, run, k - 1);
      var step :| NextStep(cfg, run[k - 1], run[k], step);
      StepKeepsInv(cfg, run[k - 1], run[k], step);
    }
  }
}
