/** What the exit "anchor deleted", and any other, leaves open: exact conditions for
    a cache that is up to date and for a missed binding. */
module SyncBarrierExits {
  import opened ResourceVersion
  import opened ApiLog
  import opened SyncBarrier
  import opened SyncBarrierSafety
  import opened SyncBarrierProgress

  /** The cache has this pod on its node, in the snapshot's version or a later
      one, or has already processed its deletion. */
  ghost predicate UpToDate(s: State, uid: string)
    requires InBounds(s) && s.snapshot <= |s.log| && ScheduledAtSnapshot(s, uid)
  {
    var was, seen := Live(s.log[..s.snapshot])[uid], s.log[..s.cache];
    || (uid in Cache(seen) && Cache(seen)[uid].node == was.node && IsRVReached(Cache(seen)[uid].rv, was.rv))
    || (Mentions(seen, uid) && uid !in Live(seen))
  }

  ghost predicate AllUpToDate(s: State)
    requires InBounds(s) && s.snapshot <= |s.log|
  {
    forall uid :: ScheduledAtSnapshot(s, uid) ==> UpToDate(s, uid)
  }

  ghost predicate AllAccounted(s: State)
    requires InBounds(s) && s.snapshot <= |s.log|
  {
    forall uid :: ScheduledAtSnapshot(s, uid) ==> Accounted(s, uid, Live(s.log[..s.snapshot])[uid].node)
  }

  lemma CaughtUpIsUpToDate(cfg: Config, s: State, uid: string)
    requires Inv(cfg, s) && s.anchor.Some? && Seen(s.log, s.cache, s.anchor.value.rv)
    requires ScheduledAtSnapshot(s, uid)
    ensures UpToDate(s, uid)
  {
    CaughtUpAccounts(cfg, s, uid);
    if uid in Cache(s.log[..s.cache]) {
      var j := CaughtUpHasWrite(cfg, s, uid);
      assert Version(s.log[j]) == Live(s.log[..s.snapshot])[uid].rv;
      PrefixValid(s.log, s.cache);
      ViewsAgree(s.log[..s.cache]);
      LaterReadIsNewer(s.log, s.snapshot, s.cache, uid);
    }
  }

  /** A reader that has processed the deletion of a pod has passed every version
      of it that another reader holds. */
  lemma GoneWasSeen(log: seq<Event>, m: nat, n: nat, uid: string)
    requires Valid(log) && m <= |log| && n <= |log|
    requires uid in Live(log[..m]) && Mentions(log[..n], uid) && uid !in Live(log[..n])
    ensures Seen(log, n, Live(log[..m])[uid].rv)
  {
    PrefixValid(log, m);
    var i := LastWrite(log[..m], uid);
    assert log[i] == log[..m][i];
    if n <= i {
      var longer := log[..m];
      assert longer[..n] == log[..n];
      GoneStaysGone(longer, n, uid);
    }
    assert Version(log[i]) == Live(log[..m])[uid].rv;
  }

  /** What the exit leaves open, exactly: the cache is up to date with every pod
      scheduled at the snapshot if and only if its backlog is gone. */
  lemma UpToDateExactly(cfg: Config, s: State)
    requires Inv(cfg, s) && s.anchor.Some?
    ensures AllUpToDate(s) <==> Backlog(s.log, s.cache, s.anchor.value.rv) == 0
  {
    AnchorSeen(cfg, s);
    AnchorWritten(cfg, s);
    BacklogZero(s.log, s.cache, s.anchor.value.rv);
    if Seen(s.log, s.cache, s.anchor.value.rv) {
      forall uid | ScheduledAtSnapshot(s, uid)
        ensures UpToDate(s, uid)
      {
        CaughtUpIsUpToDate(cfg, s, uid);
      }
    }
    if AllUpToDate(s) {
      AnchorScheduled(cfg, s);
      UpToDateSeen(cfg, s, s.anchor.value.uid);
    }
  }

  lemma AnchorScheduled(cfg: Config, s: State)
    requires Inv(cfg, s) && s.anchor.Some?
    ensures ScheduledAtSnapshot(s, s.anchor.value.uid)
  {
    AnchorWritten(cfg, s);
    var pods :| Lists(pods, Store(s.log[..s.snapshot])) && IsNewest(pods, s.anchor);
  }

  lemma UpToDateSeen(cfg: Config, s: State, uid: string)
    requires Inv(cfg, s) && s.anchor.Some? && ScheduledAtSnapshot(s, uid) && UpToDate(s, uid)
    ensures Seen(s.log, s.cache, Live(s.log[..s.snapshot])[uid].rv)
  {
    PrefixValid(s.log, s.cache);
    ViewsAgree(s.log[..s.cache]);
    if uid in Live(s.log[..s.cache]) {
      SnapshotVersionWritten(s.log, s.snapshot, uid);
      VersionSeen(s.log, s.cache, uid, Live(s.log[..s.snapshot])[uid].rv);
    } else {
      GoneWasSeen(s.log, s.snapshot, s.cache, uid);
    }
  }

  lemma SnapshotVersionWritten(log: seq<Event>, m: nat, uid: string)
    requires Valid(log) && m <= |log| && uid in Live(log[..m])
    ensures Seen(log, |log|, Live(log[..m])[uid].rv)
  {
    PrefixValid(log, m);
    var i := LastWrite(log[..m], uid);
    assert Version(log[i]) == Live(log[..m])[uid].rv;
  }

  /** While the anchor itself is not cached, that is the same as having accounted
      for every pod scheduled at the snapshot. */
  lemma AccountedExactly(cfg: Config, s: State)
    requires Inv(cfg, s) && s.anchor.Some? && s.anchor.value.uid !in Cache(s.log[..s.cache])
    ensures AllAccounted(s) <==> Backlog(s.log, s.cache, s.anchor.value.rv) == 0
  {
    UpToDateExactly(cfg, s);
    if AllAccounted(s) {
      AnchorScheduled(cfg, s);
      assert UpToDate(s, s.anchor.value.uid);
      AnchorWritten(cfg, s);
      UpToDateSeen(cfg, s, s.anchor.value.uid);
      AnchorSeen(cfg, s);
      BacklogZero(s.log, s.cache, s.anchor.value.rv);
    }
    if AllUpToDate(s) {
      forall uid | ScheduledAtSnapshot(s, uid)
        ensures Accounted(s, uid, Live(s.log[..s.snapshot])[uid].node)
      {
        assert UpToDate(s, uid);
      }
    }
  }

  /** In every run that has ended because the anchor was deleted, the cache is up
      to date with the snapshot exactly when its backlog is gone; as long as the
      anchor is not cached, it accounts for the snapshot exactly then; and then no
      live binding up to the watermark is missed. */
  lemma DeletedAnchorExactly(cfg: Config, run: seq<State>, k: nat)
    requires IsRun(cfg, run) && k < |run| && run[k].pc == Stopped(AnchorDeleted)
    ensures run[k].anchor.Some? && run[k].snapshot <= |run[k].log|
    ensures var caughtUp := Backlog(run[k].log, run[k].cache, run[k].anchor.value.rv) == 0;
            && (AllUpToDate(run[k]) <==> caughtUp)
            && (run[k].anchor.value.uid !in Cache(run[k].log[..run[k].cache]) ==> (AllAccounted(run[k]) <==> caughtUp))
            && (caughtUp ==> NoBindingMissed(run[k]))
  {
    var s := run[k];
    RunKeepsInv(cfg, run, k);
    UpToDateExactly(cfg, s);
    if s.anchor.value.uid !in Cache(s.log[..s.cache]) {
      AccountedExactly(cfg, s);
    }
    AnchorSeen(cfg, s);
    BacklogZero(s.log, s.cache, s.anchor.value.rv);
    if Seen(s.log, s.cache, s.anchor.value.rv) {
      CaughtUpIsSafe(cfg, s);
    }
  }

  /** Every live binding up to the watermark was in force within the events that
      the cache has processed. */
  ghost predicate BindingsProcessed(s: State)
  {
    forall i: nat, uid, node ::
      BindsAt(s.log, i, uid, node) && IsRVReached(s.target, s.log[i].pod.rv) && uid in Live(s.log)
      ==> exists j: nat :: j < s.cache && BindsAt(s.log, j, uid, node)
  }

  /** At any time, and so after any exit, a binding is missed exactly when the
      cache has processed no event that makes it. */
  lemma MissedExactly(cfg: Config, run: seq<State>, k: nat)
    requires IsRun(cfg, run) && k < |run|
    ensures NoBindingMissed(run[k]) <==> BindingsProcessed(run[k])
  {
    var s := run[k];
    RunKeepsInv(cfg, run, k);
    forall i: nat, uid, node | BindsAt(s.log, i, uid, node) && uid in Live(s.log)
      ensures (exists j: nat :: j < s.cache && BindsAt(s.log, j, uid, node)) <==>
              uid in Cache(s.log[..s.cache]) && Cache(s.log[..s.cache])[uid].node == node
    {
      BindingProcessed(s.log, s.cache, uid, node);
    }
  }

  lemma BindingProcessed(log: seq<Event>, n: nat, uid: string, node: string)
    requires Valid(log) && n <= |log| && uid in Live(log) && node != ""
    ensures (exists j: nat :: j < n && BindsAt(log, j, uid, node)) <==>
            uid in Cache(log[..n]) && Cache(log[..n])[uid].node == node
  {
    PrefixValid(log, n);
    ViewsAgree(log[..n]);
    if j: nat :| j < n && BindsAt(log, j, uid, node) {
      BindingVisible(log, j, uid, node, n);
    }
    if uid in Cache(log[..n]) && Cache(log[..n])[uid].node == node {
      var j := LastWrite(log[..n], uid);
      assert BindsAt(log, j, uid, node);
    }
  }
}
