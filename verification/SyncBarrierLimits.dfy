/** What the barrier's other exits do not give: a run that ends because the
    anchor was deleted while the cache had not caught up, and an anchor whose
    name is taken over, which keeps the barrier waiting until it times out. */
module SyncBarrierLimits {
  import opened ResourceVersion
  import opened ApiLog
  import opened SyncBarrier
  import opened SyncBarrierSafety
  import opened SyncBarrierProgress
  import opened Options

  // --------------------------------------------- an exit with a missed binding

  const CFG := Config("barrier", "now")
  const BEFORE := Pod("barrier", "b", "", "1", "")
  const STAMPED := Pod("barrier", "b", "", "4", "now")
  const VICTIM := Pod("victim", "v", "n1", "2", "")
  const ANCHOR := Pod("anchor", "a", "n2", "3", "")
  const LOG3: seq<Event> := [Put(BEFORE, Other), Put(VICTIM, OldLeader), Put(ANCHOR, OldLeader)]
  const LOG4: seq<Event> := LOG3 + [Put(STAMPED, Other)]
  const LOG5: seq<Event> := LOG4 + [Del("anchor", "a", "5")]

  lemma SmallNumbers()
    ensures IsDecimal("1") && IsDecimal("2") && IsDecimal("3") && IsDecimal("4") && IsDecimal("5")
    ensures Num("1") == 1 && Num("2") == 2 && Num("3") == 3 && Num("4") == 4 && Num("5") == 5
  {
    assert "1"[..0] == "2"[..0] == "3"[..0] == "4"[..0] == "5"[..0] == "";
  }

  lemma Log3Views()
    ensures Valid(LOG3) && !Mentions(LOG3[..1], "v") && !Mentions(LOG3[..2], "a")
    ensures Store(LOG3) == map["barrier" := BEFORE, "victim" := VICTIM, "anchor" := ANCHOR]
    ensures Live(LOG3) == map["b" := BEFORE, "v" := VICTIM, "a" := ANCHOR]
    ensures Cache(LOG3[..1]) == map[]
  {
    SmallNumbers();
    var one := [Put(BEFORE, Other)];
    var two := one + [Put(VICTIM, OldLeader)];
    assert LOG3[..2] == two && two[..1] == one && one[..0] == [] && LOG3[..1] == one;
    assert Valid([]) && Admissible([], Put(BEFORE, Other));
    assert one[..|one| - 1] == [];
    assert Valid(one);
    assert Store(one) == map["barrier" := BEFORE] && Live(one) == map["b" := BEFORE];
    assert Valid(two);
    assert Store(two) == map["barrier" := BEFORE, "victim" := VICTIM];
    assert Live(two) == map["b" := BEFORE, "v" := VICTIM];
  }

  lemma Log5Views()
    ensures Valid(LOG4) && Valid(LOG5)
    ensures Store(LOG4) == map["barrier" := STAMPED, "victim" := VICTIM, "anchor" := ANCHOR]
    ensures Live(LOG4) == map["b" := STAMPED, "v" := VICTIM, "a" := ANCHOR]
    ensures "anchor" !in Store(LOG5) && "v" in Live(LOG5)
    ensures Admissible(LOG3, Put(STAMPED, Other)) && Admissible(LOG4, Del("anchor", "a", "5"))
    ensures LOG4[..4] == LOG4 && LOG5[..4] == LOG4 && LOG5[..5] == LOG5
  {
    SmallNumbers();
    Log3Views();
    assert LOG4[..3] == LOG3 && LOG5[..4] == LOG4;
    assert LOG4[2] == LOG3[2] && LOG5[3] == LOG4[3];
    assert Live(LOG4) == map["b" := STAMPED, "v" := VICTIM, "a" := ANCHOR];
  }

  /** The listing at the snapshot has two scheduled pods; the newer is the anchor. */
  lemma Listing4()
    ensures Lists([STAMPED, VICTIM, ANCHOR], Store(LOG4))
    ensures LatestScheduled([STAMPED, VICTIM, ANCHOR]) == Some(ANCHOR)
  {
    Log5Views();
    var pods := [STAMPED, VICTIM, ANCHOR];
    assert pods[..2] == [STAMPED, VICTIM] && pods[..2][..1] == [STAMPED] && [STAMPED][..0] == [];
    assert LatestScheduled([STAMPED]) == None;
    assert LatestScheduled(pods[..2]) == Some(VICTIM);
    SmallNumbers();
    ReachedIsNumeric("3", "2");
    var store := Store(LOG4);
    assert store["barrier"] == STAMPED && store["victim"] == VICTIM && store["anchor"] == ANCHOR;
  }

  function At(log: seq<Event>, informer: nat, pc: Pc, target: string, anchor: Option<Pod>, snapshot: nat): State
  {
    State(log, informer, 1, pc, target, anchor, false, 3, snapshot)
  }

  const S0 := At(LOG3, 3, Idle, "", None, 0)
  const S1 := At(LOG3, 3, Patching, "", None, 0)
  const S2 := At(LOG4, 3, Getting, "4", None, 0)
  const S3 := At(LOG4, 4, Getting, "4", None, 0)
  const S4 := At(LOG4, 4, Listing, "4", None, 0)
  const S5 := At(LOG4, 4, CacheRead, "4", Some(ANCHOR), 4)
  const S6 := At(LOG5, 4, CacheRead, "4", Some(ANCHOR), 4)
  const S7 := At(LOG5, 5, CacheRead, "4", Some(ANCHOR), 4)
  const S8 := At(LOG5, 5, ListerRead, "4", Some(ANCHOR), 4)
  const S9 := At(LOG5, 5, Stopped(AnchorDeleted), "4", Some(ANCHOR), 4)

  lemma PatchStep()
    ensures Next(CFG, S1, S2)
  {
    Log3Views();
    Log5Views();
    assert AfterPatch(CFG, LOG3, "4") == LOG4;
    assert NextStep(CFG, S1, S2, Patch("4"));
  }

  lemma ListSteps()
    ensures Next(CFG, S3, S4) && Next(CFG, S4, S5)
  {
    Log5Views();
    Listing4();
    assert NextStep(CFG, S3, S4, Get);
    assert NextStep(CFG, S4, S5, List([STAMPED, VICTIM, ANCHOR]));
  }

  lemma StopSteps()
    ensures Next(CFG, S7, S8) && Next(CFG, S8, S9)
  {
    Log3Views();
    Log5Views();
    assert LOG5[..1] == LOG3[..1];
    assert NextStep(CFG, S7, S8, ReadCache);
    assert NextStep(CFG, S8, S9, ReadLister);
  }

  lemma MoveSteps()
    ensures Next(CFG, S0, S1) && Next(CFG, S2, S3) && Next(CFG, S5, S6) && Next(CFG, S6, S7)
  {
    Log5Views();
    assert NextStep(CFG, S0, S1, PollStart);
    assert NextStep(CFG, S2, S3, InformerSees);
    assert NextStep(CFG, S5, S6, ApiWrite(Del("anchor", "a", "5")));
    assert NextStep(CFG, S6, S7, InformerSees);
  }

  /** Ending because the anchor was deleted is not safe. In this run the informer
      sees the anchor's addition and deletion while the cache has seen neither,
      and a live binding of the previous leader is missed. */
  lemma AnchorDeletedIsUnsafe() returns (run: seq<State>)
    ensures IsRun(CFG, run)
    ensures run[|run| - 1].pc == Stopped(AnchorDeleted)
    ensures OldLeaderFenced(run[|run| - 1])
    ensures !NoBindingMissed(run[|run| - 1])
  {
    MissedAtS9();
    run := RunToAnchor();
    MoveSteps();
    RunExtends(CFG, run, S6);
    run := run + [S6];
    RunExtends(CFG, run, S7);
    run := run + [S7];
    StopSteps();
    RunExtends(CFG, run, S8);
    run := run + [S8];
    RunExtends(CFG, run, S9);
    run := run + [S9];
  }

  /** Up to the anchor snapshot. */
  lemma RunToAnchor() returns (run: seq<State>)
    ensures IsRun(CFG, run) && run[|run| - 1] == S5
  {
    assert Init(CFG, S0) by {
      Log3Views();
    }
    run := [S0];
    MoveSteps();
    RunExtends(CFG, run, S1);
    run := run + [S1];
    PatchStep();
    RunExtends(CFG, run, S2);
    run := run + [S2];
    RunExtends(CFG, run, S3);
    run := run + [S3];
    ListSteps();
    RunExtends(CFG, run, S4);
    run := run + [S4];
    RunExtends(CFG, run, S5);
    run := run + [S5];
  }

  lemma MissedAtS9()
    ensures OldLeaderFenced(S9) && !NoBindingMissed(S9)
  {
    Log3Views();
    Log5Views();
    SmallNumbers();
    ReachedIsNumeric("4", "2");
    ReachedIsNumeric("4", "3");
    assert S9.log[0] == Put(BEFORE, Other) && S9.log[1] == Put(VICTIM, OldLeader);
    assert S9.log[2] == Put(ANCHOR, OldLeader);
    assert S9.log[3] == Put(STAMPED, Other) && S9.log[4].Del?;
    assert BindsAt(S9.log, 1, "v", "n1");
    assert S9.log[..S9.cache] == LOG3[..1];
  }

  // --------------------------------------------------------- an exit as intended

  lemma Cache4()
    ensures "a" in Cache(LOG4) && Cache(LOG4)["a"] == ANCHOR && LOG4[..4] == LOG4
  {
    Log5Views();
    ViewsAgree(LOG4);
  }

  /** The same run ends by reaching the anchor when the cache catches up in time. */
  lemma BarrierSyncs() returns (run: seq<State>)
    ensures IsRun(CFG, run) && run[|run| - 1].pc == Stopped(CacheSynced)
  {
    run := RunToAnchor();
    var n := 1;
    while n < 4
      invariant 1 <= n <= 4 && IsRun(CFG, run) && run[|run| - 1] == S5.(cache := n)
    {
      assert NextStep(CFG, S5.(cache := n), S5.(cache := n + 1), CacheSees);
      RunExtends(CFG, run, S5.(cache := n + 1));
      run := run + [S5.(cache := n + 1)];
      n := n + 1;
    }
    Cache4();
    var end := S5.(cache := 4, pc := Stopped(CacheSynced));
    assert NextStep(CFG, S5.(cache := 4), end, ReadCache);
    RunExtends(CFG, run, end);
    run := run + [end];
  }

  // ------------------------------------------------- an anchor that is replaced

  ghost predicate Extends(s: State, t: State)
  {
    s.log <= t.log && s.cache <= t.cache && InBounds(t)
  }

  lemma StepExtends(cfg: Config, s: State, t: State, step: Step)
    requires InBounds(s) && NextStep(cfg, s, t, step)
    ensures Extends(s, t)
  {
  }

  /** The cache has processed the anchor's deletion. */
  ghost predicate AnchorGone(s: State)
  {
    && InBounds(s) && s.anchor.Some?
    && Mentions(s.log[..s.cache], s.anchor.value.uid)
    && s.anchor.value.uid !in Live(s.log[..s.cache])
  }

  lemma AnchorStaysGone(s: State, t: State)
    requires Valid(t.log) && AnchorGone(s) && Extends(s, t) && t.anchor == s.anchor
    ensures AnchorGone(t)
  {
    var uid := s.anchor.value.uid;
    var now := t.log[..t.cache];
    PrefixValid(t.log, t.cache);
    assert now[..s.cache] == s.log[..s.cache];
    GoneStaysGone(now, s.cache, uid);
    MentionsPrefix(now, s.cache, uid);
  }

  ghost predicate NameTaken(s: State, name: string)
  {
    InBounds(s) && name in Store(s.log[..s.informer])
  }

  ghost predicate NameTakenFrom(run: seq<State>, j: nat, name: string)
  {
    forall m :: j <= m < |run| ==> NameTaken(run[m], name)
  }

  /** The m-th step looks the anchor up in the lister and finds no pod of its name. */
  ghost predicate NameMissed(cfg: Config, run: seq<State>, m: nat)
    requires m < |run| - 1 && InBounds(run[m])
  {
    && NextStep(cfg, run[m], run[m + 1], ReadLister)
    && run[m].anchor.value.name !in Store(run[m].log[..run[m].informer])
  }

  ghost predicate EndedOtherwise(s: State)
  {
    s.pc.Stopped? && s.pc.reason != TimedOut
  }

  /** Once the anchor is gone from the cache, a step ends the barrier otherwise than
      by timeout only if the lister finds no pod of the anchor's name. */
  lemma GoneAnchorStep(cfg: Config, s: State, t: State, step: Step)
    requires Inv(cfg, s) && AnchorGone(s) && NextStep(cfg, s, t, step)
    requires !EndedOtherwise(s) && EndedOtherwise(t)
    ensures step == ReadLister && s.anchor.value.name !in Store(s.log[..s.informer])
  {
    PrefixValid(s.log, s.cache);
    ViewsAgree(s.log[..s.cache]);
  }

  lemma RunStepExtends(cfg: Config, run: seq<State>, k: nat)
    requires IsRun(cfg, run) && k < |run| - 1
    ensures Extends(run[k], run[k + 1])
  {
    assert StepAt(cfg, run, k);
    var step :| NextStep(cfg, run[k], run[k + 1], step);
    StepExtends(cfg, run[k], run[k + 1], step);
  }

  lemma {:induction false} RunOnlyExtends(cfg: Config, run: seq<State>, j: nat, k: nat)
    requires IsRun(cfg, run) && j <= k < |run|
    ensures Extends(run[j], run[k])
  {
    if j < k {
      RunOnlyExtends(cfg, run, j, k - 1);
      RunStepExtends(cfg, run, k - 1);
    }
  }

  lemma AnchorStaysGoneInRun(cfg: Config, run: seq<State>, j: nat, k: nat)
    requires IsRun(cfg, run) && j <= k < |run| && AnchorGone(run[j])
    ensures AnchorGone(run[k]) && run[k].anchor == run[j].anchor
  {
    WrittenOnce(cfg, run, j, k);
    RunOnlyExtends(cfg, run, j, k);
    RunKeepsInv(cfg, run, k);
    AnchorStaysGone(run[j], run[k]);
  }

  lemma {:induction false} EndedByMiss(cfg: Config, run: seq<State>, j: nat, k: nat) returns (m: nat)
    requires IsRun(cfg, run) && j <= k < |run| && AnchorGone(run[j])
    requires !run[j].pc.Stopped? && EndedOtherwise(run[k])
    ensures j <= m < k && NameMissed(cfg, run, m)
  {
    if EndedOtherwise(run[k - 1]) {
      m := EndedByMiss(cfg, run, j, k - 1);
    } else {
      m := k - 1;
      AnchorStaysGoneInRun(cfg, run, j, m);
      RunKeepsInv(cfg, run, m);
      assert StepAt(cfg, run, m);
      var step :| NextStep(cfg, run[m], run[m + 1], step);
      GoneAnchorStep(cfg, run[m], run[m + 1], step);
    }
  }

  /** From the moment the cache has processed the anchor's deletion, a run has ended
      otherwise than by timeout exactly when the lister has been asked for the
      anchor's name at a time when no pod, old or new, had it. */
  lemma GoneAnchorEndsExactly(cfg: Config, run: seq<State>, j: nat, k: nat)
    requires IsRun(cfg, run) && j <= k < |run|
    requires AnchorGone(run[j]) && !run[j].pc.Stopped?
    ensures EndedOtherwise(run[k]) <==> exists m :: j <= m < k && NameMissed(cfg, run, m)
  {
    if EndedOtherwise(run[k]) {
      var m := EndedByMiss(cfg, run, j, k);
    }
    if m :| j <= m < k && NameMissed(cfg, run, m) {
      WrittenOnce(cfg, run, m + 1, k);
    }
  }

  /** So while some pod has the anchor's name, the barrier can only time out. */
  lemma ReplacedAnchorStalls(cfg: Config, run: seq<State>, j: nat, k: nat)
    requires IsRun(cfg, run) && j <= k < |run|
    requires AnchorGone(run[j]) && !run[j].pc.Stopped?
    requires NameTakenFrom(run[..k + 1], j, run[j].anchor.value.name)
    ensures AnchorGone(run[k]) && !EndedOtherwise(run[k])
  {
    AnchorStaysGoneInRun(cfg, run, j, k);
    GoneAnchorEndsExactly(cfg, run, j, k);
    forall m | j <= m < k
      ensures !NameMissed(cfg, run, m)
    {
      AnchorStaysGoneInRun(cfg, run, j, m);
      assert NameTaken(run[..k + 1][m], run[j].anchor.value.name);
    }
  }

  // That happens: the anchor is deleted, a new pod takes its name, and the informer
  // and the cache see both.

  const SUCCESSOR := Pod("anchor", "a2", "", "6", "")
  const LOG6: seq<Event> := LOG5 + [Put(SUCCESSOR, Other)]
  const R0 := At(LOG6, 5, CacheRead, "4", Some(ANCHOR), 4)

  /** The informer has seen everything and the cache the first `cache` events. */
  function Replaced(cache: nat, pc: Pc): State
  {
    At(LOG6, 6, pc, "4", Some(ANCHOR), 4).(cache := cache)
  }

  lemma Log6Views()
    ensures Valid(LOG6) && Admissible(LOG5, Put(SUCCESSOR, Other)) && LOG6[..6] == LOG6
    ensures "anchor" in Store(LOG6) && Mentions(LOG6, "a") && "a" !in Live(LOG6) && "a" !in Cache(LOG6)
  {
    SmallNumbers();
    assert IsDecimal("6") && Num("6") == 6 by {
      assert "6"[..0] == "";
    }
    Log5Views();
    assert LOG6[..5] == LOG5 && LOG5[..4] == LOG4;
    assert LOG5[4] == Del("anchor", "a", "5");
    assert !Mentions(LOG5, "a2");
    assert LOG6[2] == Put(ANCHOR, OldLeader);
    ViewsAgree(LOG6);
  }

  lemma RunToReplaced() returns (run: seq<State>)
    ensures IsRun(CFG, run) && run[|run| - 1] == Replaced(1, CacheRead)
  {
    run := RunToAnchor();
    MoveSteps();
    RunExtends(CFG, run, S6);
    run := run + [S6];
    RunExtends(CFG, run, S7);
    run := run + [S7];
    Log6Views();
    assert NextStep(CFG, S7, R0, ApiWrite(Put(SUCCESSOR, Other)));
    RunExtends(CFG, run, R0);
    run := run + [R0];
    assert NextStep(CFG, R0, Replaced(1, CacheRead), InformerSees);
    RunExtends(CFG, run, Replaced(1, CacheRead));
    run := run + [Replaced(1, CacheRead)];
  }

  lemma {:induction false} RunToCaughtUp(cache: nat) returns (run: seq<State>)
    requires 1 <= cache <= 6
    ensures IsRun(CFG, run) && run[|run| - 1] == Replaced(cache, CacheRead)
  {
    if cache == 1 {
      run := RunToReplaced();
    } else {
      run := RunToCaughtUp(cache - 1);
      assert NextStep(CFG, Replaced(cache - 1, CacheRead), Replaced(cache, CacheRead), CacheSees);
      RunExtends(CFG, run, Replaced(cache, CacheRead));
      run := run + [Replaced(cache, CacheRead)];
    }
  }

  lemma PollSteps()
    ensures Next(CFG, Replaced(6, CacheRead), Replaced(6, ListerRead))
    ensures Next(CFG, Replaced(6, ListerRead), Replaced(6, Idle))
    ensures Next(CFG, Replaced(6, Idle), Replaced(6, CacheRead))
  {
    Log6Views();
    assert NextStep(CFG, Replaced(6, CacheRead), Replaced(6, ListerRead), ReadCache);
    assert NextStep(CFG, Replaced(6, ListerRead), Replaced(6, Idle), ReadLister);
    assert NextStep(CFG, Replaced(6, Idle), Replaced(6, CacheRead), PollStart);
  }

  const POLL := [Replaced(6, ListerRead), Replaced(6, Idle), Replaced(6, CacheRead)]

  lemma OnePoll(run: seq<State>)
    requires IsRun(CFG, run) && run[|run| - 1] == Replaced(6, CacheRead)
    ensures IsRun(CFG, run + POLL)
  {
    PollSteps();
    RunExtends(CFG, run, POLL[0]);
    RunExtends(CFG, run + [POLL[0]], POLL[1]);
    RunExtends(CFG, run + [POLL[0]] + [POLL[1]], POLL[2]);
    assert run + POLL == run + [POLL[0]] + [POLL[1]] + [POLL[2]];
  }

  lemma ReplacedFacts(pc: Pc)
    ensures AnchorGone(Replaced(6, pc)) && NameTaken(Replaced(6, pc), "anchor")
  {
    Log6Views();
  }

  lemma NameTakenOn(run: seq<State>, j: nat)
    requires NameTakenFrom(run, j, "anchor")
    ensures NameTakenFrom(run + POLL, j, "anchor")
  {
    ReplacedFacts(ListerRead);
    ReplacedFacts(Idle);
    ReplacedFacts(CacheRead);
  }

  /** For every number of polls some run makes them all from position `j` on, with
      an anchor that is gone and replaced, and has not ended. */
  lemma {:induction false} ReplacedAnchorReached(polls: nat) returns (run: seq<State>, j: nat)
    ensures IsRun(CFG, run) && j + 3 * polls == |run| - 1
    ensures run[j] == run[|run| - 1] == Replaced(6, CacheRead)
    ensures AnchorGone(run[j]) && NameTakenFrom(run, j, run[j].anchor.value.name)
  {
    ReplacedFacts(CacheRead);
    if polls == 0 {
      run := RunToCaughtUp(6);
      j := |run| - 1;
    } else {
      run, j := ReplacedAnchorReached(polls - 1);
      OnePoll(run);
      NameTakenOn(run, j);
      run := run + POLL;
    }
  }
}
