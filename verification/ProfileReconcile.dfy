/** The colocation-profile reconciler's loop over pods: a cache of updated pods,
    a rate limiter and a summary. */
module ProfileReconcile {
  import opened Options
  import opened ProfileMutation

  /** A pod as listed. */
  datatype Pod = Pod(uid: string, node: string, phase: string, labels: Labels)

  /** How an update ends: the mutation fails, the patch fails, which does not tell
      whether it was applied, or the patch is answered. */
  datatype Update = MutateFailed | PatchFailed(applied: bool) | Patched

  /** What the outside does around one pod: cache entries that have expired by
      now, the random draw, the rate limiter, what the mutation makes of the labels
      and whether it changes anything else, and the update. */
  datatype Env = Env(
    expired: set<string>, draw: int, allowed: bool, mutated: Labels, otherChanged: bool, update: Update)

  /** The profile's version, its scaled probability, none if that is invalid, and
      what it does to pods. */
  datatype Profile = Profile(rv: string, percent: Option<int>, spec: Spec)

  datatype Summary = Summary(desired: nat, succeeded: nat, changed: nat, rateLimited: nat, skipped: nat, cached: nat)

  predicate Pending(pod: Pod)
  {
    pod.node == "" && pod.phase == "Pending"
  }

  predicate ShouldSkip(percent: int, draw: int)
  {
    percent == 0 || (percent != 100 && draw > percent)
  }

  /** For how many of the draws below `n` the profile applies. */
  function Applied(percent: int, n: nat): nat
  {
    if n == 0 then 0 else Applied(percent, n - 1) + if ShouldSkip(percent, n - 1) then 0 else 1
  }

  lemma {:induction false} AppliedUpTo(percent: int, n: nat)
    requires 0 < percent < 100
    ensures Applied(percent, n) == if n <= percent + 1 then n else percent + 1
  {
    if n > 0 {
      AppliedUpTo(percent, n - 1);
    }
  }

  lemma {:induction false} AppliedEnds(n: nat)
    ensures Applied(0, n) == 0 && Applied(100, n) == n
  {
    if n > 0 {
      AppliedEnds(n - 1);
    }
  }

  /** Of the hundred possible draws, a probability of `percent` applies the
      profile to exactly `percent` only at 0 and 100; in between it is one more. */
  lemma ProbabilityIsOneOff(percent: int)
    requires 0 <= percent <= 100
    ensures Applied(percent, 100) == percent <==> percent == 0 || percent == 100
    ensures 0 < percent < 100 ==> Applied(percent, 100) == percent + 1
  {
    AppliedEnds(100);
    if 0 < percent < 100 {
      AppliedUpTo(percent, 100);
    }
  }

  function UpdateKey(rv: string, uid: string): string
  {
    rv + "/" + uid
  }

  predicate IsAllSucceeded(s: Summary)
  {
    s.succeeded >= s.desired
  }

  // ----------------------------------------------------------- one pod, one round

  datatype Outcome =
    | NotPending | Aborted | Skipped | Cached | RateLimited
    | UpdateFailed(applied: bool) | Succeeded(changed: bool)

  function Decide(profile: Profile, live: set<string>, pod: Pod, env: Env): Outcome
  {
    if !Pending(pod) then NotPending
    else if profile.percent.None? then Aborted
    else if ShouldSkip(profile.percent.value, env.draw) then Skipped
    else if UpdateKey(profile.rv, pod.uid) in live then Cached
    else if !env.allowed then RateLimited
    else if env.update.MutateFailed? then UpdateFailed(false)
    else if env.mutated == pod.labels && !env.otherChanged then Succeeded(false)
    else if env.update.PatchFailed? then UpdateFailed(env.update.applied)
    else Succeeded(true)
  }

  /** Whether the API server applies a patch. */
  predicate Lands(o: Outcome)
  {
    o == UpdateFailed(true) || o == Succeeded(true)
  }

  datatype Visit = Visit(pod: Pod, env: Env)

  /** The cache of updated pods, and the pods' labels at the API server. */
  datatype World = World(cache: set<string>, labels: map<string, Labels>)

  /** How far a round has come: the world, and what happened to each pod. */
  datatype Progress = Progress(world: World, outcomes: seq<Outcome>)

  /** The merge patch holds what the mutation has changed in the listed labels. */
  function MergePatch(listed: Labels, mutated: Labels): Labels
  {
    map k | k in mutated && (k !in listed || listed[k] != mutated[k]) :: mutated[k]
  }

  function AfterPatch(labels: map<string, Labels>, v: Visit): map<string, Labels>
  {
    var uid := v.pod.uid;
    if uid in labels then labels[uid := labels[uid] + MergePatch(v.pod.labels, v.env.mutated)] else labels
  }

  function AfterVisit(profile: Profile, w: World, v: Visit): World
  {
    var live := w.cache - v.env.expired;
    var o := Decide(profile, live, v.pod, v.env);
    World(if o.Succeeded? then live + {UpdateKey(profile.rv, v.pod.uid)} else live,
          if Lands(o) then AfterPatch(w.labels, v) else w.labels)
  }

  function Visited(profile: Profile, p: Progress, v: Visit): Progress
  {
    Progress(AfterVisit(profile, p.world, v),
             p.outcomes + [Decide(profile, p.world.cache - v.env.expired, v.pod, v.env)])
  }

  function RoundOf(profile: Profile, w: World, visits: seq<Visit>): Progress
  {
    if visits == [] then Progress(w, [])
    else Visited(profile, RoundOf(profile, w, visits[..|visits| - 1]), visits[|visits| - 1])
  }

  /** How often an outcome occurs. */
  function Times(outcomes: seq<Outcome>, o: Outcome): nat
  {
    if outcomes == [] then 0
    else Times(outcomes[..|outcomes| - 1], o) + if outcomes[|outcomes| - 1] == o then 1 else 0
  }

  function Failures(outcomes: seq<Outcome>): nat
  {
    Times(outcomes, UpdateFailed(true)) + Times(outcomes, UpdateFailed(false))
  }

  function PendingPods(visits: seq<Visit>): nat
  {
    if visits == [] then 0
    else PendingPods(visits[..|visits| - 1]) + if Pending(visits[|visits| - 1].pod) then 1 else 0
  }

  /** The summary after the outcomes of a round. */
  function Summarize(outcomes: seq<Outcome>): Summary
  {
    if outcomes == [] then Summary(0, 0, 0, 0, 0, 0)
    else Counted(Summarize(outcomes[..|outcomes| - 1]), outcomes[|outcomes| - 1])
  }

  function Counted(s: Summary, o: Outcome): Summary
  {
    match o
    case Skipped => s.(skipped := s.skipped + 1)
    case Cached => s.(cached := s.cached + 1)
    case RateLimited => s.(desired := s.desired + 1, rateLimited := s.rateLimited + 1)
    case UpdateFailed(_) => s.(desired := s.desired + 1)
    case Succeeded(changed) =>
      s.(desired := s.desired + 1, succeeded := s.succeeded + 1, changed := s.changed + if changed then 1 else 0)
    case _ => s
  }

  lemma SummarizeAppend(outcomes: seq<Outcome>, o: Outcome)
    ensures Summarize(outcomes + [o]) == Counted(Summarize(outcomes), o)
  {
    assert (outcomes + [o])[..|outcomes|] == outcomes;
  }

  /** The first `i` visits of a round. */
  function RoundUpTo(profile: Profile, w: World, visits: seq<Visit>, i: nat): Progress
    requires i <= |visits|
  {
    if i == 0 then Progress(w, []) else Visited(profile, RoundUpTo(profile, w, visits, i - 1), visits[i - 1])
  }

  lemma {:induction false} UpToIsPrefix(profile: Profile, w: World, visits: seq<Visit>, i: nat)
    requires i <= |visits|
    ensures RoundUpTo(profile, w, visits, i) == RoundOf(profile, w, visits[..i])
  {
    if i > 0 {
      UpToIsPrefix(profile, w, visits, i - 1);
      assert visits[..i][..i - 1] == visits[..i - 1];
    }
  }

  lemma UpToIsRound(profile: Profile, w: World, visits: seq<Visit>)
    ensures RoundUpTo(profile, w, visits, |visits|) == RoundOf(profile, w, visits)
  {
    UpToIsPrefix(profile, w, visits, |visits|);
    assert visits[..|visits|] == visits;
  }

  lemma RoundStep(profile: Profile, w: World, visits: seq<Visit>, i: nat)
    requires i < |visits|
    ensures var before, after := RoundUpTo(profile, w, visits, i), RoundUpTo(profile, w, visits, i + 1);
            var v := visits[i];
            && after.world == AfterVisit(profile, before.world, v)
            && Summarize(after.outcomes) ==
                 Counted(Summarize(before.outcomes), Decide(profile, before.world.cache - v.env.expired, v.pod, v.env))
  {
    var before, v := RoundUpTo(profile, w, visits, i), visits[i];
    SummarizeAppend(before.outcomes, Decide(profile, before.world.cache - v.env.expired, v.pod, v.env));
  }

  // ---------------------------------------------------------- what a visit comes to

  /** What a summary counts. */
  datatype Count = OfDesired | OfSucceeded | OfChanged | OfRateLimited | OfSkipped | OfCached

  /** The pod is pending and the draw applies the profile to it. */
  predicate Due(profile: Profile, v: Visit)
  {
    && v.pod.node == "" && v.pod.phase == "Pending" && profile.percent.Some?
    && (profile.percent.value == 100 || (profile.percent.value != 0 && v.env.draw <= profile.percent.value))
  }

  predicate Changes(v: Visit)
  {
    v.env.mutated != v.pod.labels || v.env.otherChanged
  }

  /** The visit is counted, with these cache entries live. */
  predicate IsCounted(profile: Profile, live: set<string>, v: Visit, c: Count)
  {
    var wanted := Due(profile, v) && profile.rv + "/" + v.pod.uid !in live;
    var done := wanted && v.env.allowed && !v.env.update.MutateFailed? && (Changes(v) ==> v.env.update == Patched);
    match c
    case OfDesired => wanted
    case OfSucceeded => done
    case OfChanged => done && Changes(v)
    case OfRateLimited => wanted && !v.env.allowed
    case OfSkipped => v.pod.node == "" && v.pod.phase == "Pending" && profile.percent.Some? && !Due(profile, v)
    case OfCached => Due(profile, v) && profile.rv + "/" + v.pod.uid in live
  }

  /** How many visits of a round are counted. */
  function CountVisits(profile: Profile, w: World, visits: seq<Visit>, c: Count): nat
  {
    if visits == [] then 0
    else
      var front, v := visits[..|visits| - 1], visits[|visits| - 1];
      var live := RoundOf(profile, w, front).world.cache - v.env.expired;
      CountVisits(profile, w, front, c) + if IsCounted(profile, live, v, c) then 1 else 0
  }

  function CountsOf(profile: Profile, w: World, visits: seq<Visit>): Summary
  {
    Summary(CountVisits(profile, w, visits, OfDesired), CountVisits(profile, w, visits, OfSucceeded),
            CountVisits(profile, w, visits, OfChanged), CountVisits(profile, w, visits, OfRateLimited),
            CountVisits(profile, w, visits, OfSkipped), CountVisits(profile, w, visits, OfCached))
  }

  lemma OutcomeCounted(profile: Profile, live: set<string>, v: Visit, s: Summary)
    ensures Counted(s, Decide(profile, live, v.pod, v.env)) ==
            Summary(s.desired + if IsCounted(profile, live, v, OfDesired) then 1 else 0,
                    s.succeeded + if IsCounted(profile, live, v, OfSucceeded) then 1 else 0,
                    s.changed + if IsCounted(profile, live, v, OfChanged) then 1 else 0,
                    s.rateLimited + if IsCounted(profile, live, v, OfRateLimited) then 1 else 0,
                    s.skipped + if IsCounted(profile, live, v, OfSkipped) then 1 else 0,
                    s.cached + if IsCounted(profile, live, v, OfCached) then 1 else 0)
  {
  }

  /** Each number of the summary counts the visits it is meant for: skipped are the
      pending pods that the draw leaves out, cached those with a live entry, desired
      the rest; of these, rate limited are those refused, succeeded those allowed whose
      update ends without an error, and changed those it has patched. */
  lemma {:induction false} SummaryCounts(profile: Profile, w: World, visits: seq<Visit>)
    ensures Summarize(RoundOf(profile, w, visits).outcomes) == CountsOf(profile, w, visits)
  {
    if visits != [] {
      var front, v := visits[..|visits| - 1], visits[|visits| - 1];
      SummaryCounts(profile, w, front);
      var before := RoundOf(profile, w, front);
      var live := before.world.cache - v.env.expired;
      SummarizeAppend(before.outcomes, Decide(profile, live, v.pod, v.env));
      OutcomeCounted(profile, live, v, Summarize(before.outcomes));
    }
  }

  /** What a visit does to the cache: expired entries go, and a success makes one. */
  lemma VisitCache(profile: Profile, w: World, v: Visit)
    ensures var live := w.cache - v.env.expired;
            AfterVisit(profile, w, v).cache ==
              if IsCounted(profile, live, v, OfSucceeded) then live + {profile.rv + "/" + v.pod.uid} else live
  {
  }

  /** What it does to the labels at the API server: it changes them only if the pod is
      desired, allowed and changed by the mutation, and the patch is answered or was
      applied without an answer. */
  lemma VisitLabels(profile: Profile, w: World, v: Visit)
    ensures var patched := && IsCounted(profile, w.cache - v.env.expired, v, OfDesired) && v.env.allowed && Changes(v)
                           && (v.env.update == Patched || v.env.update == PatchFailed(true));
            AfterVisit(profile, w, v).labels == if patched then AfterPatch(w.labels, v) else w.labels
  {
  }

  /** A pod that is not pending, has a live entry or is refused by the rate limiter is left
      alone, and so is every pod by a profile of probability 0. */
  lemma LeftAlone(profile: Profile, w: World, v: Visit)
    ensures v.pod.node != "" || v.pod.phase != "Pending" || profile.percent == Some(0) || !v.env.allowed
            || profile.rv + "/" + v.pod.uid in w.cache - v.env.expired ==>
              AfterVisit(profile, w, v).labels == w.labels && AfterVisit(profile, w, v).cache <= w.cache
  {
  }

  /** A patch writes the labels that the mutation has changed in the listed ones, into
      the pod as it is, and touches nothing else. */
  lemma PatchWrites(labels: map<string, Labels>, v: Visit, uid: string, k: string)
    requires uid in labels
    ensures var after, listed, mutated := AfterPatch(labels, v), v.pod.labels, v.env.mutated;
            && after.Keys == labels.Keys
            && if uid == v.pod.uid && k in mutated && (k in listed ==> listed[k] != mutated[k]) then
                 k in after[uid] && after[uid][k] == mutated[k]
               else
                 (k in after[uid] <==> k in labels[uid]) && (k in labels[uid] ==> after[uid][k] == labels[uid][k])
  {
  }

  class Reconciler {
    var podUpdateCache: set<string>
    /** The API server's side of the client. */
    var podLabels: map<string, Labels>

    constructor (podLabels: map<string, Labels>)
      ensures State() == World({}, podLabels)
    {
      podUpdateCache := {};
      this.podLabels := podLabels;
    }

    ghost function State(): World
      reads this
    {
      World(podUpdateCache, podLabels)
    }

    method PatchPod(v: Visit)
      modifies this
      ensures State() == old(State()).(labels := AfterPatch(old(podLabels), v))
    {
      if v.pod.uid in podLabels {
        podLabels := podLabels[v.pod.uid := podLabels[v.pod.uid] + MergePatch(v.pod.labels, v.env.mutated)];
      }
    }

    /** `isUpdated` is meaningful without an error only. */
    method UpdatePod(v: Visit) returns (isUpdated: bool, err: bool)
      modifies this
      ensures podUpdateCache == old(podUpdateCache)
      ensures err <==> v.env.update.MutateFailed?
                       || ((v.env.mutated != v.pod.labels || v.env.otherChanged) && v.env.update.PatchFailed?)
      ensures !err ==> (isUpdated <==> v.env.mutated != v.pod.labels || v.env.otherChanged)
      ensures var o := if err then UpdateFailed(v.env.update.PatchFailed? && v.env.update.applied)
                       else Succeeded(isUpdated);
              podLabels == if Lands(o) then AfterPatch(old(podLabels), v) else old(podLabels)
    {
      isUpdated, err := false, false;
      if v.env.update.MutateFailed? {
        err := true;
        return;
      }
      if v.env.mutated == v.pod.labels && !v.env.otherChanged {
        return;
      }
      if v.env.update.PatchFailed? {
        if v.env.update.applied {
          PatchPod(v);
        }
        err := true;
        return;
      }
      PatchPod(v);
      isUpdated := true;
    }

    /** The loop's body for one pod; `ok` is false on the error return. */
    method VisitPod(profile: Profile, v: Visit, was: Summary) returns (ok: bool, s: Summary)
      modifies this
      ensures ok <==> !(profile.percent.None? && Pending(v.pod))
      ensures s == Counted(was, Decide(profile, old(podUpdateCache) - v.env.expired, v.pod, v.env))
      ensures State() == AfterVisit(profile, old(State()), v)
      ensures profile.percent.None? ==> podUpdateCache <= old(podUpdateCache) && podLabels == old(podLabels)
    {
      ok, s := true, was;
      var pod, env := v.pod, v.env;
      podUpdateCache := podUpdateCache - env.expired;
      if !Pending(pod) {
        return;
      }
      if profile.percent.None? {
        ok := false;
        return;
      }
      if ShouldSkip(profile.percent.value, env.draw) {
        s := s.(skipped := s.skipped + 1);
        return;
      }
      if UpdateKey(profile.rv, pod.uid) in podUpdateCache {
        s := s.(cached := s.cached + 1);
        return;
      }
      s := s.(desired := s.desired + 1);
      if !env.allowed {
        s := s.(rateLimited := s.rateLimited + 1);
        return;
      }
      var isUpdated, err := UpdatePod(v);
      if err {
        return;
      }
      podUpdateCache := podUpdateCache + {UpdateKey(profile.rv, pod.uid)};
      s := s.(succeeded := s.succeeded + 1);
      if isUpdated {
        s := s.(changed := s.changed + 1);
      }
    }

    /** The loop over the pods. It stops with an error at the first pending pod of
        a profile whose probability is invalid. */
    method Reconcile(profile: Profile, visits: seq<Visit>) returns (summary: Option<Summary>)
      modifies this
      ensures summary.None? <==>
                && profile.percent.None?
                && exists i :: 0 <= i < |visits| && visits[i].pod.node == "" && visits[i].pod.phase == "Pending"
      ensures summary.None? ==> podUpdateCache <= old(podUpdateCache) && podLabels == old(podLabels)
      ensures summary.Some? ==>
                var round := RoundOf(profile, old(State()), visits);
                && State() == round.world && summary.value == Summarize(round.outcomes)
                && summary.value == CountsOf(profile, old(State()), visits)
    {
      var s := Summary(0, 0, 0, 0, 0, 0);
      ghost var start := State();
      for i := 0 to |visits|
        invariant profile.percent.None? ==> podUpdateCache <= start.cache && podLabels == start.labels
        invariant profile.percent.None? ==> forall k :: 0 <= k < i ==> !Pending(visits[k].pod)
        invariant State() == RoundUpTo(profile, start, visits, i).world
        invariant s == Summarize(RoundUpTo(profile, start, visits, i).outcomes)
      {
        RoundStep(profile, start, visits, i);
        var ok;
        ok, s := VisitPod(profile, visits[i], s);
        if !ok {
          return None;
        }
      }
      UpToIsRound(profile, start, visits);
      SummaryCounts(profile, start, visits);
      return Some(s);
    }
  }

  /** The outcomes add up: all but the pods that were not pending, or came after
      an invalid probability, are in the summary. */
  lemma {:induction false} OutcomesBalance(outcomes: seq<Outcome>)
    ensures var s := Summarize(outcomes);
            && |outcomes| == Times(outcomes, NotPending) + Times(outcomes, Aborted) + s.skipped + s.cached + s.desired
            && s.desired == s.rateLimited + s.succeeded + Failures(outcomes)
            && s.rateLimited == Times(outcomes, RateLimited)
  {
    if outcomes != [] {
      OutcomesBalance(outcomes[..|outcomes| - 1]);
    }
  }

  lemma {:induction false} PendingCounted(profile: Profile, w: World, visits: seq<Visit>)
    requires profile.percent.Some?
    ensures var outcomes := RoundOf(profile, w, visits).outcomes;
            && |outcomes| == |visits| && Times(outcomes, Aborted) == 0
            && PendingPods(visits) == |outcomes| - Times(outcomes, NotPending)
  {
    if visits != [] {
      var front, v := visits[..|visits| - 1], visits[|visits| - 1];
      PendingCounted(profile, w, front);
      var before := RoundOf(profile, w, front);
      TimesAppend(before.outcomes, Decide(profile, before.world.cache - v.env.expired, v.pod, v.env));
    }
  }

  lemma TimesAppend(outcomes: seq<Outcome>, o: Outcome)
    ensures forall k :: Times(outcomes + [o], k) == Times(outcomes, k) + if o == k then 1 else 0
  {
    assert (outcomes + [o])[..|outcomes|] == outcomes;
  }

  /** In a completed round every pending pod is skipped, cached or desired, every
      desired one is rate limited, failed or succeeded, and so all succeeded
      exactly when none was limited and none failed. */
  lemma SummaryBalances(profile: Profile, w: World, visits: seq<Visit>)
    requires profile.percent.Some?
    ensures var outcomes := RoundOf(profile, w, visits).outcomes;
            var s := Summarize(outcomes);
            && PendingPods(visits) == s.skipped + s.cached + s.desired
            && s.desired == s.rateLimited + s.succeeded + Failures(outcomes)
            && (IsAllSucceeded(s) <==> Times(outcomes, RateLimited) == 0 && Failures(outcomes) == 0)
  {
    PendingCounted(profile, w, visits);
    OutcomesBalance(RoundOf(profile, w, visits).outcomes);
  }

  // ------------------------------------------------------------- over many rounds

  datatype Round = Round(profile: Profile, visits: seq<Visit>)

  /** What happens to cache entries, in order; and patches that were applied although
      the update failed, which make no entry. */
  datatype Entry = Expire(keys: set<string>) | Success(key: string) | Lost(key: string)

  function VisitEntries(profile: Profile, w: World, v: Visit): seq<Entry>
  {
    var key := UpdateKey(profile.rv, v.pod.uid);
    match Decide(profile, w.cache - v.env.expired, v.pod, v.env)
    case Succeeded(_) => [Expire(w.cache * v.env.expired), Success(key)]
    case UpdateFailed(true) => [Expire(w.cache * v.env.expired), Lost(key)]
    case _ => [Expire(w.cache * v.env.expired)]
  }

  function RoundEntries(profile: Profile, w: World, visits: seq<Visit>): seq<Entry>
  {
    if visits == [] then []
    else
      var front := visits[..|visits| - 1];
      RoundEntries(profile, w, front) + VisitEntries(profile, RoundOf(profile, w, front).world, visits[|visits| - 1])
  }

  function AfterRounds(w: World, rounds: seq<Round>): World
  {
    if rounds == [] then w
    else
      var r := rounds[|rounds| - 1];
      RoundOf(r.profile, AfterRounds(w, rounds[..|rounds| - 1]), r.visits).world
  }

  function History(w: World, rounds: seq<Round>): seq<Entry>
  {
    if rounds == [] then []
    else
      var front, r := rounds[..|rounds| - 1], rounds[|rounds| - 1];
      History(w, front) + RoundEntries(r.profile, AfterRounds(w, front), r.visits)
  }

  /** Successes of a key, ends of its cache entry, and lost replies. */
  function Successes(h: seq<Entry>, key: string): nat
  {
    if h == [] then 0 else Successes(h[..|h| - 1], key) + if h[|h| - 1] == Success(key) then 1 else 0
  }

  function Expiries(h: seq<Entry>, key: string): nat
  {
    if h == [] then 0
    else Expiries(h[..|h| - 1], key) + if h[|h| - 1].Expire? && key in h[|h| - 1].keys then 1 else 0
  }

  function Losses(h: seq<Entry>, key: string): nat
  {
    if h == [] then 0 else Losses(h[..|h| - 1], key) + if h[|h| - 1] == Lost(key) then 1 else 0
  }

  lemma {:induction false} CountsAppend(h: seq<Entry>, more: seq<Entry>, key: string)
    ensures Successes(h + more, key) == Successes(h, key) + Successes(more, key)
    ensures Expiries(h + more, key) == Expiries(h, key) + Expiries(more, key)
    ensures Losses(h + more, key) == Losses(h, key) + Losses(more, key)
  {
    if more == [] {
      assert h + more == h;
    } else {
      CountsAppend(h, more[..|more| - 1], key);
      assert (h + more)[..|h + more| - 1] == h + more[..|more| - 1];
    }
  }

  function Live(w: World, key: string): nat
  {
    if key in w.cache then 1 else 0
  }

  lemma OneEntry(e: Entry, key: string)
    ensures Successes([e], key) == if e == Success(key) then 1 else 0
    ensures Expiries([e], key) == if e.Expire? && key in e.keys then 1 else 0
    ensures Losses([e], key) == if e == Lost(key) then 1 else 0
  {
    assert [e][..0] == [];
  }

  lemma TwoEntries(e: Entry, f: Entry, key: string)
    ensures Successes([e, f], key) == Successes([e], key) + Successes([f], key)
    ensures Expiries([e, f], key) == Expiries([e], key) + Expiries([f], key)
    ensures Losses([e, f], key) == Losses([e], key) + Losses([f], key)
    ensures Successes([f], key) == if f == Success(key) then 1 else 0
    ensures Expiries([f], key) == if f.Expire? && key in f.keys then 1 else 0
    ensures Losses([f], key) == if f == Lost(key) then 1 else 0
  {
    assert [e] + [f] == [e, f];
    CountsAppend([e], [f], key);
    OneEntry(f, key);
  }

  /** What one visit adds to the counts of a key. */
  lemma VisitCounts(profile: Profile, w: World, v: Visit, key: string)
    ensures var h := VisitEntries(profile, w, v);
            var o := Decide(profile, w.cache - v.env.expired, v.pod, v.env);
            var mine := key == UpdateKey(profile.rv, v.pod.uid);
            && Successes(h, key) == (if o.Succeeded? && mine then 1 else 0)
            && Losses(h, key) == (if o == UpdateFailed(true) && mine then 1 else 0)
            && Expiries(h, key) == (if key in w.cache && key in v.env.expired then 1 else 0)
  {
    var expired := Expire(w.cache * v.env.expired);
    OneEntry(expired, key);
    match Decide(profile, w.cache - v.env.expired, v.pod, v.env) {
      case Succeeded(_) => TwoEntries(expired, Success(UpdateKey(profile.rv, v.pod.uid)), key);
      case UpdateFailed(true) => TwoEntries(expired, Lost(UpdateKey(profile.rv, v.pod.uid)), key);
      case _ =>
    }
  }

  /** Each success of a key begins a lifetime of its cache entry. */
  lemma VisitBalances(profile: Profile, w: World, v: Visit, key: string)
    ensures var h := VisitEntries(profile, w, v);
            Live(w, key) + Successes(h, key) == Expiries(h, key) + Live(AfterVisit(profile, w, v), key)
  {
    VisitCounts(profile, w, v, key);
  }

  lemma {:induction false} RoundBalances(profile: Profile, w: World, visits: seq<Visit>, key: string)
    ensures var h := RoundEntries(profile, w, visits);
            Live(w, key) + Successes(h, key) == Expiries(h, key) + Live(RoundOf(profile, w, visits).world, key)
  {
    if visits != [] {
      var front, v := visits[..|visits| - 1], visits[|visits| - 1];
      RoundBalances(profile, w, front, key);
      var before := RoundOf(profile, w, front).world;
      VisitBalances(profile, before, v, key);
      CountsAppend(RoundEntries(profile, w, front), VisitEntries(profile, before, v), key);
    }
  }

  /** Over any rounds, a profile version updates a pod successfully as often as its
      cache entry begins: at most once per lifetime of the entry. */
  lemma {:induction false} UpdatedOncePerLifetime(w: World, rounds: seq<Round>, rv: string, uid: string)
    ensures var h, key := History(w, rounds), UpdateKey(rv, uid);
            && Live(w, key) + Successes(h, key) == Expiries(h, key) + Live(AfterRounds(w, rounds), key)
            && Successes(h, key) <= Expiries(h, key) + 1
  {
    if rounds != [] {
      var front, r := rounds[..|rounds| - 1], rounds[|rounds| - 1];
      UpdatedOncePerLifetime(w, front, rv, uid);
      RoundBalances(r.profile, AfterRounds(w, front), r.visits, UpdateKey(rv, uid));
      CountsAppend(History(w, front), RoundEntries(r.profile, AfterRounds(w, front), r.visits), UpdateKey(rv, uid));
    }
  }

  /** Where the first slash is, or the length if there is none. */
  function FirstSlash(s: string): nat
  {
    if s == "" || s[0] == '/' then 0 else 1 + FirstSlash(s[1..])
  }

  lemma {:induction false} FirstSlashOf(a: string, x: string)
    requires '/' !in a
    ensures FirstSlash(a + "/" + x) == |a|
  {
    if a != "" {
      assert a[0] in a;
      FirstSlashOf(a[1..], x);
      assert (a + "/" + x)[1..] == a[1..] + "/" + x;
    }
  }

  /** A cache key stands for one version and one pod, as versions contain no
      slash. */
  lemma KeysDistinct(rv1: string, uid1: string, rv2: string, uid2: string)
    requires '/' !in rv1 && '/' !in rv2 && UpdateKey(rv1, uid1) == UpdateKey(rv2, uid2)
    ensures rv1 == rv2 && uid1 == uid2
  {
    FirstSlashOf(rv1, uid1);
    FirstSlashOf(rv2, uid2);
    var key := UpdateKey(rv1, uid1);
    assert key[..|rv1|] == rv1 && key[..|rv1|] == rv2;
    assert key[|rv1| + 1..] == uid1 && key[|rv1| + 1..] == uid2;
  }
}
