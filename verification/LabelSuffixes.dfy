/** How often reconciling a colocation profile appends a label suffix: once for
    every patch that the API server applies, answered or not. */
module LabelSuffixes {
  import opened Options
  import opened ProfileMutation
  import opened ProfileReconcile

  /** The listing shows the pod as it is, and the mutation does what it does. */
  ghost predicate Faithful(profile: Profile, w: World, v: Visit)
  {
    && v.pod.uid in w.labels && v.pod.labels == w.labels[v.pod.uid]
    && LabelsMutated(profile.spec, v.pod.labels, v.env.mutated)
  }

  ghost predicate FaithfulRound(profile: Profile, w: World, visits: seq<Visit>)
  {
    visits == []
    || (var front := visits[..|visits| - 1];
        && FaithfulRound(profile, w, front)
        && Faithful(profile, RoundOf(profile, w, front).world, visits[|visits| - 1]))
  }

  ghost predicate FaithfulRounds(profile: Profile, w: World, rounds: seq<Round>)
  {
    rounds == []
    || (var front, r := rounds[..|rounds| - 1], rounds[|rounds| - 1];
        && FaithfulRounds(profile, w, front)
        && r.profile == profile && FaithfulRound(profile, AfterRounds(w, front), r.visits))
  }

  /** A label that the profile's suffix grows, if a pod has it. */
  predicate Grows(spec: Spec, key: string)
  {
    Plain(spec, key) && key in spec.labelSuffixes && spec.labelSuffixes[key] != ""
  }

  ghost predicate Suffixes(profile: Profile, w: World, uid: string, key: string)
  {
    uid in w.labels && key in w.labels[uid] && Grows(profile.spec, key)
  }

  /** A value with a suffix appended `n` times. */
  function Grown(value: string, suffix: string, n: nat): string
  {
    if n == 0 then value else Grown(value, suffix, n - 1) + suffix
  }

  lemma {:induction false} GrownTwice(value: string, suffix: string, m: nat, n: nat)
    ensures Grown(Grown(value, suffix, m), suffix, n) == Grown(value, suffix, m + n)
  {
    if n > 0 {
      GrownTwice(value, suffix, m, n - 1);
    }
  }

  lemma {:induction false} GrownLonger(value: string, suffix: string, m: nat, n: nat)
    requires suffix != "" && m < n
    ensures |Grown(value, suffix, m)| < |Grown(value, suffix, n)|
  {
    if m < n - 1 {
      GrownLonger(value, suffix, m, n - 1);
    }
  }

  /** The suffix has been appended `n` times between the two worlds. */
  ghost predicate Appended(profile: Profile, w: World, end: World, uid: string, key: string, n: nat)
    requires Suffixes(profile, w, uid, key)
  {
    && Suffixes(profile, end, uid, key)
    && end.labels[uid][key] == Grown(w.labels[uid][key], profile.spec.labelSuffixes[key], n)
  }

  lemma NothingAppended(profile: Profile, w: World, uid: string, key: string)
    requires Suffixes(profile, w, uid, key)
    ensures Appended(profile, w, w, uid, key, 0)
  {
  }

  /** Patches of a key that the API server has applied. */
  function Landed(h: seq<Entry>, key: string): nat
  {
    Successes(h, key) + Losses(h, key)
  }

  lemma AppendedAdds(profile: Profile, w: World, mid: World, end: World, uid: string, key: string, m: nat, n: nat)
    requires Suffixes(profile, w, uid, key) && Appended(profile, w, mid, uid, key, m)
    requires Appended(profile, mid, end, uid, key, n)
    ensures Appended(profile, w, end, uid, key, m + n)
  {
    GrownTwice(w.labels[uid][key], profile.spec.labelSuffixes[key], m, n);
  }

  lemma AppendedOn(
      profile: Profile, w: World, mid: World, end: World, uid: string, key: string,
      h: seq<Entry>, more: seq<Entry>, k: string)
    requires Suffixes(profile, w, uid, key) && Appended(profile, w, mid, uid, key, Landed(h, k))
    requires Appended(profile, mid, end, uid, key, Landed(more, k))
    ensures Appended(profile, w, end, uid, key, Landed(h + more, k))
  {
    CountsAppend(h, more, k);
    AppendedAdds(profile, w, mid, end, uid, key, Landed(h, k), Landed(more, k));
  }

  lemma AppendedUnique(profile: Profile, w: World, end: World, uid: string, key: string, m: nat, n: nat)
    requires Suffixes(profile, w, uid, key)
    requires Appended(profile, w, end, uid, key, m) && Appended(profile, w, end, uid, key, n)
    ensures m == n
  {
    if m < n {
      GrownLonger(w.labels[uid][key], profile.spec.labelSuffixes[key], m, n);
    } else if n < m {
      GrownLonger(w.labels[uid][key], profile.spec.labelSuffixes[key], n, m);
    }
  }

  lemma SameVersionKeys(rv: string, uid1: string, uid2: string)
    requires UpdateKey(rv, uid1) == UpdateKey(rv, uid2)
    ensures uid1 == uid2
  {
    assert UpdateKey(rv, uid1)[|rv| + 1..] == uid1 && UpdateKey(rv, uid2)[|rv| + 1..] == uid2;
  }

  /** A visit appends the suffix exactly when its patch lands. */
  lemma VisitAppends(profile: Profile, w: World, v: Visit, uid: string, key: string)
    requires Faithful(profile, w, v) && Suffixes(profile, w, uid, key)
    ensures var h, k := VisitEntries(profile, w, v), UpdateKey(profile.rv, uid);
            Appended(profile, w, AfterVisit(profile, w, v), uid, key, Landed(h, k))
  {
    if v.pod.uid == uid {
      PatchFrom(profile, w, w, v, key);
    } else {
      OtherPodsKept(profile, w, v, uid);
    }
  }

  lemma {:induction false} RoundAppends(profile: Profile, w: World, visits: seq<Visit>, uid: string, key: string)
    requires FaithfulRound(profile, w, visits) && Suffixes(profile, w, uid, key)
    ensures Appended(profile, w, RoundOf(profile, w, visits).world, uid, key,
                     Landed(RoundEntries(profile, w, visits), UpdateKey(profile.rv, uid)))
  {
    if visits == [] {
      NothingAppended(profile, w, uid, key);
    } else {
      var front, v := visits[..|visits| - 1], visits[|visits| - 1];
      RoundAppends(profile, w, front, uid, key);
      var mid := RoundOf(profile, w, front).world;
      VisitAppends(profile, mid, v, uid, key);
      AppendedOn(profile, w, mid, AfterVisit(profile, mid, v), uid, key,
                 RoundEntries(profile, w, front), VisitEntries(profile, mid, v), UpdateKey(profile.rv, uid));
    }
  }

  /** Over any rounds of one profile version, a suffix is appended once for every
      successful update and once for every patch that was applied without an
      answer. */
  lemma {:induction false} SuffixCount(profile: Profile, w: World, rounds: seq<Round>, uid: string, key: string)
    requires FaithfulRounds(profile, w, rounds) && Suffixes(profile, w, uid, key)
    ensures Appended(profile, w, AfterRounds(w, rounds), uid, key,
                     Landed(History(w, rounds), UpdateKey(profile.rv, uid)))
  {
    if rounds == [] {
      NothingAppended(profile, w, uid, key);
    } else {
      var front, r := rounds[..|rounds| - 1], rounds[|rounds| - 1];
      SuffixCount(profile, w, front, uid, key);
      var mid := AfterRounds(w, front);
      RoundAppends(profile, mid, r.visits, uid, key);
      AppendedOn(profile, w, mid, RoundOf(profile, mid, r.visits).world, uid, key,
                 History(w, front), RoundEntries(profile, mid, r.visits), UpdateKey(profile.rv, uid));
    }
  }

  ghost predicate AppendedAtMostOnce(profile: Profile, w: World, end: World, uid: string, key: string)
    requires Suffixes(profile, w, uid, key)
  {
    Appended(profile, w, end, uid, key, 0) || Appended(profile, w, end, uid, key, 1)
  }

  /** From a world without an entry for the pod, the suffix is appended at most once
      exactly when lost replies, ended entries and a live entry are together at most
      one. So without lost replies it is once per lifetime of the entry. */
  lemma SuffixOnceExactly(profile: Profile, w: World, rounds: seq<Round>, uid: string, key: string)
    requires FaithfulRounds(profile, w, rounds) && Suffixes(profile, w, uid, key)
    requires UpdateKey(profile.rv, uid) !in w.cache
    ensures var h, k, end := History(w, rounds), UpdateKey(profile.rv, uid), AfterRounds(w, rounds);
            AppendedAtMostOnce(profile, w, end, uid, key) <==> Losses(h, k) + Expiries(h, k) + Live(end, k) <= 1
  {
    SuffixCount(profile, w, rounds, uid, key);
    UpdatedOncePerLifetime(w, rounds, profile.rv, uid);
    OnceMeansOne(profile, w, AfterRounds(w, rounds), uid, key, Landed(History(w, rounds), UpdateKey(profile.rv, uid)));
  }

  lemma OnceMeansOne(profile: Profile, w: World, end: World, uid: string, key: string, n: nat)
    requires Suffixes(profile, w, uid, key) && Appended(profile, w, end, uid, key, n)
    ensures AppendedAtMostOnce(profile, w, end, uid, key) <==> n <= 1
  {
    if Appended(profile, w, end, uid, key, 0) {
      AppendedUnique(profile, w, end, uid, key, 0, n);
    }
    if Appended(profile, w, end, uid, key, 1) {
      AppendedUnique(profile, w, end, uid, key, 1, n);
    }
  }

  // ------------------------------------------------------- listings that lag behind

  /** The listing shows the pod as it was in one of the past worlds. */
  ghost predicate Lagging(profile: Profile, past: seq<World>, v: Visit)
  {
    && (exists j :: 0 <= j < |past| && v.pod.uid in past[j].labels && v.pod.labels == past[j].labels[v.pod.uid])
    && LabelsMutated(profile.spec, v.pod.labels, v.env.mutated)
  }

  /** The worlds that a round passes through, from its start to its end. */
  function RoundPast(profile: Profile, w: World, visits: seq<Visit>): seq<World>
  {
    if visits == [] then [w]
    else RoundPast(profile, w, visits[..|visits| - 1]) + [RoundOf(profile, w, visits).world]
  }

  function Past(w: World, rounds: seq<Round>): seq<World>
  {
    if rounds == [] then [w]
    else
      var front, r := rounds[..|rounds| - 1], rounds[|rounds| - 1];
      Past(w, front) + RoundPast(r.profile, AfterRounds(w, front), r.visits)
  }

  ghost predicate LaggingRound(profile: Profile, past: seq<World>, w: World, visits: seq<Visit>)
  {
    visits == []
    || (var front := visits[..|visits| - 1];
        && LaggingRound(profile, past, w, front)
        && Lagging(profile, past + RoundPast(profile, w, front), visits[|visits| - 1]))
  }

  ghost predicate LaggingRounds(profile: Profile, w: World, rounds: seq<Round>)
  {
    rounds == []
    || (var front, r := rounds[..|rounds| - 1], rounds[|rounds| - 1];
        && LaggingRounds(profile, w, front)
        && r.profile == profile && LaggingRound(profile, Past(w, front), AfterRounds(w, front), r.visits))
  }

  /** The suffix has been appended at most `n` times. */
  ghost predicate AppendedUpTo(profile: Profile, w: World, end: World, uid: string, key: string, n: nat)
    requires Suffixes(profile, w, uid, key)
  {
    exists m: nat :: m <= n && Appended(profile, w, end, uid, key, m)
  }

  ghost predicate AllUpTo(profile: Profile, w: World, past: seq<World>, uid: string, key: string, n: nat)
    requires Suffixes(profile, w, uid, key)
  {
    forall j :: 0 <= j < |past| ==> AppendedUpTo(profile, w, past[j], uid, key, n)
  }

  lemma UpToMore(profile: Profile, w: World, past: seq<World>, uid: string, key: string, m: nat, n: nat)
    requires Suffixes(profile, w, uid, key) && AllUpTo(profile, w, past, uid, key, m) && m <= n
    ensures AllUpTo(profile, w, past, uid, key, n)
  {
    forall j | 0 <= j < |past|
      ensures AppendedUpTo(profile, w, past[j], uid, key, n)
    {
      assert AppendedUpTo(profile, w, past[j], uid, key, m);
    }
  }

  lemma PatchedValue(labels: map<string, Labels>, v: Visit, key: string)
    requires v.pod.uid in labels && key in v.env.mutated && key in v.pod.labels
    requires v.env.mutated[key] != v.pod.labels[key]
    ensures var after := AfterPatch(labels, v);
            v.pod.uid in after && key in after[v.pod.uid] && after[v.pod.uid][key] == v.env.mutated[key]
  {
    assert key in MergePatch(v.pod.labels, v.env.mutated);
  }

  /** Where the mutation changes labels, exactly the patches that land change them. */
  lemma LandedLabels(profile: Profile, w: World, v: Visit)
    requires v.env.mutated != v.pod.labels
    ensures var n := Landed(VisitEntries(profile, w, v), UpdateKey(profile.rv, v.pod.uid));
            n <= 1 && AfterVisit(profile, w, v).labels == if n == 1 then AfterPatch(w.labels, v) else w.labels
  {
    VisitCounts(profile, w, v, UpdateKey(profile.rv, v.pod.uid));
  }

  /** A patch computed from an earlier world writes that world's value and one
      suffix; a visit that does not patch the pod leaves its label. */
  lemma PatchFrom(profile: Profile, was: World, w: World, v: Visit, key: string)
    requires Suffixes(profile, was, v.pod.uid, key) && Suffixes(profile, w, v.pod.uid, key)
    requires v.pod.labels == was.labels[v.pod.uid] && LabelsMutated(profile.spec, v.pod.labels, v.env.mutated)
    ensures var h, end := VisitEntries(profile, w, v), AfterVisit(profile, w, v);
            if Landed(h, UpdateKey(profile.rv, v.pod.uid)) == 0 then
              v.pod.uid in end.labels && end.labels[v.pod.uid] == w.labels[v.pod.uid]
            else
              Landed(h, UpdateKey(profile.rv, v.pod.uid)) == 1 && Appended(profile, was, end, v.pod.uid, key, 1)
  {
    PlainGrows(profile.spec, v.pod.labels, v.env.mutated, key);
    LandedLabels(profile, w, v);
    PatchedValue(w.labels, v, key);
  }

  lemma OtherPodsKept(profile: Profile, w: World, v: Visit, uid: string)
    requires uid in w.labels && v.pod.uid != uid
    ensures uid in AfterVisit(profile, w, v).labels && AfterVisit(profile, w, v).labels[uid] == w.labels[uid]
    ensures Landed(VisitEntries(profile, w, v), UpdateKey(profile.rv, uid)) == 0
  {
    VisitCounts(profile, w, v, UpdateKey(profile.rv, uid));
    if UpdateKey(profile.rv, uid) == UpdateKey(profile.rv, v.pod.uid) {
      SameVersionKeys(profile.rv, uid, v.pod.uid);
    }
  }

  lemma SameLabels(profile: Profile, w: World, mid: World, end: World, uid: string, key: string, n: nat)
    requires Suffixes(profile, w, uid, key) && AppendedUpTo(profile, w, mid, uid, key, n)
    requires uid in mid.labels && uid in end.labels && end.labels[uid] == mid.labels[uid]
    ensures AppendedUpTo(profile, w, end, uid, key, n)
  {
    var m: nat :| m <= n && Appended(profile, w, mid, uid, key, m);
    assert Appended(profile, w, end, uid, key, m);
  }

  lemma LaggingVisit(
      profile: Profile, start: World, past: seq<World>, w: World, v: Visit, uid: string, key: string, n: nat)
    requires Suffixes(profile, start, uid, key) && Lagging(profile, past, v)
    requires AllUpTo(profile, start, past, uid, key, n) && AppendedUpTo(profile, start, w, uid, key, n)
    ensures AppendedUpTo(profile, start, AfterVisit(profile, w, v), uid, key,
                         n + Landed(VisitEntries(profile, w, v), UpdateKey(profile.rv, uid)))
  {
    var end := AfterVisit(profile, w, v);
    if v.pod.uid != uid {
      OtherPodsKept(profile, w, v, uid);
      SameLabels(profile, start, w, end, uid, key, n);
    } else {
      var j :| 0 <= j < |past| && uid in past[j].labels && v.pod.labels == past[j].labels[uid];
      assert AppendedUpTo(profile, start, past[j], uid, key, n);
      var m: nat :| m <= n && Appended(profile, start, past[j], uid, key, m);
      PatchFrom(profile, past[j], w, v, key);
      if Landed(VisitEntries(profile, w, v), UpdateKey(profile.rv, uid)) == 0 {
        SameLabels(profile, start, w, end, uid, key, n);
      } else {
        AppendedAdds(profile, start, past[j], end, uid, key, m, 1);
      }
    }
  }

  lemma LaggingStep(
      profile: Profile, start: World, past: seq<World>, w: World, v: Visit, uid: string, key: string,
      h: seq<Entry>, n: nat)
    requires Suffixes(profile, start, uid, key) && Lagging(profile, past, v)
    requires AllUpTo(profile, start, past, uid, key, n + Landed(h, UpdateKey(profile.rv, uid)))
    requires AppendedUpTo(profile, start, w, uid, key, n + Landed(h, UpdateKey(profile.rv, uid)))
    ensures var more := n + Landed(h + VisitEntries(profile, w, v), UpdateKey(profile.rv, uid));
            && AllUpTo(profile, start, past + [AfterVisit(profile, w, v)], uid, key, more)
            && AppendedUpTo(profile, start, AfterVisit(profile, w, v), uid, key, more)
  {
    var k, more := UpdateKey(profile.rv, uid), VisitEntries(profile, w, v);
    LaggingVisit(profile, start, past, w, v, uid, key, n + Landed(h, k));
    CountsAppend(h, more, k);
    OneMoreWorld(profile, start, past, AfterVisit(profile, w, v), uid, key, n + Landed(h, k), n + Landed(h + more, k));
  }

  lemma PastExtends(profile: Profile, past: seq<World>, w: World, visits: seq<Visit>)
    requires visits != []
    ensures past + RoundPast(profile, w, visits) ==
            past + RoundPast(profile, w, visits[..|visits| - 1]) + [RoundOf(profile, w, visits).world]
  {
  }

  lemma {:induction false} LaggingRoundAppends(
      profile: Profile, start: World, past: seq<World>, w: World, visits: seq<Visit>, uid: string, key: string, n: nat)
    requires Suffixes(profile, start, uid, key) && LaggingRound(profile, past, w, visits)
    requires AllUpTo(profile, start, past, uid, key, n) && AppendedUpTo(profile, start, w, uid, key, n)
    ensures var more := n + Landed(RoundEntries(profile, w, visits), UpdateKey(profile.rv, uid));
            && AllUpTo(profile, start, past + RoundPast(profile, w, visits), uid, key, more)
            && AppendedUpTo(profile, start, RoundOf(profile, w, visits).world, uid, key, more)
  {
    if visits == [] {
      OneMoreWorld(profile, start, past, w, uid, key, n, n);
    } else {
      var front := visits[..|visits| - 1];
      LaggingRoundAppends(profile, start, past, w, front, uid, key, n);
      LaggingStep(profile, start, past + RoundPast(profile, w, front), RoundOf(profile, w, front).world,
                  visits[|visits| - 1], uid, key, RoundEntries(profile, w, front), n);
      PastExtends(profile, past, w, visits);
    }
  }

  lemma OneMoreWorld(
      profile: Profile, start: World, past: seq<World>, w: World, uid: string, key: string, m: nat, n: nat)
    requires Suffixes(profile, start, uid, key) && AllUpTo(profile, start, past, uid, key, m) && m <= n
    requires AppendedUpTo(profile, start, w, uid, key, n)
    ensures AllUpTo(profile, start, past + [w], uid, key, n)
  {
    UpToMore(profile, start, past, uid, key, m, n);
  }

  /** Over any rounds of one profile version whose listings may lag behind, a suffix
      is appended at most once for every successful update and for every patch that
      was applied without an answer. */
  lemma {:induction false} SuffixAtMost(profile: Profile, w: World, rounds: seq<Round>, uid: string, key: string)
    requires LaggingRounds(profile, w, rounds) && Suffixes(profile, w, uid, key)
    ensures var n := Landed(History(w, rounds), UpdateKey(profile.rv, uid));
            && AllUpTo(profile, w, Past(w, rounds), uid, key, n)
            && AppendedUpTo(profile, w, AfterRounds(w, rounds), uid, key, n)
  {
    if rounds == [] {
      NothingAppended(profile, w, uid, key);
    } else {
      var front, r, k := rounds[..|rounds| - 1], rounds[|rounds| - 1], UpdateKey(profile.rv, uid);
      SuffixAtMost(profile, w, front, uid, key);
      var mid := AfterRounds(w, front);
      LaggingRoundAppends(profile, w, Past(w, front), mid, r.visits, uid, key, Landed(History(w, front), k));
      CountsAppend(History(w, front), RoundEntries(profile, mid, r.visits), k);
    }
  }

  /** So when lost replies, ended entries and a live entry are together at most one,
      it is appended at most once, however far the listings lag behind. */
  lemma SuffixOnceLagging(profile: Profile, w: World, rounds: seq<Round>, uid: string, key: string)
    requires LaggingRounds(profile, w, rounds) && Suffixes(profile, w, uid, key)
    requires UpdateKey(profile.rv, uid) !in w.cache
    ensures var h, k, end := History(w, rounds), UpdateKey(profile.rv, uid), AfterRounds(w, rounds);
            Losses(h, k) + Expiries(h, k) + Live(end, k) <= 1 ==> AppendedAtMostOnce(profile, w, end, uid, key)
  {
    SuffixAtMost(profile, w, rounds, uid, key);
    UpdatedOncePerLifetime(w, rounds, profile.rv, uid);
  }

  lemma {:induction false} FreshRoundLags(profile: Profile, past: seq<World>, w: World, visits: seq<Visit>)
    requires FaithfulRound(profile, w, visits)
    ensures LaggingRound(profile, past, w, visits)
    ensures RoundPast(profile, w, visits)[|RoundPast(profile, w, visits)| - 1] == RoundOf(profile, w, visits).world
  {
    if visits != [] {
      var front := visits[..|visits| - 1];
      FreshRoundLags(profile, past, w, front);
      var worlds := past + RoundPast(profile, w, front);
      assert worlds[|worlds| - 1] == RoundOf(profile, w, front).world;
    }
  }

  /** Fresh listings are a special case. */
  lemma {:induction false} FreshLags(profile: Profile, w: World, rounds: seq<Round>)
    requires FaithfulRounds(profile, w, rounds)
    ensures LaggingRounds(profile, w, rounds)
  {
    if rounds != [] {
      var front, r := rounds[..|rounds| - 1], rounds[|rounds| - 1];
      FreshLags(profile, w, front);
      FreshRoundLags(profile, Past(w, front), AfterRounds(w, front), r.visits);
    }
  }

  // --------------------------------------------------------------- lost replies

  /** Without a probability that skips, and with a reply that gets lost each time. */
  function LostVisit(uid: string, labels: Labels, mutated: Labels): Visit
  {
    Visit(Pod(uid, "", "Pending", labels), Env({}, 0, true, mutated, false, PatchFailed(true)))
  }

  /** No entry of the cache has ended and no update has succeeded. */
  ghost predicate OnlyLosses(h: seq<Entry>)
  {
    forall e :: e in h ==> e.Lost? || e == Expire({})
  }

  ghost predicate ListOnePod(rounds: seq<Round>)
  {
    forall i :: 0 <= i < |rounds| ==> |rounds[i].visits| == 1
  }

  ghost predicate LostRounds(profile: Profile, w: World, rounds: seq<Round>)
  {
    FaithfulRounds(profile, w, rounds) && ListOnePod(rounds) && OnlyLosses(History(w, rounds))
  }

  /** Some rounds, each of which lists one pod, lead to this world by losses alone. */
  ghost predicate LossesLeadTo(profile: Profile, w: World, end: World)
  {
    exists rounds :: LostRounds(profile, w, rounds) && AfterRounds(w, rounds) == end
  }

  lemma LossesStart(profile: Profile, w: World)
    ensures LossesLeadTo(profile, w, w)
  {
    assert LostRounds(profile, w, []) && AfterRounds(w, []) == w;
  }

  lemma OneVisit(profile: Profile, w: World, v: Visit)
    requires Faithful(profile, w, v)
    ensures FaithfulRound(profile, w, [v])
    ensures RoundOf(profile, w, [v]).world == AfterVisit(profile, w, v)
    ensures RoundEntries(profile, w, [v]) == VisitEntries(profile, w, v)
  {
    assert [v][..0] == [];
  }

  lemma RoundsExtend(profile: Profile, w: World, front: seq<Round>, r: Round)
    requires FaithfulRounds(profile, w, front)
    requires r.profile == profile && FaithfulRound(profile, AfterRounds(w, front), r.visits)
    ensures FaithfulRounds(profile, w, front + [r])
    ensures AfterRounds(w, front + [r]) == RoundOf(profile, AfterRounds(w, front), r.visits).world
    ensures History(w, front + [r]) == History(w, front) + RoundEntries(profile, AfterRounds(w, front), r.visits)
  {
    assert (front + [r])[..|front|] == front;
  }

  lemma LossesLeadOn(profile: Profile, w: World, mid: World, v: Visit)
    requires LossesLeadTo(profile, w, mid) && Faithful(profile, mid, v) && OnlyLosses(VisitEntries(profile, mid, v))
    ensures LossesLeadTo(profile, w, AfterVisit(profile, mid, v))
  {
    var front :| LostRounds(profile, w, front) && AfterRounds(w, front) == mid;
    LostRoundsOn(profile, w, front, v);
  }

  lemma LostRoundsOn(profile: Profile, w: World, front: seq<Round>, v: Visit)
    requires LostRounds(profile, w, front) && Faithful(profile, AfterRounds(w, front), v)
    requires OnlyLosses(VisitEntries(profile, AfterRounds(w, front), v))
    ensures LostRounds(profile, w, front + [Round(profile, [v])])
    ensures AfterRounds(w, front + [Round(profile, [v])]) == AfterVisit(profile, AfterRounds(w, front), v)
  {
    OneVisit(profile, AfterRounds(w, front), v);
    RoundsExtend(profile, w, front, Round(profile, [v]));
    LossesJoin(History(w, front), VisitEntries(profile, AfterRounds(w, front), v));
  }

  lemma LossesJoin(h: seq<Entry>, more: seq<Entry>)
    requires OnlyLosses(h) && OnlyLosses(more)
    ensures OnlyLosses(h + more)
  {
  }

  lemma LostVisitDecided(profile: Profile, w: World, v: Visit, uid: string, key: string)
    requires UpdateKey(profile.rv, uid) !in w.cache && profile.percent == Some(100)
    requires v == LostVisit(uid, v.pod.labels, v.env.mutated)
    requires key in v.pod.labels && Grows(profile.spec, key) && LabelsMutated(profile.spec, v.pod.labels, v.env.mutated)
    ensures Decide(profile, w.cache - v.env.expired, v.pod, v.env) == UpdateFailed(true)
    ensures AfterVisit(profile, w, v).cache == w.cache
    ensures OnlyLosses(VisitEntries(profile, w, v))
    ensures Landed(VisitEntries(profile, w, v), UpdateKey(profile.rv, uid)) == 1
  {
    PlainGrows(profile.spec, v.pod.labels, v.env.mutated, key);
    LostEntries(profile, w, v);
    VisitCounts(profile, w, v, UpdateKey(profile.rv, uid));
  }

  lemma LostEntries(profile: Profile, w: World, v: Visit)
    requires v.env.expired == {} && Decide(profile, w.cache - {}, v.pod, v.env) == UpdateFailed(true)
    ensures AfterVisit(profile, w, v).cache == w.cache && OnlyLosses(VisitEntries(profile, w, v))
  {
    assert w.cache - {} == w.cache && w.cache * {} == {};
  }

  lemma LostVisitAppends(profile: Profile, w: World, v: Visit, uid: string, key: string)
    requires Suffixes(profile, w, uid, key) && UpdateKey(profile.rv, uid) !in w.cache && profile.percent == Some(100)
    requires Faithful(profile, w, v) && v == LostVisit(uid, v.pod.labels, v.env.mutated)
    ensures Appended(profile, w, AfterVisit(profile, w, v), uid, key, 1)
  {
    LostVisitDecided(profile, w, v, uid, key);
    VisitAppends(profile, w, v, uid, key);
  }

  lemma OneMoreLoss(profile: Profile, w: World, mid: World, uid: string, key: string) returns (end: World)
    requires Suffixes(profile, mid, uid, key) && UpdateKey(profile.rv, uid) !in mid.cache
    requires profile.percent == Some(100) && LossesLeadTo(profile, w, mid)
    ensures LossesLeadTo(profile, w, end) && end.cache == mid.cache && Appended(profile, mid, end, uid, key, 1)
  {
    var mutated := SomeMutation(profile.spec, mid.labels[uid]);
    var v := LostVisit(uid, mid.labels[uid], mutated);
    LostVisitDecided(profile, mid, v, uid, key);
    LostVisitAppends(profile, mid, v, uid, key);
    LossesLeadOn(profile, w, mid, v);
    end := AfterVisit(profile, mid, v);
  }

  /** Lost replies pile suffixes up without bound, although no entry ever expires
      and no update succeeds. */
  lemma {:induction false} LostRepliesPileUp(profile: Profile, w: World, uid: string, key: string, n: nat)
    returns (end: World)
    requires Suffixes(profile, w, uid, key) && UpdateKey(profile.rv, uid) !in w.cache && profile.percent == Some(100)
    ensures LossesLeadTo(profile, w, end) && end.cache == w.cache && Appended(profile, w, end, uid, key, n)
  {
    if n == 0 {
      end := w;
      LossesStart(profile, w);
      NothingAppended(profile, w, uid, key);
    } else {
      var mid := LostRepliesPileUp(profile, w, uid, key, n - 1);
      end := OneMoreLoss(profile, w, mid, uid, key);
      AppendedAdds(profile, w, mid, end, uid, key, n - 1, 1);
    }
  }

  lemma OneVisitLags(profile: Profile, past: seq<World>, w: World, v: Visit)
    requires Lagging(profile, past, v)
    ensures LaggingRound(profile, past, w, [v])
    ensures RoundOf(profile, w, [v]).world == AfterVisit(profile, w, v)
    ensures RoundEntries(profile, w, [v]) == VisitEntries(profile, w, v)
  {
    assert [v][..0] == [];
    assert LaggingRound(profile, past, w, []);
    var worlds := past + RoundPast(profile, w, []);
    var j :| 0 <= j < |past| && v.pod.uid in past[j].labels && v.pod.labels == past[j].labels[v.pod.uid];
    assert worlds[j] == past[j];
  }

  lemma LaggingExtends(profile: Profile, w: World, front: seq<Round>, v: Visit)
    requires LaggingRounds(profile, w, front) && Lagging(profile, Past(w, front), v)
    ensures var rounds := front + [Round(profile, [v])];
            && LaggingRounds(profile, w, rounds)
            && AfterRounds(w, rounds) == AfterVisit(profile, AfterRounds(w, front), v)
            && History(w, rounds) == History(w, front) + VisitEntries(profile, AfterRounds(w, front), v)
            && Past(w, front) <= Past(w, rounds)
  {
    OneVisitLags(profile, Past(w, front), AfterRounds(w, front), v);
    assert (front + [Round(profile, [v])])[..|front|] == front;
  }

  /** A listing that lags behind may hide a suffix, so the bound is no equality then:
      two patches land and one suffix is left. */
  lemma LagHidesSuffix(profile: Profile, w: World, uid: string, key: string) returns (rounds: seq<Round>)
    requires Suffixes(profile, w, uid, key) && UpdateKey(profile.rv, uid) !in w.cache && profile.percent == Some(100)
    ensures LaggingRounds(profile, w, rounds) && ListOnePod(rounds)
    ensures Landed(History(w, rounds), UpdateKey(profile.rv, uid)) == 2
    ensures Appended(profile, w, AfterRounds(w, rounds), uid, key, 1)
  {
    var mutated := SomeMutation(profile.spec, w.labels[uid]);
    var v, k := LostVisit(uid, w.labels[uid], mutated), UpdateKey(profile.rv, uid);
    var mid := AfterVisit(profile, w, v);
    assert Past(w, []) == [w] && [w][0] == w && AfterRounds(w, []) == w && History(w, []) == [];
    LaggingExtends(profile, w, [], v);
    var one := [] + [Round(profile, [v])];
    assert Past(w, one)[0] == w;
    LaggingExtends(profile, w, one, v);
    rounds := one + [Round(profile, [v])];
    LostVisitDecided(profile, w, v, uid, key);
    LostVisitDecided(profile, mid, v, uid, key);
    CountsAppend(History(w, one), VisitEntries(profile, mid, v), k);
    assert [] + VisitEntries(profile, w, v) == VisitEntries(profile, w, v);
    PatchFrom(profile, w, w, v, key);
    PatchFrom(profile, w, mid, v, key);
  }
}
