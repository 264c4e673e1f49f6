/** The API server's history of pods as one log ordered by resource version,
    and the three views of it that take part in a leader handover: the pods
    that exist, the informer store and the scheduler cache. */
module ApiLog {
  import opened ResourceVersion

  /** `mark` is the value of the barrier annotation. */
  datatype Pod = Pod(name: string, uid: string, node: string, rv: string, mark: string)

  datatype Actor = OldLeader | Other

  datatype Event = Put(pod: Pod, writer: Actor) | Del(name: string, uid: string, rv: string)

  function Version(e: Event): string
  {
    match e
    case Put(pod, _) => pod.rv
    case Del(_, _, rv) => rv
  }

  /** The pods that exist after the log, by UID. */
  function Live(log: seq<Event>): map<string, Pod>
  {
    if log == [] then map[]
    else
      var before := Live(log[..|log| - 1]);
      match log[|log| - 1]
      case Put(pod, _) => before[pod.uid := pod]
      case Del(_, uid, _) => before - {uid}
  }

  /** The informer store: the lister finds pods by namespaced name. */
  function Store(log: seq<Event>): map<string, Pod>
  {
    if log == [] then map[]
    else
      var before := Store(log[..|log| - 1]);
      match log[|log| - 1]
      case Put(pod, _) => before[pod.name := pod]
      case Del(name, _, _) => before - {name}
  }

  /** The scheduler cache: assigned pods only, found by UID. */
  function Cache(log: seq<Event>): map<string, Pod>
  {
    if log == [] then map[]
    else
      var before := Cache(log[..|log| - 1]);
      match log[|log| - 1]
      case Put(pod, _) => if pod.node != "" then before[pod.uid := pod] else before - {pod.uid}
      case Del(_, uid, _) => before - {uid}
  }

  ghost predicate Mentions(log: seq<Event>, uid: string)
  {
    exists i :: 0 <= i < |log| && log[i].Put? && log[i].pod.uid == uid
  }

  /** What the API server lets happen next: resource versions increase, a name
      keeps its UID while the pod exists, a new pod has a new UID, and a bound
      pod stays on its node. */
  ghost predicate Admissible(log: seq<Event>, e: Event)
  {
    && IsDecimal(Version(e))
    && (log != [] ==>
          IsDecimal(Version(log[|log| - 1])) && Num(Version(log[|log| - 1])) < Num(Version(e)))
    && match e
       case Put(pod, _) =>
         if pod.name in Store(log) then
           var was := Store(log)[pod.name];
           was.uid == pod.uid && (was.node != "" ==> pod.node == was.node)
         else
           !Mentions(log, pod.uid)
       case Del(name, uid, _) => name in Store(log) && Store(log)[name].uid == uid
  }

  ghost predicate Valid(log: seq<Event>)
  {
    log == [] || (Valid(log[..|log| - 1]) && Admissible(log[..|log| - 1], log[|log| - 1]))
  }

  lemma {:induction false} PrefixValid(log: seq<Event>, n: nat)
    requires Valid(log) && n <= |log|
    ensures Valid(log[..n])
  {
    if n == |log| {
      assert log[..n] == log;
    } else {
      PrefixValid(log[..|log| - 1], n);
      assert log[..|log| - 1][..n] == log[..n];
    }
  }

  lemma {:induction false} VersionsIncrease(log: seq<Event>, i: nat, j: nat)
    requires Valid(log) && i < j < |log|
    ensures IsDecimal(Version(log[i])) && IsDecimal(Version(log[j]))
    ensures Num(Version(log[i])) < Num(Version(log[j]))
  {
    var front := log[..|log| - 1];
    if j < |log| - 1 {
      VersionsIncrease(front, i, j);
    } else if i < j - 1 {
      VersionsIncrease(front, i, j - 1);
    }
  }

  lemma VersionDecimal(log: seq<Event>, i: nat)
    requires Valid(log) && i < |log|
    ensures IsDecimal(Version(log[i]))
  {
    if i < |log| - 1 {
      VersionsIncrease(log, i, |log| - 1);
    }
  }

  /** The three views tell the same story: the store holds the live pods by
      name and the cache holds the live bound pods. */
  ghost predicate Coherent(live: map<string, Pod>, store: map<string, Pod>, cache: map<string, Pod>)
  {
    && (forall n :: n in store ==> store[n].name == n)
    && (forall n :: n in store ==> store[n].uid in live && live[store[n].uid] == store[n])
    && (forall u :: u in live ==> live[u].uid == u)
    && (forall u :: u in live ==> live[u].name in store && store[live[u].name] == live[u])
    && (forall u :: u in cache <==> u in live && live[u].node != "")
    && (forall u :: u in cache ==> cache[u] == live[u])
  }

  lemma PutCoherent(live: map<string, Pod>, store: map<string, Pod>, cache: map<string, Pod>, pod: Pod)
    requires Coherent(live, store, cache)
    requires pod.name in store ==> store[pod.name].uid == pod.uid
    requires pod.name !in store ==> pod.uid !in live
    ensures Coherent(live[pod.uid := pod], store[pod.name := pod],
                     if pod.node != "" then cache[pod.uid := pod] else cache - {pod.uid})
  {
  }

  lemma DelCoherent(live: map<string, Pod>, store: map<string, Pod>, cache: map<string, Pod>, name: string, uid: string)
    requires Coherent(live, store, cache)
    requires name in store && store[name].uid == uid
    ensures Coherent(live - {uid}, store - {name}, cache - {uid})
  {
  }

  lemma MentionsPrefix(log: seq<Event>, n: nat, uid: string)
    requires n <= |log| && Mentions(log[..n], uid)
    ensures Mentions(log, uid)
  {
    var i :| 0 <= i < n && log[..n][i].Put? && log[..n][i].pod.uid == uid;
    assert log[i].Put? && log[i].pod.uid == uid;
  }

  lemma {:induction false} LiveIsMentioned(log: seq<Event>, uid: string)
    requires uid in Live(log)
    ensures Mentions(log, uid)
  {
    var front, last := log[..|log| - 1], log[|log| - 1];
    if last.Put? && last.pod.uid == uid {
      assert log[|log| - 1].pod.uid == uid;
    } else {
      LiveIsMentioned(front, uid);
      MentionsPrefix(log, |log| - 1, uid);
    }
  }

  lemma {:induction false} ViewsAgree(log: seq<Event>)
    requires Valid(log)
    ensures Coherent(Live(log), Store(log), Cache(log))
  {
    if log != [] {
      var front, last := log[..|log| - 1], log[|log| - 1];
      ViewsAgree(front);
      match last
      case Put(pod, _) =>
        if pod.uid in Live(front) {
          LiveIsMentioned(front, pod.uid);
        }
        PutCoherent(Live(front), Store(front), Cache(front), pod);
      case Del(name, uid, _) =>
        DelCoherent(Live(front), Store(front), Cache(front), name, uid);
    }
  }

  /** A UID that is gone never comes back. */
  lemma {:induction false} GoneStaysGone(log: seq<Event>, n: nat, uid: string)
    requires Valid(log) && n <= |log|
    requires Mentions(log[..n], uid) && uid !in Live(log[..n])
    ensures uid !in Live(log)
  {
    if n == |log| {
      assert log[..n] == log;
    } else {
      var front, last := log[..|log| - 1], log[|log| - 1];
      assert front[..n] == log[..n];
      GoneStaysGone(front, n, uid);
      MentionsPrefix(front, n, uid);
      ViewsAgree(front);
    }
  }

  /** A bound pod that still exists is still on the same node. */
  lemma {:induction false} BoundStaysBound(log: seq<Event>, n: nat, uid: string)
    requires Valid(log) && n <= |log|
    requires uid in Live(log[..n]) && Live(log[..n])[uid].node != ""
    ensures uid in Live(log) ==> Live(log)[uid].node == Live(log[..n])[uid].node
  {
    if n == |log| {
      assert log[..n] == log;
    } else if uid in Live(log) {
      var front := log[..|log| - 1];
      assert front[..n] == log[..n];
      LiveIsMentioned(log[..n], uid);
      MentionsPrefix(front, n, uid);
      if uid !in Live(front) {
        assert log[..|log| - 1] == front;
        GoneStaysGone(log, |log| - 1, uid);
      }
      BoundStaysBound(front, n, uid);
      NodeKept(log, uid);
    }
  }

  lemma NodeKept(log: seq<Event>, uid: string)
    requires Valid(log) && log != []
    requires uid in Live(log[..|log| - 1]) && Live(log[..|log| - 1])[uid].node != ""
    requires uid in Live(log)
    ensures Live(log)[uid].node == Live(log[..|log| - 1])[uid].node
  {
    var front, last := log[..|log| - 1], log[|log| - 1];
    ViewsAgree(front);
    LiveIsMentioned(front, uid);
  }

  /** A live pod is the last write of its UID. */
  lemma {:induction false} LastWrite(log: seq<Event>, uid: string) returns (i: nat)
    requires Valid(log) && uid in Live(log)
    ensures i < |log| && log[i].Put? && log[i].pod == Live(log)[uid] && log[i].pod.uid == uid
    ensures forall k :: i < k <= |log| ==> uid in Live(log[..k]) && Live(log[..k])[uid] == Live(log)[uid]
  {
    ViewsAgree(log);
    var front, last := log[..|log| - 1], log[|log| - 1];
    assert log[..|log|] == log;
    if last.Put? && last.pod.uid == uid {
      i := |log| - 1;
    } else {
      i := LastWrite(front, uid);
      forall k | i < k <= |log|
        ensures uid in Live(log[..k]) && Live(log[..k])[uid] == Live(log)[uid]
      {
        if k < |log| {
          assert front[..k] == log[..k];
        }
      }
    }
  }

  ghost predicate BindsAt(log: seq<Event>, i: nat, uid: string, node: string)
  {
    i < |log| && log[i].Put? && log[i].pod.uid == uid && log[i].pod.node == node && node != ""
  }

  lemma LiveAfterPut(log: seq<Event>, i: nat)
    requires i < |log| && log[i].Put?
    ensures log[i].pod.uid in Live(log[..i + 1])
    ensures Live(log[..i + 1])[log[i].pod.uid] == log[i].pod
  {
    assert log[..i + 1][i] == log[i];
  }

  /** A binding whose pod exists at the end has been visible on its node at
      every point since it was written. */
  lemma BindingVisible(log: seq<Event>, i: nat, uid: string, node: string, n: nat)
    requires Valid(log) && BindsAt(log, i, uid, node) && uid in Live(log) && i < n <= |log|
    ensures uid in Live(log[..n]) && Live(log[..n])[uid].node == node
  {
    StillLive(log, i, n);
    PrefixValid(log, n);
    assert log[..n][i] == log[i];
    BoundNow(log[..n], i, uid, node);
  }

  lemma BoundNow(log: seq<Event>, i: nat, uid: string, node: string)
    requires Valid(log) && BindsAt(log, i, uid, node) && uid in Live(log)
    ensures Live(log)[uid].node == node
  {
    LiveAfterPut(log, i);
    BoundStaysBound(log, i + 1, uid);
  }

  lemma StillLive(log: seq<Event>, i: nat, n: nat)
    requires Valid(log) && i < n <= |log| && log[i].Put? && log[i].pod.uid in Live(log)
    ensures log[i].pod.uid in Live(log[..n])
  {
    assert log[..n][i] == log[i];
    if log[i].pod.uid !in Live(log[..n]) {
      GoneStaysGone(log, n, log[i].pod.uid);
    }
  }
}
