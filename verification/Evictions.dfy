/** Eviction limits: the counters, their caps, and what "one more eviction"
    does to them. */
module Evictions {
  import opened Options

  datatype Pod = Pod(name: string, namespace: string, node: string)

  datatype Limits = Limits(perNode: Option<nat>, perNamespace: Option<nat>, total: Option<nat>)

  datatype Counters = Counters(total: nat, nodes: map<string, nat>, namespaces: map<string, nat>)

  const ZERO := Counters(0, map[], map[])

  function Count(m: map<string, nat>, key: string): nat
  {
    if key in m then m[key] else 0
  }

  function Bump(m: map<string, nat>, key: string): map<string, nat>
  {
    m[key := Count(m, key) + 1]
  }

  /** What a counter counts. Pods without a node touch no node counter. */
  datatype Scope = OnNode(node: string) | InNamespace(namespace: string) | Everywhere

  predicate Touches(pod: Pod, scope: Scope)
  {
    match scope
    case OnNode(node) => node != "" && pod.node == node
    case InNamespace(namespace) => pod.namespace == namespace
    case Everywhere => true
  }

  function Cap(l: Limits, scope: Scope): Option<nat>
  {
    match scope
    case OnNode(_) => l.perNode
    case InNamespace(_) => l.perNamespace
    case Everywhere => l.total
  }

  function Counter(c: Counters, scope: Scope): nat
  {
    match scope
    case OnNode(node) => if node == "" then 0 else Count(c.nodes, node)
    case InNamespace(namespace) => Count(c.namespaces, namespace)
    case Everywhere => c.total
  }

  /** The counters after one more eviction. */
  function Recorded(c: Counters, pod: Pod): Counters
  {
    Counters(
      c.total + 1,
      if pod.node != "" then Bump(c.nodes, pod.node) else c.nodes,
      Bump(c.namespaces, pod.namespace))
  }

  ghost predicate WithinCap(l: Limits, c: Counters, scope: Scope)
  {
    Cap(l, scope).Some? ==> Counter(c, scope) <= Cap(l, scope).value
  }

  /** The limiter's test. */
  predicate Allows(l: Limits, c: Counters, pod: Pod)
  {
    && (pod.node != "" && l.perNode.Some? ==> Count(c.nodes, pod.node) + 1 <= l.perNode.value)
    && (l.perNamespace.Some? ==> Count(c.namespaces, pod.namespace) + 1 <= l.perNamespace.value)
    && (l.total.Some? ==> c.total + 1 <= l.total.value)
  }

  lemma RecordedCounter(c: Counters, pod: Pod, scope: Scope)
    ensures Counter(Recorded(c, pod), scope) == Counter(c, scope) + if Touches(pod, scope) then 1 else 0
  {
  }

  /** A pod is allowed exactly when recording it leaves every counter it touches
      within its cap. */
  lemma AllowsMeansFits(l: Limits, c: Counters, pod: Pod)
    ensures Allows(l, c, pod) <==> forall scope :: Touches(pod, scope) ==> WithinCap(l, Recorded(c, pod), scope)
  {
    var after := Recorded(c, pod);
    if forall scope :: Touches(pod, scope) ==> WithinCap(l, after, scope) {
      assert Touches(pod, InNamespace(pod.namespace)) && WithinCap(l, after, InNamespace(pod.namespace));
      assert Touches(pod, Everywhere) && WithinCap(l, after, Everywhere);
      assert pod.node != "" ==> Touches(pod, OnNode(pod.node)) && WithinCap(l, after, OnNode(pod.node));
    }
  }

  /** How many of the pods touch a scope. */
  function Tally(pods: seq<Pod>, scope: Scope): (n: nat)
    ensures n <= |pods|
  {
    if pods == [] then 0
    else Tally(pods[..|pods| - 1], scope) + if Touches(pods[|pods| - 1], scope) then 1 else 0
  }

  lemma TallyAppend(pods: seq<Pod>, pod: Pod, scope: Scope)
    ensures Tally(pods + [pod], scope) == Tally(pods, scope) + if Touches(pod, scope) then 1 else 0
  {
    assert (pods + [pod])[..|pods|] == pods;
  }

  lemma {:induction false} TallyRemove(pods: seq<Pod>, i: nat, scope: Scope)
    requires i < |pods|
    ensures Tally(pods[..i] + pods[i + 1..], scope) == Tally(pods, scope) - if Touches(pods[i], scope) then 1 else 0
  {
    if i == |pods| - 1 {
      assert pods[..i] + pods[i + 1..] == pods[..i];
    } else {
      var front, last := pods[..|pods| - 1], pods[|pods| - 1];
      TallyRemove(front, i, scope);
      assert pods[..i] + pods[i + 1..] == (front[..i] + front[i + 1..]) + [last];
      TallyAppend(front[..i] + front[i + 1..], last, scope);
    }
  }

  // ------------------------------------------------------------ sums of counters

  ghost function Sum(m: map<string, nat>): nat
    decreases |m|
  {
    if m == map[] then 0
    else
      var k :| k in m;
      m[k] + Sum(m - {k})
  }

  lemma {:induction false} SumSplit(m: map<string, nat>, k: string)
    requires k in m
    ensures Sum(m) == m[k] + Sum(m - {k})
    decreases |m|
  {
    var j :| j in m && Sum(m) == m[j] + Sum(m - {j});
    if j != k {
      SumSplit(m - {j}, k);
      SumSplit(m - {k}, j);
      assert (m - {j}) - {k} == (m - {k}) - {j};
    }
  }

  lemma SumBump(m: map<string, nat>, k: string)
    ensures Sum(Bump(m, k)) == Sum(m) + 1
  {
    var more := Bump(m, k);
    SumSplit(more, k);
    if k in m {
      SumSplit(m, k);
      assert more - {k} == m - {k};
    } else {
      assert more - {k} == m;
    }
  }
}
