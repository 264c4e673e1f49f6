/** Does a pod fit on a node, or on any node but its own? The decision is made
    from the node's allocatable resources and the requests of the pods on it.
    Quantities are integers in thousandths of a unit. */
module NodeFit {
  import opened ResourceList
  import opened Options
  import SelectorMeaning
  import Selectors
  import Tolerations

  const CPU := "cpu"
  const MEMORY := "memory"
  const PODS := "pods"

  /** `requests` is what the resource library computes for the pod; `required` are
      the terms of its required node affinity, if it has one. */
  datatype Pod = Pod(
    node: string, phase: string, requests: ResourceList,
    nodeSelector: map<string, string>, required: Option<seq<Selectors.Term>>, tolerations: seq<Tolerations.Toleration>)

  /** `seen` is what node selectors see of the node. */
  datatype Node = Node(
    name: string, unschedulable: bool, allocatable: ResourceList,
    seen: Selectors.Node, taints: seq<Tolerations.Taint>)

  /** The pods assigned to each node; a failed lookup gives none. */
  type Indexer = string -> Option<seq<Pod>>

  predicate IsBasic(name: string)
  {
    name == CPU || name == MEMORY || name == PODS
  }

  // ------------------------------------------------------------ pods on a node

  type Filter = Option<Pod -> bool>

  /** The conjunction of the filters that are there. */
  predicate Wrapped(filters: seq<Filter>, pod: Pod)
  {
    filters == [] || ((filters[0].Some? ==> filters[0].value(pod)) && Wrapped(filters[1..], pod))
  }

  predicate Unfinished(pod: Pod)
  {
    pod.phase != "Succeeded" && pod.phase != "Failed"
  }

  function Select(pods: seq<Pod>, filters: seq<Filter>): seq<Pod>
  {
    if pods == [] then []
    else Select(pods[..|pods| - 1], filters) + if Wrapped(filters, pods[|pods| - 1]) then [pods[|pods| - 1]] else []
  }

  /** Every pod assigned to the node that has not finished. */
  function Active(pods: seq<Pod>): seq<Pod>
  {
    if pods == [] then []
    else Active(pods[..|pods| - 1]) + if Unfinished(pods[|pods| - 1]) then [pods[|pods| - 1]] else []
  }

  function ListPodsOnANode(index: Indexer, node: string, filter: Filter): Option<seq<Pod>>
  {
    match index(node)
    case None => None
    case Some(pods) => Some(Select(pods, [Some(Unfinished), filter]))
  }

  function Filtered(pods: seq<Pod>, filter: Filter): seq<Pod>
  {
    if pods == [] then []
    else
      var front, last := Filtered(pods[..|pods| - 1], filter), pods[|pods| - 1];
      if filter.Some? && !filter.value(last) then front else front + [last]
  }

  /** The active pods that the filter, if there is one, lets through are listed, in
      order; a failed lookup fails. */
  lemma ListsActive(index: Indexer, node: string, filter: Filter)
    ensures index(node).None? ==> ListPodsOnANode(index, node, filter).None?
    ensures index(node).Some? ==>
              ListPodsOnANode(index, node, filter) == Some(Filtered(Active(index(node).value), filter))
    ensures index(node).Some? ==> ListPodsOnANode(index, node, None) == Some(Active(index(node).value))
  {
    if index(node).Some? {
      SelectIsActive(index(node).value, filter);
      SelectIsActive(index(node).value, None);
      NothingFiltered(Active(index(node).value));
    }
  }

  lemma {:induction false} NothingFiltered(pods: seq<Pod>)
    ensures Filtered(pods, None) == pods
  {
    if pods != [] {
      NothingFiltered(pods[..|pods| - 1]);
    }
  }

  lemma BothFilters(filter: Filter, pod: Pod)
    ensures Wrapped([Some(Unfinished), filter], pod) <==> Unfinished(pod) && (filter.Some? ==> filter.value(pod))
  {
    var filters: seq<Filter> := [Some(Unfinished), filter];
    assert filters[1..] == [filter] && filters[1..][1..] == [];
    assert Wrapped(filters[1..][1..], pod);
    assert Wrapped(filters[1..], pod) <==> (filter.Some? ==> filter.value(pod));
  }

  lemma {:induction false} SelectIsActive(pods: seq<Pod>, filter: Filter)
    ensures Select(pods, [Some(Unfinished), filter]) == Filtered(Active(pods), filter)
  {
    if pods != [] {
      var front, pod := pods[..|pods| - 1], pods[|pods| - 1];
      SelectIsActive(front, filter);
      BothFilters(filter, pod);
      if Unfinished(pod) {
        assert Active(pods) == Active(front) + [pod];
        assert (Active(front) + [pod])[..|Active(front)|] == Active(front);
      } else {
        assert Active(pods) == Active(front);
      }
    }
  }

  /** Pods that have succeeded or failed are as good as not there, and no others. */
  lemma {:induction false} FinishedDoNotCount(pods: seq<Pod>, i: nat)
    requires i < |pods|
    ensures if pods[i].phase == "Succeeded" || pods[i].phase == "Failed" then
              Active(pods[..i] + pods[i + 1..]) == Active(pods)
            else
              Active(pods) == Active(pods[..i]) + [pods[i]] + Active(pods[i + 1..])
  {
    assert pods == pods[..i] + [pods[i]] + pods[i + 1..];
    ActiveAppend(pods[..i] + [pods[i]], pods[i + 1..]);
    ActiveAppend(pods[..i], [pods[i]]);
    ActiveAppend(pods[..i], pods[i + 1..]);
    assert [pods[i]][..0] == [];
  }

  lemma {:induction false} ActiveAppend(a: seq<Pod>, b: seq<Pod>)
    ensures Active(a + b) == Active(a) + Active(b)
  {
    if b == [] {
      assert a + b == a;
    } else {
      ActiveAppend(a, b[..|b| - 1]);
      assert (a + b)[..|a + b| - 1] == a + b[..|b| - 1];
    }
  }

  // --------------------------------------------------------------- utilisation

  /** What one pod adds for a resource, once for each time it is named. */
  function Share(pod: Pod, names: seq<string>, r: string): int
  {
    if names == [] then 0
    else Share(pod, names[..|names| - 1], r) + if names[|names| - 1] == r then Get(pod.requests, r) else 0
  }

  function Utilization(pods: seq<Pod>, names: seq<string>, r: string): int
  {
    if pods == [] then 0 else Utilization(pods[..|pods| - 1], names, r) + Share(pods[|pods| - 1], names, r)
  }

  /** The sum of the pods' requests. */
  function Used(pods: seq<Pod>, r: string): int
  {
    if pods == [] then 0 else Used(pods[..|pods| - 1], r) + Get(pods[|pods| - 1].requests, r)
  }

  predicate NoRepeats(names: seq<string>)
  {
    forall i, j :: 0 <= i < j < |names| ==> names[i] != names[j]
  }

  lemma {:induction false} ShareOnce(pod: Pod, names: seq<string>, r: string)
    requires NoRepeats(names)
    ensures Share(pod, names, r) == if r in names then Get(pod.requests, r) else 0
  {
    if names != [] {
      var front, last := names[..|names| - 1], names[|names| - 1];
      ShareOnce(pod, front, r);
      assert names == front + [last];
    }
  }

  lemma {:induction false} UtilizationIsUsed(pods: seq<Pod>, names: seq<string>, r: string)
    requires NoRepeats(names) && r in names
    ensures Utilization(pods, names, r) == Used(pods, r)
  {
    if pods != [] {
      UtilizationIsUsed(pods[..|pods| - 1], names, r);
      ShareOnce(pods[|pods| - 1], names, r);
    }
  }

  /** The totals for the basic and the named resources, whatever the names. */
  ghost predicate IsUtilization(pods: seq<Pod>, names: seq<string>, totals: ResourceList)
  {
    && totals.Keys == {CPU, MEMORY, PODS} + (set r | r in names)
    && totals[PODS] == 1000 * |pods|
    && forall r :: r in totals && r != PODS ==> totals[r] == Utilization(pods, names, r)
  }

  method NodeUtilization(pods: seq<Pod>, names: seq<string>) returns (totals: ResourceList)
    ensures IsUtilization(pods, names, totals)
  {
    totals := map[CPU := 0, MEMORY := 0, PODS := 1000 * |pods|];
    for i := 0 to |names|
      invariant totals.Keys == {CPU, MEMORY, PODS} + (set r | r in names[..i])
      invariant totals[PODS] == 1000 * |pods|
      invariant forall r :: r in totals && r != PODS ==> totals[r] == 0
    {
      assert names[..i + 1] == names[..i] + [names[i]];
      if !IsBasic(names[i]) {
        totals := totals[names[i] := 0];
      }
    }
    assert names[..|names|] == names;
    for i := 0 to |pods|
      invariant totals.Keys == {CPU, MEMORY, PODS} + (set r | r in names)
      invariant totals[PODS] == 1000 * |pods|
      invariant forall r :: r in totals && r != PODS ==> totals[r] == Utilization(pods[..i], names, r)
    {
      totals := AddPod(pods[i], names, totals);
      assert pods[..i + 1][..i] == pods[..i];
    }
    assert pods[..|pods|] == pods;
  }

  method AddPod(pod: Pod, names: seq<string>, was: ResourceList) returns (totals: ResourceList)
    requires forall r :: r in names ==> r in was
    ensures totals.Keys == was.Keys
    ensures forall r :: r in was ==> totals[r] == was[r] + if r == PODS then 0 else Share(pod, names, r)
  {
    totals := was;
    for i := 0 to |names|
      invariant totals.Keys == was.Keys
      invariant forall r :: r in was ==> totals[r] == was[r] + if r == PODS then 0 else Share(pod, names[..i], r)
    {
      var name := names[i];
      assert names[..i + 1][..i] == names[..i];
      if name in pod.requests && name != PODS {
        totals := totals[name := totals[name] + pod.requests[name]];
      }
    }
    assert names[..|names|] == names;
  }

  // ----------------------------------------------------------------- available

  /** Whole units, rounded away from zero. */
  function Value(q: int): int
  {
    if q >= 0 then (q + 999) / 1000 else -((-q + 999) / 1000)
  }

  /** What the code takes as available of one resource. */
  function Available(node: Node, pods: seq<Pod>, used: int, r: string): int
  {
    if r == CPU then Get(node.allocatable, CPU) - used
    else if r == PODS then 1000 * (Value(Get(node.allocatable, PODS)) - |pods|)
    else if r == MEMORY || r in node.allocatable then 1000 * (Value(Get(node.allocatable, r)) - Value(used))
    else 0
  }

  lemma ValueOfUnits(n: int)
    ensures Value(1000 * n) == n
  {
  }

  /** Resources outside the basic three: nothing is available of one that the
      node does not list. */
  method OtherResources(node: Node, pods: seq<Pod>, used: ResourceList, names: seq<string>, basic: ResourceList)
    returns (left: ResourceList)
    requires forall r :: r in names ==> r in used
    ensures left.Keys == basic.Keys + (set r | r in names && !IsBasic(r))
    ensures forall r :: r in left ==>
              left[r] == if r in names && !IsBasic(r) then Available(node, pods, used[r], r) else basic[r]
  {
    left := basic;
    for i := 0 to |names|
      invariant left.Keys == basic.Keys + (set r | r in names[..i] && !IsBasic(r))
      invariant forall r :: r in left ==>
                  left[r] == if r in names[..i] && !IsBasic(r) then Available(node, pods, used[r], r) else basic[r]
    {
      var name := names[i];
      assert names[..i + 1] == names[..i] + [name];
      if !IsBasic(name) {
        if name in node.allocatable {
          left := left[name := 1000 * (Value(node.allocatable[name]) - Value(used[name]))];
        } else {
          left := left[name := 0];
        }
      }
    }
    assert names[..|names|] == names;
  }

  method BasicResources(node: Node, pods: seq<Pod>, used: ResourceList) returns (basic: ResourceList)
    requires CPU in used && MEMORY in used && PODS in used && used[PODS] == 1000 * |pods|
    ensures basic.Keys == {CPU, MEMORY, PODS}
    ensures forall r :: IsBasic(r) ==> basic[r] == Available(node, pods, used[r], r)
  {
    ValueOfUnits(|pods|);
    basic := map[
      CPU := Get(node.allocatable, CPU) - used[CPU],
      MEMORY := 1000 * (Value(Get(node.allocatable, MEMORY)) - Value(used[MEMORY])),
      PODS := 1000 * (Value(Get(node.allocatable, PODS)) - Value(used[PODS]))];
  }

  method NodeAvailableResources(index: Indexer, node: Node, names: seq<string>)
    returns (remaining: Option<ResourceList>)
    ensures remaining.None? <==> index(node.name).None?
    ensures remaining.Some? ==>
              var pods := Active(index(node.name).value);
              && (forall r :: r in names ==> r in remaining.value)
              && forall r :: r in names ==> remaining.value[r] == Available(node, pods, Utilization(pods, names, r), r)
  {
    ListsActive(index, node.name, None);
    var listed := ListPodsOnANode(index, node.name, None);
    if listed.None? {
      return None;
    }
    var pods := listed.value;
    var used := NodeUtilization(pods, names);
    var basic := BasicResources(node, pods, used);
    var left := OtherResources(node, pods, used, names, basic);
    return Some(left);
  }

  method KeysInSomeOrder(m: ResourceList) returns (names: seq<string>)
    ensures NoRepeats(names) && forall r :: r in names <==> r in m
  {
    names := [];
    var keys := m.Keys;
    while keys != {}
      invariant keys <= m.Keys && NoRepeats(names)
      invariant forall r :: r in names <==> r in m && r !in keys
      decreases |keys|
    {
      var r :| r in keys;
      names := names + [r];
      keys := keys - {r};
    }
  }

  /** The test on one resource. */
  predicate FitsResource(pod: Pod, node: Node, pods: seq<Pod>, r: string)
    requires r in pod.requests
  {
    pod.requests[r] <= Available(node, pods, Used(pods, r), r)
  }

  ghost predicate Fits(index: Indexer, pod: Pod, node: Node)
  {
    && index(node.name).Some?
    && forall r :: r in pod.requests ==> FitsResource(pod, node, Active(index(node.name).value), r)
  }

  method FitsRequest(index: Indexer, pod: Pod, node: Node) returns (fits: bool, errors: seq<string>)
    ensures fits <==> Fits(index, pod, node)
    ensures fits <==> errors == []
  {
    var names := KeysInSomeOrder(pod.requests);
    var available := NodeAvailableResources(index, node, names);
    if available.None? {
      return false, ["lookup failed"];
    }
    fits, errors := true, [];
    ghost var pods := Active(index(node.name).value);
    forall r | r in names
      ensures Utilization(pods, names, r) == Used(pods, r)
    {
      UtilizationIsUsed(pods, names, r);
    }
    for i := 0 to |names|
      invariant fits <==> forall k :: 0 <= k < i ==> FitsResource(pod, node, pods, names[k])
      invariant fits <==> errors == []
    {
      var r := names[i];
      assert r in names;
      if r !in available.value || pod.requests[r] > available.value[r] {
        errors := errors + ["insufficient " + r];
        fits := false;
      }
    }
    assert forall r :: r in pod.requests ==> r in names;
    assert forall k :: 0 <= k < |names| ==> names[k] in pod.requests;
  }

  // -------------------------------------------------------------- conservation

  /** Placing the pod on the node overcommits none of the resources it asks for. */
  ghost predicate NoOvercommit(pod: Pod, node: Node, pods: seq<Pod>)
  {
    forall r :: r in pod.requests ==> Accommodates(pod, node, pods, r)
  }

  ghost predicate Accommodates(pod: Pod, node: Node, pods: seq<Pod>, r: string)
    requires r in pod.requests
  {
    if r == PODS then pod.requests[r] + 1000 * |pods| <= Get(node.allocatable, PODS)
    else if !IsBasic(r) && r !in node.allocatable then pod.requests[r] <= 0
    else Used(pods + [pod], r) <= Get(node.allocatable, r)
  }

  predicate WholeUnits(a: ResourceList)
  {
    forall r :: r in a && r != CPU ==> a[r] % 1000 == 0
  }

  lemma {:induction false} UsedWhole(pods: seq<Pod>, r: string)
    requires r != CPU && forall p :: p in pods ==> WholeUnits(p.requests)
    ensures Used(pods, r) % 1000 == 0
  {
    if pods != [] {
      UsedWhole(pods[..|pods| - 1], r);
      assert pods[|pods| - 1] in pods;
    }
  }

  lemma UsedAppend(pods: seq<Pod>, pod: Pod, r: string)
    ensures Used(pods + [pod], r) == Used(pods, r) + Get(pod.requests, r)
  {
    assert (pods + [pod])[..|pods|] == pods;
  }

  lemma WholeValue(q: int)
    requires q % 1000 == 0
    ensures 1000 * Value(q) == q
  {
    ValueOfUnits(q / 1000);
  }

  /** With whole quantities the test is exact: a resource fits exactly when the
      node can take the pod's request on top of those of its active pods. */
  lemma FitsIsConservation(pod: Pod, node: Node, pods: seq<Pod>, r: string)
    requires r in pod.requests
    requires WholeUnits(node.allocatable) && forall p :: p in pods ==> WholeUnits(p.requests)
    ensures FitsResource(pod, node, pods, r) <==> Accommodates(pod, node, pods, r)
  {
    UsedAppend(pods, pod, r);
    if r != CPU {
      UsedWhole(pods, r);
      WholeValue(Used(pods, r));
      WholeValue(Get(node.allocatable, r));
    }
  }

  /** The next whole unit, away from zero. */
  lemma ValueNear(q: int)
    ensures if q >= 0 then 0 <= 1000 * Value(q) - q < 1000 else -1000 < 1000 * Value(q) - q <= 0
  {
  }

  /** What the node would carry of a resource with the pod on it. */
  function Load(pod: Pod, pods: seq<Pod>, r: string): int
    requires r in pod.requests
  {
    if r == PODS then pod.requests[r] + 1000 * |pods| else Used(pods + [pod], r)
  }

  /** With any quantities rounding lets through less than two units too much and
      refuses less than two units too early; less than one if they are not
      negative. A resource that the node does not list is not rounded at all. */
  lemma RoundingBound(pod: Pod, node: Node, pods: seq<Pod>, r: string)
    requires r in pod.requests
    ensures var unit := if Get(node.allocatable, r) >= 0 && Used(pods, r) >= 0 then 1000 else 2000;
            if IsBasic(r) || r in node.allocatable then
              && (FitsResource(pod, node, pods, r) ==> Load(pod, pods, r) < Get(node.allocatable, r) + unit)
              && (!FitsResource(pod, node, pods, r) ==> Load(pod, pods, r) > Get(node.allocatable, r) - unit)
            else
              FitsResource(pod, node, pods, r) <==> Accommodates(pod, node, pods, r)
  {
    UsedAppend(pods, pod, r);
    ValueNear(Get(node.allocatable, r));
    ValueNear(Used(pods, r));
  }

  ghost predicate WholeCluster(index: Indexer, node: Node)
  {
    && WholeUnits(node.allocatable)
    && (index(node.name).Some? ==> forall p :: p in Active(index(node.name).value) ==> WholeUnits(p.requests))
  }

  lemma FitsMeansNoOvercommit(index: Indexer, pod: Pod, node: Node)
    requires WholeCluster(index, node)
    ensures Fits(index, pod, node) <==>
            index(node.name).Some? && NoOvercommit(pod, node, Active(index(node.name).value))
  {
    if index(node.name).Some? {
      var pods := Active(index(node.name).value);
      forall r | r in pod.requests
        ensures FitsResource(pod, node, pods, r) <==> Accommodates(pod, node, pods, r)
      {
        FitsIsConservation(pod, node, pods, r);
      }
    }
  }

  // --------------------------------------------------------------- other nodes

  /** Node selector and required affinity both match. A pod without required
      affinity matches every node that its selector matches. */
  predicate SelectorsMatch(lib: Selectors.Library, pod: Pod, node: Node)
  {
    && (forall k :: k in pod.nodeSelector ==> k in node.seen.labels && node.seen.labels[k] == pod.nodeSelector[k])
    && (pod.required.Some? ==> Selectors.Matches(lib, node.seen, pod.required.value))
  }

  predicate Blocks(taint: Tolerations.Taint)
  {
    taint.effect == "NoSchedule" || taint.effect == "NoExecute"
  }

  ghost predicate CanHost(lib: Selectors.Library, index: Indexer, pod: Pod, node: Node)
  {
    && SelectorsMatch(lib, pod, node)
    && (forall taint :: taint in node.taints && Blocks(taint) ==> Tolerations.Tolerated(pod.tolerations, taint))
    && Fits(index, pod, node)
    && !node.unschedulable
  }

  /** The selector is looked at first, and then only the required affinity. */
  method PodMatchesNodeLabels(lib: Selectors.Library, pod: Pod, node: Node) returns (matches: bool)
    ensures matches <==> SelectorsMatch(lib, pod, node)
  {
    if |pod.nodeSelector| > 0 {
      var keys := pod.nodeSelector.Keys;
      while keys != {}
        invariant keys <= pod.nodeSelector.Keys
        invariant forall k :: k in pod.nodeSelector && k !in keys ==>
                    k in node.seen.labels && node.seen.labels[k] == pod.nodeSelector[k]
        decreases |keys|
      {
        var k :| k in keys;
        keys := keys - {k};
        if k !in node.seen.labels || node.seen.labels[k] != pod.nodeSelector[k] {
          return false;
        }
      }
    }
    if pod.required.Some? {
      return Selectors.Matches(lib, node.seen, pod.required.value);
    }
    return true;
  }

  method CheckNodeFit(lib: Selectors.Library, index: Indexer, pod: Pod, node: Node) returns (errors: seq<string>)
    ensures errors == [] <==> CanHost(lib, index, pod, node)
  {
    errors := [];
    var matches := PodMatchesNodeLabels(lib, pod, node);
    if !matches {
      errors := errors + ["pod node selector does not match the node label"];
    }
    var tolerates := Tolerations.TolerationsTolerateTaintsWithFilter(pod.tolerations, node.taints, Some(Blocks));
    if !tolerates {
      errors := errors + ["pod does not tolerate taints on the node"];
    }
    var fits, insufficient := FitsRequest(index, pod, node);
    if !fits {
      errors := errors + insufficient;
    }
    if node.unschedulable {
      errors := errors + ["node is not schedulable"];
    }
  }

  /** True exactly when a node of another name can host the pod; with whole
      quantities, without overcommitting anything the pod asks for. */
  method PodFitsAnyOtherNode(lib: Selectors.Library, index: Indexer, pod: Pod, nodes: seq<Node>) returns (fits: bool)
    ensures fits <==> exists i :: 0 <= i < |nodes| && nodes[i].name != pod.node && CanHost(lib, index, pod, nodes[i])
    ensures fits && (forall i :: 0 <= i < |nodes| ==> WholeCluster(index, nodes[i])) ==>
              exists i :: 0 <= i < |nodes| && nodes[i].name != pod.node && CanHost(lib, index, pod, nodes[i])
                && index(nodes[i].name).Some? && NoOvercommit(pod, nodes[i], Active(index(nodes[i].name).value))
  {
    for i := 0 to |nodes|
      invariant forall k :: 0 <= k < i ==> !(nodes[k].name != pod.node && CanHost(lib, index, pod, nodes[k]))
    {
      if nodes[i].name == pod.node {
        continue;
      }
      var errors := CheckNodeFit(lib, index, pod, nodes[i]);
      if |errors| == 0 {
        if WholeCluster(index, nodes[i]) {
          FitsMeansNoOvercommit(index, pod, nodes[i]);
        }
        return true;
      }
    }
    return false;
  }

  // ------------------------------------------------ what changes whether it can host

  /** CPU is compared in thousandths, so it is decided exactly; for pods, the pod's own
      number is compared with what the pods on the node leave of the allocatable. */
  lemma CpuAndPods(pod: Pod, node: Node, pods: seq<Pod>)
    ensures "cpu" in pod.requests ==>
              (FitsResource(pod, node, pods, "cpu") <==> Used(pods + [pod], "cpu") <= Get(node.allocatable, "cpu"))
    ensures "pods" in pod.requests && Get(node.allocatable, "pods") % 1000 == 0 ==>
              (FitsResource(pod, node, pods, "pods") <==>
                 pod.requests["pods"] + 1000 * |pods| <= Get(node.allocatable, "pods"))
  {
    UsedAppend(pods, pod, "cpu");
    if Get(node.allocatable, "pods") % 1000 == 0 {
      WholeValue(Get(node.allocatable, "pods"));
    }
  }

  /** Whether the pod fits depends on what the node has and on the pods on it, not on
      finished ones. */
  lemma FinishedDoNotMatter(index: Indexer, other: Indexer, pod: Pod, node: Node, i: nat)
    requires index(node.name).Some? && i < |index(node.name).value|
    requires index(node.name).value[i].phase == "Succeeded" || index(node.name).value[i].phase == "Failed"
    requires other(node.name) == Some(index(node.name).value[..i] + index(node.name).value[i + 1..])
    ensures Fits(index, pod, node) <==> Fits(other, pod, node)
  {
    FinishedDoNotCount(index(node.name).value, i);
  }

  /** One more label in the node selector: the node must have it. Selector and affinity
      must both match, and either may be absent. */
  lemma OneMoreLabel(lib: Selectors.Library, pod: Pod, node: Node, k: string, v: string)
    requires k !in pod.nodeSelector
    ensures SelectorsMatch(lib, pod.(nodeSelector := pod.nodeSelector[k := v]), node) <==>
            SelectorsMatch(lib, pod, node) && k in node.seen.labels && node.seen.labels[k] == v
    ensures SelectorsMatch(lib, pod, node) <==>
            && SelectorsMatch(lib, pod.(required := None), node)
            && SelectorsMatch(lib, pod.(nodeSelector := map[]), node)
    ensures SelectorsMatch(lib, pod.(nodeSelector := map[], required := None), node)
  {
    var more := pod.nodeSelector[k := v];
    assert k in more && more[k] == v;
    assert forall x :: x in pod.nodeSelector ==> x in more && more[x] == pod.nodeSelector[x];
  }

  /** Asking for a label in the node selector is asking for it by affinity. */
  lemma SelectorAsAffinity(lib: Selectors.Library, pod: Pod, node: Node, k: string, v: string)
    requires lib.validKey(k) && lib.validValue(v)
    ensures SelectorsMatch(lib, pod.(nodeSelector := map[k := v], required := None), node) <==>
            SelectorsMatch(
              lib,
              pod.(nodeSelector := map[],
                   required := Some(SelectorMeaning.OnLabel(Selectors.Requirement(k, "In", Selectors.Slice([v]))))),
              node)
  {
    SelectorMeaning.OneRequirementMatches(lib, node.seen, Selectors.Requirement(k, "In", Selectors.Slice([v])));
    var selector := map[k := v];
    assert k in selector;
  }

  /** A cordoned node hosts nothing, whatever else holds. */
  lemma CordonedHostsNothing(lib: Selectors.Library, index: Indexer, pod: Pod, node: Node)
    ensures !CanHost(lib, index, pod, node.(unschedulable := true))
    ensures CanHost(lib, index, pod, node) ==> node == node.(unschedulable := false)
  {
  }

  /** One more taint: with effect NoSchedule or NoExecute it must be tolerated, with any
      other effect it does not matter. */
  lemma OneMoreTaint(lib: Selectors.Library, index: Indexer, pod: Pod, node: Node, taint: Tolerations.Taint)
    ensures var tainted := node.(taints := node.taints + [taint]);
            CanHost(lib, index, pod, tainted) <==>
              && CanHost(lib, index, pod, node)
              && (taint.effect == "NoSchedule" || taint.effect == "NoExecute" ==>
                    Tolerations.Tolerated(pod.tolerations, taint))
  {
    var tainted := node.(taints := node.taints + [taint]);
    assert forall x :: x in tainted.taints <==> x in node.taints || x == taint;
    SameFit(index, pod, node, tainted);
  }

  lemma SameFit(index: Indexer, pod: Pod, node: Node, other: Node)
    requires other.name == node.name && other.allocatable == node.allocatable
    ensures Fits(index, pod, node) <==> Fits(index, pod, other)
  {
    if index(node.name).Some? {
      var pods := Active(index(node.name).value);
      forall r | r in pod.requests
        ensures FitsResource(pod, node, pods, r) <==> FitsResource(pod, other, pods, r)
      {
      }
    }
  }

  // -------------------------------------------------------------- equal constraints

  /** Required affinities that compare equal: both absent, or with a common normal
      form; and without requirements whose meaning normalising changes. */
  ghost predicate SameAffinity(lib: Selectors.Library, a: Option<seq<Selectors.Term>>, b: Option<seq<Selectors.Term>>)
  {
    if a.None? || b.None? then a == b
    else
      && (exists out :: Selectors.NormalTerms(a.value, out) && Selectors.NormalTerms(b.value, out))
      && SelectorMeaning.Sturdy(lib, a.value) && SelectorMeaning.Sturdy(lib, b.value)
  }

  lemma SameAffinityMatches(lib: Selectors.Library, pod: Pod, other: Pod, node: Node)
    requires SameAffinity(lib, pod.required, other.required) && pod.nodeSelector == other.nodeSelector
    ensures SelectorsMatch(lib, pod, node) <==> SelectorsMatch(lib, other, node)
  {
    if pod.required.Some? {
      var out :| Selectors.NormalTerms(pod.required.value, out) && Selectors.NormalTerms(other.required.value, out);
      SelectorMeaning.EqualMeansSame(lib, node.seen, pod.required.value, other.required.value, out);
    }
  }

  /** Pods that ask for the same, with affinities and tolerations that compare equal,
      are hosted by the same nodes. */
  lemma EqualConstraintsSameHosts(lib: Selectors.Library, index: Indexer, pod: Pod, other: Pod, node: Node)
    requires Tolerations.SameTuples(pod.tolerations, other.tolerations)
    requires SameAffinity(lib, pod.required, other.required)
    requires pod.nodeSelector == other.nodeSelector && pod.requests == other.requests
    ensures CanHost(lib, index, pod, node) <==> CanHost(lib, index, other, node)
  {
    SameAffinityMatches(lib, pod, other, node);
    forall taint
      ensures Tolerations.Tolerated(pod.tolerations, taint) <==> Tolerations.Tolerated(other.tolerations, taint)
    {
      Tolerations.EqualTolerateSame(pod.tolerations, other.tolerations, taint);
    }
    if index(node.name).Some? {
      var pods := Active(index(node.name).value);
      forall r | r in pod.requests
        ensures FitsResource(pod, node, pods, r) <==> FitsResource(other, node, pods, r)
      {
      }
    }
  }
}
