# Verified models of Koordinator's handover barrier, constraint comparison, eviction limits and resource arithmetic

Koordinator extends the Kubernetes scheduler, descheduler and controllers. This
project models the parts of it whose correctness is not visible from one
function, and proves what they promise, for all inputs and all interleavings.

* **Leader handover.** `ResourceVersion`, `ApiLog`, `SyncBarrier`, `SyncBarrierSafety`,
  `SyncBarrierProgress`, `SyncBarrierExits`, `SyncBarrierTimeout`, `SyncBarrierLimits`:
  the barrier that a new scheduler leader runs before it schedules. The API server's pod history is one log ordered by resource version.
  The informer store and the scheduler cache are folds of prefixes of it, the
  cache's never longer than the informer's. The poll's patch, lister reads and
  cache read are separate steps, and the API server, the informer and the cache
  may move between any two of them.
* **Scheduling constraints.** `Sorting`, `Orders`, `Strings`, `Tolerations`,
  `Selectors`, `SelectorMeaning`, `SelectorCanonical`, `SelectorsEqual`: tolerations
  and node selectors are compared by sorting and removing neighbouring duplicates. The selector
  comparison runs on slices shared with the caller.
* **Evictions.** `Evictions`, `EvictionLimiter`, `PodEvictor`: counters with caps,
  whose check and commit take the lock separately.
* **Resources.** `ResourceList`, `Keyed`, `Zones`, `ZoneEquality`, `NodeFit`,
  `PodRequests`: resource-list order and minimum, zone lists, the decision whether
  a pod fits on another node, and the container folds.
* **Profiles and ledgers.** `ProfileReconcile`, `ProfileMutation`, `LabelSuffixes`,
  `ThirdParty`: the colocation-profile loop with its cache and summary, the label
  mutation, how often it appends a suffix, and the third-party allocation ledger.

`dafny verify dfyconfig.toml` checks everything.

## How the source is read

* Go's `sort.Slice` is `Sorting.SortSlice`: callers know that the result is a
  sorted permutation and nothing about ties. The comparator for requirements
  returns true on ties (pkg/descheduler/utils/predicates.go:167), so it is the
  non-strict form of an order; the model takes it that the sort still orders by it.
* A `range` over a Go map is a loop that takes any remaining key, so a result holds
  for every iteration order.
* Go strings are compared bytewise; the model compares characters, which for UTF-8
  is the same order.
* The barrier's assumptions are predicates: `ApiLog.Valid` (versions increase, a
  UID is never reused, a bound pod stays on its node), the prefix bounds
  `SyncBarrier.InBounds` (delivery in order, the cache behind the informer),
  `SyncBarrier.Init` (no pod carries this run's timestamp yet) and
  `SyncBarrierSafety.OldLeaderFenced`. The lister finds pods by name; the scheduler
  cache finds them by UID, as the Kubernetes scheduler's cache does.
* Quantities are unbounded integers: in the smallest unit, or in thousandths where
  the code rounds (`NodeFit`).
* A toleration matches a taint by the rule of the Kubernetes API, without the numeric
  comparison operators, which the call switches off.
* A profile's round lists pods through the client's cache. `LabelSuffixes` states what
  holds for listings that show the controller's own patches, and what is left for
  listings that show any earlier labels.
* Clocks, the random draw, the rate limiter, API calls and cache expiry are
  parameters or free choices of a step.

## Where the code does less than it seems to

* Ending the barrier because the anchor was deleted can miss a live binding
  (`SyncBarrierLimits.AnchorDeletedIsUnsafe`). It leaves the cache up to date with the
  snapshot exactly when the cache has nothing up to the anchor before it
  (`SyncBarrierExits.DeletedAnchorExactly`).
* An anchor whose name is taken over by a new pod leaves only the timeout
  (`SyncBarrierLimits.ReplacedAnchorStalls`).
* Normalising a selector turns Gt or Lt with one value written twice, which is
  invalid, into a valid requirement. So selectors that compare equal may match
  different nodes; when, is `SelectorMeaning.FragileChangesMeaning`.
* Requirements that differ only in nil against empty values make the normal form
  depend on the sort (`Selectors.NormalFormDetermined`).
* The evictor's equality tests stop nothing once overlapping calls have stepped over
  a cap; they keep the caps exactly when calls do not overlap or nothing is allowed
  (`PodEvictor.OverlapExactly`).
* The zone comparison misses some removal of zones or resources from a map exactly
  when the map has an empty zone or a zero quantity (`ZoneEquality.DeletionsNoticed`).
* The minimum of resource lists is no lower bound where a one-sided entry is
  negative (`ResourceList.MinIsGreatestLowerBound`).
* The init-container fold adds sidecars declared after a container where KEP-753 adds
  those declared before it; when that matters is `PodRequests.AgreesExactly`.
* A profile probability between 0 and 100 applies to one draw in a hundred more than
  it says (`ProfileReconcile.ProbabilityIsOneOff`).
* A patch whose answer is lost makes no cache entry, so its label suffix is appended
  again (`LabelSuffixes.SuffixOnceExactly`, `LabelSuffixes.LostRepliesPileUp`).
* Setting a third-party allocation on a nil annotation map is lost
  (`ThirdParty.NodeAnnotations.SetThirdPartyAllocation`).

## Model

| member | source | states |
|---|---|---|
| `ResourceVersion.ReachedIsNumeric` | cmd/koord-scheduler/app/sync_barrier.go:227-238 | on decimal strings without leading zeros, of any length, the string comparison holds exactly when the one number is at least the other |
| `ResourceVersion.ReachedIsTotalOrder` | cmd/koord-scheduler/app/sync_barrier.go:227-238 | so it is total, antisymmetric and transitive |
| `ResourceVersion.NumericExactly` | cmd/koord-scheduler/app/sync_barrier.go:227-238 | a string of digits is compared as its number with every printed number exactly when it has no leading zero itself |
| `SyncBarrier.SelectAnchor` | cmd/koord-scheduler/app/sync_barrier.go:178-184 | the loop returns a scheduled pod of maximal version, or none exactly when no pod is scheduled |
| `SyncBarrier.AnchorUnique` | cmd/koord-scheduler/app/sync_barrier.go:171-184 | every listing order of a store gives the same anchor |
| `SyncBarrier.StepKeepsInv` | cmd/koord-scheduler/app/sync_barrier.go:128-215 | every step of the poll and of its environment, including lost and repeated patches, keeps the invariant: the watermark was written in this run, and the anchor is newest in a listing taken after the informer passed the watermark |
| `SyncBarrierSafety.BarrierIsSafe` | cmd/koord-scheduler/app/sync_barrier.go:128-215 | in every run, from the exits "no scheduled pods" and "cache reached the anchor" on, every binding at or before the watermark whose pod still exists is in the scheduler cache, on its node |
| `SyncBarrierSafety.SnapshotAccounted` | cmd/koord-scheduler/app/sync_barrier.go:194-214 | from those exits on, every pod scheduled at the anchor snapshot is in the cache on its node, or the cache has already processed its deletion |
| `SyncBarrierSafety.HandoverIsSafe` | cmd/koord-scheduler/app/sync_barrier.go:59-93 | if no write of the previous leader is newer than the watermark, none of its live bindings is missing from the cache |
| `SyncBarrierSafety.StartedAfterWrites` | cmd/koord-scheduler/app/sync_barrier.go:136-152 | whatever was written before the run began is older than the watermark, even if the patch was applied without an answer and repeated |
| `SyncBarrierProgress.WrittenOnce` | cmd/koord-scheduler/app/sync_barrier.go:121-152 | over every run the watermark and the anchor are written at most once, and an exit is final |
| `SyncBarrierProgress.BacklogShrinks` | cmd/koord-scheduler/app/sync_barrier.go:82-88 | the cache's remaining distance to the anchor is increased by no step, however pods churn, and decreased by one by every cache step |
| `SyncBarrierProgress.BacklogRunsDown` | cmd/koord-scheduler/app/sync_barrier.go:82-88 | over every run, the distance is at most what it was less the cache steps taken since |
| `SyncBarrierProgress.CaughtUpDecides` | cmd/koord-scheduler/app/sync_barrier.go:195-214 | once a run has taken as many cache steps as the distance was, every look at the cache ends the barrier or turns to the lister |
| `SyncBarrierProgress.CacheReadOutcome` | cmd/koord-scheduler/app/sync_barrier.go:195-214 | a look at the cache ends the barrier exactly when that distance is zero and the anchor is cached |
| `SyncBarrierTimeout.ExitsExactly` | cmd/koord-scheduler/app/sync_barrier.go:101-215 | in every run, the barrier has ended for each of its six reasons exactly when some step has found what that exit is for: no pod to patch, no barrier pod or no scheduled pod in the informer, the anchor cached and nothing left up to it, no pod of the anchor's name, or a poll that begins out of time |
| `SyncBarrierTimeout.TimeoutEnds` | cmd/koord-scheduler/app/sync_barrier.go:101-132 | once the time is up, the poll moves at most six more times in every run and has then ended; a barrier that is between polls ends by timeout and in no other way |
| `SyncBarrierTimeout.TimedOutWasExpired` | cmd/koord-scheduler/app/sync_barrier.go:101-132 | a barrier that has ended by timeout was out of time |
| `SyncBarrierTimeout.PollCanMove` | cmd/koord-scheduler/app/sync_barrier.go:128-215 | a barrier that has not ended always has a step of the poll to take |
| `SyncBarrierTimeout.EveryRunCanEnd` | cmd/koord-scheduler/app/sync_barrier.go:101-132 | every run can be continued to an end, and one that is between polls to a timeout |
| `SyncBarrierTimeout.FailedCallsRetry` | cmd/koord-scheduler/app/sync_barrier.go:136-151 | a failing call may end the poll at each call and leaves watermark and anchor alone, even if the patch was applied |
| `SyncBarrierTimeout.RepeatedPatchFindsItself` | cmd/koord-scheduler/app/sync_barrier.go:136-152 | a patch that was applied without an answer and is repeated writes nothing and returns the version it has written |
| `SyncBarrierExits.DeletedAnchorExactly` | cmd/koord-scheduler/app/sync_barrier.go:194-214 | in every run ended by "anchor deleted", the cache has every pod scheduled at the snapshot in that version or later, or has processed its deletion, exactly when the distance to the anchor is zero; while the anchor is not cached, it accounts for all of them exactly then; and then no live binding is missed |
| `SyncBarrierExits.MissedExactly` | cmd/koord-scheduler/app/sync_barrier.go:128-215 | in every state of every run, some live binding up to the watermark is missing exactly when the cache has processed no event that makes it |
| `SyncBarrierLimits.AnchorDeletedIsUnsafe` | cmd/koord-scheduler/app/sync_barrier.go:198-203 | a run that ends by "anchor deleted" and misses a live binding of the fenced previous leader |
| `SyncBarrierLimits.BarrierSyncs` | cmd/koord-scheduler/app/sync_barrier.go:128-215 | a run that ends by reaching the anchor, so the guarantee is not empty |
| `SyncBarrierLimits.GoneAnchorEndsExactly` | cmd/koord-scheduler/app/sync_barrier.go:195-206 | from the moment the cache has processed the anchor's deletion, a run has ended otherwise than by timeout exactly when the lister was asked for the anchor's name while no pod, old or new, had it |
| `SyncBarrierLimits.ReplacedAnchorStalls` | cmd/koord-scheduler/app/sync_barrier.go:195-206 | so while some pod has its name, the barrier can end only by timeout |
| `SyncBarrierLimits.ReplacedAnchorReached` | cmd/koord-scheduler/app/sync_barrier.go:195-206 | for every n a run reaches that situation and makes n whole polls in it without ending |
| `Tolerations.UniqueSortTolerations` | pkg/descheduler/utils/predicates.go:223-262 | each (key, value, effect, operator) tuple of the input once, in strictly increasing order, for every tie order of the sort |
| `Tolerations.OrderedByKeyFirst` | pkg/descheduler/utils/predicates.go:223-262 | the order is by key, then value, effect and operator |
| `Tolerations.TolerationsEqual` | pkg/descheduler/utils/predicates.go:264-277 | true exactly when the two lists have the same set of tuples |
| `Tolerations.TolerationsTolerateTaintsWithFilter` | pkg/descheduler/utils/predicates.go:195-221 | true exactly when every taint that the filter lets through is tolerated by some toleration |
| `Tolerations.WhatIsTolerated` | pkg/descheduler/utils/predicates.go:195-203 | which taints one toleration covers: one with key, value and effect, any value with Exists, all keys or effects where they are empty, nothing with another operator |
| `Tolerations.EqualTolerateSame` | pkg/descheduler/utils/predicates.go:195-277 | lists that compare equal tolerate the same taints |
| `Selectors.NormalValuesCanonical` | pkg/descheduler/utils/predicates.go:118-133 | two value lists have the same normal form exactly when they have the same members |
| `Selectors.NormalFormStrict` | pkg/descheduler/utils/predicates.go:135-180 | the normal form of requirements is sorted without equal neighbours; where no two differ only in nil against empty values, it is strictly increasing |
| `Selectors.OrderedByKeyFirst` | pkg/descheduler/utils/predicates.go:139-168 | the order is by key, then operator, number of values and values |
| `Selectors.NormalFormIdempotent` | pkg/descheduler/utils/predicates.go:114-180 | normalising twice is normalising once, whatever the sort does with ties, exactly when no two requirements differ only in nil against empty values |
| `Selectors.RequirementsCanonical` | pkg/descheduler/utils/predicates.go:114-180 | where no two requirements of a list differ only in nil against empty values, two lists have the same normal form exactly when they have the same set of (key, operator, value set) requirements |
| `Selectors.NormalFormDetermined` | pkg/descheduler/utils/predicates.go:139-180 | the normal form is independent of the sort's ties exactly when no two requirements differ only in nil against empty values |
| `Selectors.OperatorLaws` | pkg/descheduler/utils/predicates.go:63-80 | what the six operators ask of a node's label |
| `Selectors.InvalidMatchesNothing` | pkg/descheduler/utils/predicates.go:57-80 | an invalid key or value, a number of values that does not suit the operator, or an unknown operator matches nothing |
| `Selectors.FieldLaws` | pkg/descheduler/utils/predicates.go:63-80 | a field requirement compares one value; a node without fields passes |
| `Selectors.TermLaws` | pkg/descheduler/utils/predicates.go:57-80 | requirements of a term are taken together, terms are alternatives, and an empty term and an empty list match nothing |
| `SelectorCanonical.SelectorsCanonical` | pkg/descheduler/utils/predicates.go:85-112 | where no requirements of a list differ only in nil against empty values, two selectors have the same normal form exactly when their lists of terms, read as requirement sets with neighbouring duplicates merged, are the same |
| `SelectorMeaning.ArityKept` | pkg/descheduler/utils/predicates.go:118-133 | removing duplicate values keeps whether their number suits the operator, exactly when the requirement is not one value repeated under Gt or Lt, or in a field |
| `SelectorMeaning.RequirementKeepsMeaning` | pkg/descheduler/utils/predicates.go:118-133 | for each reading of keys and values, normalising a requirement keeps which nodes it matches exactly when it does not revive it: a Gt or Lt with one valid value repeated, a valid key and some text that compares as asked, or a valid field with one value repeated |
| `SelectorMeaning.FragileIsRevivable` | pkg/descheduler/utils/predicates.go:118-133 | a requirement is revived under some reading exactly when it is one value repeated under Gt or Lt, or in a field |
| `SelectorMeaning.MeaningKeptExactly` | pkg/descheduler/utils/predicates.go:57-112 | on each node, a selector and its normal form agree exactly when a matching normal form of a term with a revived requirement comes with one of a term without; the normal form never matches less |
| `SelectorMeaning.MeaningKept` | pkg/descheduler/utils/predicates.go:57-112 | so for every node, the normal form of a selector without revived requirements matches it exactly when the selector does |
| `SelectorMeaning.FragileChangesMeaning` | pkg/descheduler/utils/predicates.go:118-193 | a selector with one requirement and the one with its normal form compare equal, and match the same nodes exactly when the requirement is not revived |
| `SelectorsEqual.UniqueSortValues` | pkg/descheduler/utils/predicates.go:120-132 | sorts the caller's slice in place and returns its distinct values |
| `SelectorsEqual.UniqueSortRequirements` | pkg/descheduler/utils/predicates.go:114-180 | returns a normal form of the requirements as they were; shared slices are at most sorted, even when requirements share a slice |
| `SelectorsEqual.UniqueSortTerms` | pkg/descheduler/utils/predicates.go:85-112 | returns every term normalised with neighbouring equal terms merged |
| `SelectorsEqual.NodeSelectorsEqual` | pkg/descheduler/utils/predicates.go:182-193 | true exactly for two nil selectors or equal normal forms (without mixed nil and empty values: the same merged lists of requirement sets), and then selectors without revived requirements match the same nodes; the caller's data changes only by sorting values |
| `Evictions.AllowsMeansFits` | pkg/descheduler/evictions/eviction_limiter.go:104-126 | the limiter's test is exactly "recording the pod leaves every counter it touches within its cap" |
| `EvictionLimiter.EvictionLimiter.AllowEvict` | pkg/descheduler/evictions/eviction_limiter.go:104-126 | admits exactly the pods that fit all the caps they touch |
| `EvictionLimiter.EvictionLimiter.Done` | pkg/descheduler/evictions/eviction_limiter.go:128-138 | counts the pod in every scope it touches and in no other |
| `EvictionLimiter.EvictionLimiter.Reset` | pkg/descheduler/evictions/eviction_limiter.go:51-58 | all counters are zero again |
| `EvictionLimiter.EvictionLimiter.NodeLimitExceeded` | pkg/descheduler/evictions/eviction_limiter.go:83-92 | within the cap, true exactly when no further eviction on the node fits |
| `EvictionLimiter.EvictionLimiter.NamespaceLimitExceeded` | pkg/descheduler/evictions/eviction_limiter.go:94-102 | the same for namespaces |
| `EvictionLimiter.CapsNearlyExact` | pkg/descheduler/evictions/eviction_limiter.go:104-138 | over every interleaving of checks, commits, failures and resets with at most k pods in flight, no counter passes its cap by more than k-1, and under a zero cap nothing is counted |
| `EvictionLimiter.BoundIsTight` | pkg/descheduler/evictions/eviction_limiter.go:104-138 | for a node, a namespace and the total, every positive cap and every k, some run passes the cap by exactly k-1 |
| `EvictionLimiter.AdmittedBeforeReset` | pkg/descheduler/evictions/eviction_limiter.go:51-58 | a pod admitted before a reset is recorded after it |
| `EvictionLimiter.SumsConserved` | pkg/descheduler/evictions/eviction_limiter.go:51-58 | over every such run the total is the sum of the namespace counters and at least the sum of the node counters |
| `PodEvictor.PodEvictor.Evict` | pkg/descheduler/evictions/evictions.go:117-160 | one call's answer and counters, with and without dry run, and counters within their caps stay within them |
| `PodEvictor.SequentialWithin` | pkg/descheduler/evictions/evictions.go:103-160 | in every sequence of calls no counter passes its cap, so equality tests decide what comparisons would |
| `PodEvictor.TestsAgree` | pkg/descheduler/evictions/evictions.go:103-131 | evictor and limiter disagree on a pod exactly when it has no node, the node cap is zero and the limiter accepts |
| `PodEvictor.SameAnswers` | pkg/descheduler/evictions/evictions.go:117-160 | outside that case every sequence of calls gets the same answers and counters from the evictor as from checking, evicting and recording through the limiter |
| `PodEvictor.OverlapExactly` | pkg/descheduler/evictions/evictions.go:103-152 | all runs with at most k overlapping calls, failed ones included, keep the node and namespace caps exactly when k is at most 1, one of the caps is zero, or there is none |
| `PodEvictor.EqualityRunsAway` | pkg/descheduler/evictions/evictions.go:103-152 | with two overlapping calls and positive caps, every count of a node and of a namespace is reached |
| `ResourceList.MinResourceList` | pkg/util/resource.go:64-85 | the common resources with the smaller quantities |
| `ResourceList.MinIsGreatestLowerBound` | pkg/util/resource.go:64-85 | the minimum is the greatest lower bound exactly when no one-sided entry is negative |
| `ResourceList.MinIsSumMinusMax` | pkg/util/resource.go:64-65 | the minimum equals the sum minus the maximum, up to zero entries, for all lists |
| `ResourceList.IsResourceListEqual` | pkg/util/resource.go:87-100 | sizes and one side's entries decide equality |
| `ResourceList.IsResourceListEqualIgnoreZeroValues` | pkg/util/resource.go:102-110 | decides equality that reads missing as zero |
| `ResourceList.LessThanOrEqualCompletely` | pkg/util/resource.go:327-339 | decides the order that reads missing as zero on both sides |
| `ResourceList.LeqIsPartialOrder` | pkg/util/resource.go:327-339 | it is a partial order, antisymmetric exactly up to zero entries |
| `Zones.ZoneListToZoneResourceList` | pkg/util/resource.go:144-155 | the map a list describes |
| `Zones.LastEntryShows` | pkg/util/resource.go:144-155 | in that map, on any list, the last zone of a name shows, and in it the last resource of a name with its allocatable quantity |
| `Zones.OnlyEntriesShow` | pkg/util/resource.go:144-155 | and nothing else |
| `Zones.ZoneResourceListToZoneList` | pkg/util/resource.go:163-191 | for every iteration order a canonical list whose map is the given one: map to list to map is the identity |
| `Zones.CanonicalLooks` | pkg/util/resource.go:163-191 | a canonical list has zones of type Node by ascending name and in each the resources by ascending name |
| `Zones.CanonicalQuantities` | pkg/util/resource.go:174-181 | and the map's quantity as capacity, allocatable and available |
| `Zones.CanonicalUnique` | pkg/util/resource.go:182-190 | a map has one canonical list, so the produced list does not depend on iteration order |
| `Zones.MergeZoneList` | pkg/util/resource.go:257-274 | the canonical list in which each zone has the second list's entry of a resource if there is one, otherwise the first's |
| `Zones.MergeTakesSecond` | pkg/util/resource.go:257-274 | the same of every merge, with the zones of both |
| `Zones.MergeAssociative` | pkg/util/resource.go:257-274 | merging is associative on all lists |
| `Zones.MergeIdempotent` | pkg/util/resource.go:257-274 | merging a list with itself gives the list back exactly when it is canonical |
| `Zones.TrimDifferentZone` | pkg/util/resource.go:243-255 | the canonical list of the first list's zones that the second has too |
| `ZoneEquality.IsZoneListResourceEqual` | pkg/util/resource.go:276-325 | what the comparison decides in all cases; without names and with no empty zone and no zero quantity, exactly equality of the maps; with names and no empty zone, exactly the same zones with the same named entries |
| `ZoneEquality.MatchIsEquality` | pkg/util/resource.go:276-325 | on such maps it is equality, by counting across both swaps, and symmetric |
| `ZoneEquality.MatchIsSameOn` | pkg/util/resource.go:307-321 | with resource names, the same by counting zones |
| `ZoneEquality.DeletionsNoticed` | pkg/util/resource.go:276-325 | without names, the comparison notices every removal of zones and resources from a map exactly when the map has no empty zone and no zero quantity |
| `ZoneEquality.NamedDeletionsNoticed` | pkg/util/resource.go:276-325 | with names, it notices every removal of zones and named resources exactly when there is no empty zone |
| `ZoneEquality.EmptyZoneMisleads` | pkg/util/resource.go:280-291 | every map with an empty zone compares equal to the map without it |
| `ZoneEquality.EmptyZoneOneWay` | pkg/util/resource.go:276-291 | and, one way round only, to the map with any other zone in its place |
| `ZoneEquality.ZeroQuantityMisleads` | pkg/util/resource.go:293-306 | every map with a zero quantity compares equal to the map without it |
| `NodeFit.ListsActive` | pkg/descheduler/pod/pods.go:119-147 | the pods on the node that have not finished and pass the filter, if there is one, are listed in order; a failed lookup fails |
| `NodeFit.FinishedDoNotCount` | pkg/descheduler/pod/pods.go:128-131 | a pod of phase Succeeded or Failed is as good as not there, any other pod is listed in its place |
| `NodeFit.FinishedDoNotMatter` | pkg/descheduler/node/node.go:198-251 | so removing a finished pod from a node does not change whether a pod fits |
| `NodeFit.NodeUtilization` | pkg/descheduler/node/node.go:253-279 | the totals of the basic and the named resources, for any list of names, and the number of pods |
| `NodeFit.NodeAvailableResources` | pkg/descheduler/node/node.go:227-251 | allocatable less utilisation, rounded as the code rounds; nothing of an unlisted resource |
| `NodeFit.FitsRequest` | pkg/descheduler/node/node.go:198-225 | true exactly when the lookup succeeds and every requested resource is within what is available; errors are reported exactly when it is false |
| `NodeFit.FitsIsConservation` | pkg/descheduler/node/node.go:198-279 | with whole quantities a resource fits exactly when the pod's request on top of those of all active pods is within allocatable |
| `NodeFit.RoundingBound` | pkg/descheduler/node/node.go:234-246 | rounding lets less than two units too much through and refuses less than two units too early, less than one for quantities that are not negative; an unlisted resource is decided exactly |
| `NodeFit.CpuAndPods` | pkg/descheduler/node/node.go:234-238 | cpu is decided exactly, without rounding; pods are compared with the number of pods on the node |
| `NodeFit.PodMatchesNodeLabels` | pkg/descheduler/utils/predicates.go:49-83 | true exactly when every selector label is on the node and the required affinity, if there is one, matches it |
| `NodeFit.OneMoreLabel` | pkg/descheduler/utils/predicates.go:49-83 | one more selector label must be on the node; selector and affinity must both match, and either may be absent |
| `NodeFit.SelectorAsAffinity` | pkg/descheduler/utils/predicates.go:49-83 | asking for a label in the node selector is asking for it by affinity |
| `NodeFit.CheckNodeFit` | pkg/descheduler/node/node.go:106-136 | no errors exactly when selector and affinity match, every NoSchedule and NoExecute taint is tolerated, the requests fit and the node is schedulable |
| `NodeFit.OneMoreTaint` | pkg/descheduler/node/node.go:119-124 | one more taint must be tolerated exactly if its effect is NoSchedule or NoExecute |
| `NodeFit.CordonedHostsNothing` | pkg/descheduler/node/node.go:130-133 | an unschedulable node hosts nothing |
| `NodeFit.PodFitsAnyOtherNode` | pkg/descheduler/node/node.go:138-159 | true exactly when some node of another name can host the pod; with whole quantities without overcommitting anything it asks for |
| `NodeFit.EqualConstraintsSameHosts` | pkg/descheduler/node/node.go:106-136 | pods that ask for the same, with affinities and tolerations that compare equal, can be hosted by the same nodes |
| `PodRequests.WalkIsPeak` | pkg/descheduler/utils/pod.go:79-94 | the init-container walk is max(containers + all sidecars, each regular init container + sidecars after it), for all amounts |
| `PodRequests.GetResourceRequestQuantity` | pkg/descheduler/utils/pod.go:47-105 | the pod-level request if it applies, else that maximum, plus overhead unless it is zero |
| `PodRequests.RequestsRead` | pkg/descheduler/utils/pod.go:73-94 | a container counts with its request, or with nothing, and the containers together with the sum |
| `PodRequests.AgreesExactly` | pkg/descheduler/utils/pod.go:79-94 | with sidecars that ask for no negative amount, the walk agrees with KEP-753 for every order of the init containers exactly when the sidecars ask for nothing or no regular init container asks for more than the containers together |
| `PodRequests.AgreesWithKep` | pkg/descheduler/utils/pod.go:79-94 | in the latter case both are the containers and all sidecars |
| `PodRequests.DiffersByAtMostSidecars` | pkg/descheduler/utils/pod.go:79-94 | they differ by at most the sidecar total |
| `PodRequests.KepDifferenceAttained` | pkg/descheduler/utils/pod.go:79-94 | and differs by exactly that much in both directions |
| `PodRequests.GetPodMilliCPULimit` | pkg/util/pod_resources_utils.go:33-73 | -1 exactly when the pod-level limit is not positive or, without one, some container lacks a positive limit or there is none; otherwise the same maximum |
| `PodRequests.LimitsRead` | pkg/util/pod_resources_utils.go:33-73 | the same for limits; one container without a positive limit makes the list unlimited |
| `ProfileReconcile.Reconciler.Reconcile` | pkg/controller/colocationprofile/colocationprofile_controller.go:105-151 | a round ends with the specified cache, labels at the API server and summary, each number of which counts the visits it is meant for; it fails exactly for an invalid probability and a pending pod, and then has patched nothing |
| `ProfileReconcile.SummaryCounts` | pkg/controller/colocationprofile/colocationprofile_controller.go:105-145 | skipped are the pending pods that the draw leaves out, cached those with a live entry, desired the rest; of these rate limited are those refused, succeeded those allowed whose update ends without an error, changed those it has patched |
| `ProfileReconcile.VisitCache` | pkg/controller/colocationprofile/colocationprofile_controller.go:122-141 | expired entries go, and exactly a success makes one |
| `ProfileReconcile.VisitLabels` | pkg/controller/colocationprofile/colocationprofile_util.go:112-138 | labels change only for a desired and allowed pod that the mutation changes, by a patch that is answered or was applied without an answer |
| `ProfileReconcile.LeftAlone` | pkg/controller/colocationprofile/colocationprofile_controller.go:108-134 | a pod that is not pending, has a live entry or is refused by the rate limiter is left alone |
| `ProfileReconcile.PatchWrites` | pkg/controller/colocationprofile/colocationprofile_util.go:122-128 | a patch writes what the mutation has changed in the listed labels and touches nothing else |
| `ProfileReconcile.SummaryBalances` | pkg/controller/colocationprofile/colocationprofile_util.go:222-242 | pending = skipped + cached + desired, desired = rate limited + succeeded + failed, and all succeeded exactly when none was limited or failed |
| `ProfileReconcile.UpdatedOncePerLifetime` | pkg/controller/colocationprofile/colocationprofile_controller.go:122-141 | over any rounds from any state, the successful updates of a pod by a profile version are as many as the cache entry has begun lifetimes |
| `LabelSuffixes.SuffixCount` | pkg/controller/colocationprofile/colocationprofile_util.go:112-187 | over any rounds of one version with listings that are up to date, a label that keeps its own value has the suffix appended once for every successful update and once for every patch applied without an answer |
| `LabelSuffixes.SuffixAtMost` | pkg/controller/colocationprofile/colocationprofile_util.go:112-187 | with listings that show any earlier labels of the pod, at most that often, at every moment |
| `LabelSuffixes.SuffixOnceExactly` | pkg/controller/colocationprofile/colocationprofile_controller.go:122-141 | from a state without a cache entry, with listings that are up to date, the suffix is appended at most once exactly when lost replies, ended entries and a live entry are together at most one |
| `LabelSuffixes.SuffixOnceLagging` | pkg/controller/colocationprofile/colocationprofile_controller.go:122-141 | with listings that lag behind, it is appended at most once when they are together at most one |
| `LabelSuffixes.LagHidesSuffix` | pkg/controller/colocationprofile/colocationprofile_util.go:112-187 | but not only then: two patches may land and leave one suffix |
| `LabelSuffixes.LostRepliesPileUp` | pkg/controller/colocationprofile/colocationprofile_controller.go:132-136 | for every n some rounds, each of which lists the pod once, append it n times by lost replies alone, without any entry ending and any update succeeding |
| `ProfileReconcile.KeysDistinct` | pkg/controller/colocationprofile/colocationprofile_util.go:256-258 | a cache key stands for one version and one pod |
| `ProfileReconcile.ProbabilityIsOneOff` | pkg/controller/colocationprofile/colocationprofile_util.go:244-254 | a probability p applies to p of the hundred draws exactly at 0 and 100, and to p+1 in between |
| `ProfileMutation.CopyKeys` | pkg/controller/colocationprofile/colocationprofile_util.go:160-176 | the copies in some order; for an independent mapping the closed form with original values |
| `ProfileMutation.OrderIrrelevant` | pkg/controller/colocationprofile/colocationprofile_util.go:160-176 | the result is the same for all labels and all orders exactly when, apart from keys mapped to themselves, new keys are distinct and no other entry's old key |
| `ProfileMutation.AppendSuffixes` | pkg/controller/colocationprofile/colocationprofile_util.go:178-187 | each existing label gets its suffix once, in every order |
| `ProfileMutation.PodMeta.MutateByColocationProfile` | pkg/controller/colocationprofile/colocationprofile_util.go:141-201 | overlay, then copy in some order of the map, then suffix, then the QoS and priority labels |
| `ProfileMutation.MutationCloses` | pkg/controller/colocationprofile/colocationprofile_util.go:141-201 | with independent mappings the copies are those of the original values |
| `ProfileMutation.MutationDetermined` | pkg/controller/colocationprofile/colocationprofile_util.go:141-201 | and the mutation has one result, whatever order the maps are walked in |
| `ProfileMutation.LabelsByKey` | pkg/controller/colocationprofile/colocationprofile_util.go:142-201 | a label onto which no other key is copied has the profile's value or its own, with its suffix, in every order; a missing label gets none |
| `ProfileMutation.LabelsCopiedByKey` | pkg/controller/colocationprofile/colocationprofile_util.go:142-187 | with an independent mapping, a new key has the old key's overlaid value with the new key's suffix |
| `ProfileMutation.AnnotationsByKey` | pkg/controller/colocationprofile/colocationprofile_util.go:151-176 | the same for annotations, without suffixes |
| `ProfileMutation.FinishedLabels` | pkg/controller/colocationprofile/colocationprofile_util.go:178-201 | suffixes go to the copied labels, and the QoS class and priority labels are set last |
| `ProfileMutation.PlainGrows` | pkg/controller/colocationprofile/colocationprofile_util.go:160-201 | a label that is not overlaid, copied onto or set afterwards gets its suffix appended to its own value each time, in every order |
| `ProfileMutation.OthersSetAfresh` | pkg/controller/colocationprofile/colocationprofile_util.go:142-201 | with an independent mapping the new value of any other label does not depend on its old one |
| `ThirdParty.NodeAnnotations.SetThirdPartyAllocation` | apis/slo/v1alpha1/node.go:114-153 | an annotation that records a sequence of calls records one call more; a missing or unreadable one holds the new entry alone; lost on a nil map |
| `ThirdParty.NodeAnnotations.GetThirdPartyAllocatedResByPriority` | apis/slo/v1alpha1/node.go:100-112 | nothing, an error, or, of an annotation that records a sequence of calls, the sum over names whose latest call had the priority |
| `ThirdParty.LedgerIsLatest` | apis/slo/v1alpha1/node.go:114-153 | after any sequence of calls names are unique and each entry is its name's latest call |
| `ThirdParty.TotalsAreLatest` | apis/slo/v1alpha1/node.go:100-153 | a priority's total is the sum over names whose latest call had it of their latest resources |
| `ThirdParty.SetReplaces` | apis/slo/v1alpha1/node.go:100-153 | one more call moves every total by the new part less the part it replaces |

## Left out

- Kubernetes clients, informers, leader election, timers, logging and metrics: only their ordering assumptions appear.
- Informer relists that skip events: the store and the cache are folds of log prefixes.
- The barrier's wait between polls and its feature gate.
- EvictionLimiter.EvictionLimiter.Done: counters are unbounded, so the wrap-around of Go's unsigned integers after 2^64 evictions is not modelled.
- PodRequests.GetPodMilliCPULimit: amounts are unbounded, so overflow of Go's 64-bit integers is not modelled.
- NodeFit.CheckNodeFit: the library's pod request is a field of the pod, and what the label library decides about single keys and values is a parameter.
- ProfileMutation.PodMeta.MutateByColocationProfile: nil and empty label maps are not told apart, and the strategic merge patch at the end is not modelled.
- LabelSuffixes.SuffixCount: other writers of the label are not modelled.
- Zone fields other than name, type and resources, which the conversions drop, and `ZoneResourcesToZoneList`.
- Subslices that overlap without being equal: shared value slices are whole arrays.
- Annotation texts: JSON encoding is taken to round-trip.
- The batch request and limit folds, which repeat the CPU limit fold without the maximum.
- Eviction filters, priority and QoS lookups, host ports and label predicates, settled by reading one branch.
- Float code (amplification, normalisation ratios, quantity differences) and the device daemon.
- Pod and node sorters whose comparators are not orders.
