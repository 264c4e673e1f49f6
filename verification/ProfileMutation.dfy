/** What a colocation profile does to a pod's labels and annotations: overlay,
    copy keys, append suffixes, set the QoS and priority labels. The profile's
    maps are walked in no particular order. */
module ProfileMutation {
  import opened Keyed
  import opened Options

  type Labels = map<string, string>

  const LABEL_POD_QOS := "koordinator.sh/qosClass"
  const LABEL_POD_PRIORITY := "koordinator.sh/priority"

  datatype Spec = Spec(
    labels: Labels, annotations: Labels,
    labelKeysMapping: map<string, string>, annotationKeysMapping: map<string, string>,
    labelSuffixes: map<string, string>, qosClass: string, priority: Option<string>)

  datatype Meta = Meta(labels: Labels, annotations: Labels)

  /** A missing label reads as the empty string. */
  function Get(labels: Labels, key: string): string
  {
    if key in labels then labels[key] else ""
  }

  // --------------------------------------------------------------- copying keys

  function CopyOne(labels: Labels, mapping: map<string, string>, key: string): Labels
    requires key in mapping
  {
    labels[mapping[key] := Get(labels, key)]
  }

  /** The copies in a given order. */
  function CopyInOrder(labels: Labels, mapping: map<string, string>, order: seq<string>): Labels
    requires forall k :: k in order ==> k in mapping
  {
    if order == [] then labels
    else
      assert order[|order| - 1] in order;
      CopyOne(CopyInOrder(labels, mapping, order[..|order| - 1]), mapping, order[|order| - 1])
  }

  /** An order in which the mapping may be walked: every key once. */
  ghost predicate Walks(order: seq<string>, mapping: map<string, string>)
  {
    && (forall k :: k in order <==> k in mapping)
    && forall i, j :: 0 <= i < j < |order| ==> order[i] != order[j]
  }

  ghost predicate CopiedSomehow(labels: Labels, mapping: map<string, string>, out: Labels)
  {
    exists order :: Walks(order, mapping) && out == CopyInOrder(labels, mapping, order)
  }

  /** Apart from keys mapped to themselves, no two keys have the same new key and
      no new key is another one's old key. */
  ghost predicate Independent(mapping: map<string, string>)
  {
    forall k1, k2 :: k1 in mapping && k2 in mapping && k1 != k2 && mapping[k1] != k1 && mapping[k2] != k2 ==>
      mapping[k1] != mapping[k2] && mapping[k1] != k2
  }

  ghost predicate Target(mapping: map<string, string>, done: set<string>, y: string)
  {
    exists k :: k in done && k in mapping && mapping[k] == y && k != y
  }

  /** The closed form: new keys hold the old keys' original values, and nothing
      else changes but that a missing key mapped to itself becomes empty. */
  ghost predicate Copied(labels: Labels, mapping: map<string, string>, done: set<string>, out: Labels)
    requires done <= mapping.Keys
  {
    && (forall y :: y in out <==> y in labels || exists k :: k in done && mapping[k] == y)
    && (forall k :: k in done && mapping[k] != k ==> mapping[k] in out && out[mapping[k]] == Get(labels, k))
    && (forall y :: y in out && !Target(mapping, done, y) ==> out[y] == Get(labels, y))
  }

  lemma CopiedUnique(labels: Labels, mapping: map<string, string>, done: set<string>, out1: Labels, out2: Labels)
    requires done <= mapping.Keys && Copied(labels, mapping, done, out1) && Copied(labels, mapping, done, out2)
    ensures out1 == out2
  {
    forall y | y in out1
      ensures y in out2 && out1[y] == out2[y]
    {
      if Target(mapping, done, y) {
        var k :| k in done && k in mapping && mapping[k] == y && k != y;
      }
    }
    assert out1.Keys == out2.Keys;
  }

  lemma CopyStep(labels: Labels, mapping: map<string, string>, done: set<string>, out: Labels, key: string)
    requires Independent(mapping) && done <= mapping.Keys && key in mapping && key !in done
    requires Copied(labels, mapping, done, out)
    ensures Copied(labels, mapping, done + {key}, CopyOne(out, mapping, key))
  {
    var more, n := CopyOne(out, mapping, key), mapping[key];
    var done' := done + {key};
    if n != key {
      assert !Target(mapping, done, key);
      assert Get(out, key) == Get(labels, key);
    }
    forall y
      ensures y in more <==> y in labels || exists k :: k in done' && mapping[k] == y
    {
      if y == n {
        assert key in done' && mapping[key] == y;
      }
    }
    forall y | y in more && !Target(mapping, done', y)
      ensures more[y] == Get(labels, y)
    {
      assert !Target(mapping, done, y);
      if y == n {
        assert key == n;
      }
    }
  }

  ghost predicate WalksPart(order: seq<string>, mapping: map<string, string>, done: set<string>)
  {
    && (forall k :: k in order <==> k in done) && done <= mapping.Keys
    && forall i, j :: 0 <= i < j < |order| ==> order[i] != order[j]
  }

  lemma {:induction false} OrderIsCopied(
      labels: Labels, mapping: map<string, string>, order: seq<string>, done: set<string>)
    requires Independent(mapping) && WalksPart(order, mapping, done)
    ensures Copied(labels, mapping, done, CopyInOrder(labels, mapping, order))
  {
    if order != [] {
      var front, last := order[..|order| - 1], order[|order| - 1];
      PartOfWalk(order, mapping, done);
      OrderIsCopied(labels, mapping, front, done - {last});
      CopyInto(labels, mapping, done, CopyInOrder(labels, mapping, front), last);
    } else {
      assert done == {};
    }
  }

  lemma CopyInto(labels: Labels, mapping: map<string, string>, done: set<string>, out: Labels, key: string)
    requires Independent(mapping) && done <= mapping.Keys && key in done
    requires Copied(labels, mapping, done - {key}, out)
    ensures Copied(labels, mapping, done, CopyOne(out, mapping, key))
  {
    CopyStep(labels, mapping, done - {key}, out, key);
    assert done - {key} + {key} == done;
  }

  lemma PartOfWalk(order: seq<string>, mapping: map<string, string>, done: set<string>)
    requires WalksPart(order, mapping, done) && order != []
    ensures order[|order| - 1] in done
    ensures WalksPart(order[..|order| - 1], mapping, done - {order[|order| - 1]})
  {
    var front, last := order[..|order| - 1], order[|order| - 1];
    assert order == front + [last];
    assert last in order;
    forall k
      ensures k in front <==> k in done - {last}
    {
      assert k in order <==> k in front || k == last;
    }
  }

  lemma CopyAppended(labels: Labels, mapping: map<string, string>, order: seq<string>, k: string)
    requires k in mapping && forall j :: j in order ==> j in mapping
    ensures CopyInOrder(labels, mapping, order + [k]) == CopyOne(CopyInOrder(labels, mapping, order), mapping, k)
  {
    assert (order + [k])[..|order|] == order;
  }

  ghost predicate CopiedPart(labels: Labels, mapping: map<string, string>, done: set<string>, out: Labels)
  {
    exists order :: WalksPart(order, mapping, done) && out == CopyInOrder(labels, mapping, order)
  }

  lemma CopyMore(labels: Labels, mapping: map<string, string>, done: set<string>, out: Labels, key: string)
    requires CopiedPart(labels, mapping, done, out) && key in mapping && key !in done
    ensures CopiedPart(labels, mapping, done + {key}, CopyOne(out, mapping, key))
  {
    var order :| WalksPart(order, mapping, done) && out == CopyInOrder(labels, mapping, order);
    CopyAppended(labels, mapping, order, key);
    assert WalksPart(order + [key], mapping, done + {key});
  }

  lemma CopyStarts(labels: Labels, mapping: map<string, string>)
    ensures CopiedPart(labels, mapping, {}, labels)
  {
    assert WalksPart([], mapping, {});
  }

  lemma CopyEnds(labels: Labels, mapping: map<string, string>, out: Labels)
    requires CopiedPart(labels, mapping, mapping.Keys, out)
    ensures CopiedSomehow(labels, mapping, out)
  {
    var order :| WalksPart(order, mapping, mapping.Keys) && out == CopyInOrder(labels, mapping, order);
    assert Walks(order, mapping);
  }

  /** With an independent mapping every order gives the closed form. */
  lemma SomehowIsCopied(labels: Labels, mapping: map<string, string>, out: Labels)
    requires Independent(mapping) && CopiedSomehow(labels, mapping, out)
    ensures Copied(labels, mapping, mapping.Keys, out)
  {
    var order :| Walks(order, mapping) && out == CopyInOrder(labels, mapping, order);
    OrderIsCopied(labels, mapping, order, mapping.Keys);
  }

  /** The loop, in whatever order the map is walked. */
  method CopyKeys(labels: Labels, mapping: map<string, string>) returns (out: Labels)
    ensures CopiedSomehow(labels, mapping, out)
    ensures Independent(mapping) ==> Copied(labels, mapping, mapping.Keys, out)
  {
    out := labels;
    var keys := mapping.Keys;
    ghost var done: set<string> := {};
    CopyStarts(labels, mapping);
    while keys != {}
      invariant keys <= mapping.Keys && done == mapping.Keys - keys
      invariant CopiedPart(labels, mapping, done, out)
      decreases |keys|
    {
      var k :| k in keys;
      CopyMore(labels, mapping, done, out, k);
      out := out[mapping[k] := Get(out, k)];
      keys := keys - {k};
      done := done + {k};
    }
    CopyEnds(labels, mapping, out);
    if Independent(mapping) {
      SomehowIsCopied(labels, mapping, out);
    }
  }

  // ---------------------------------------------- when the order can be observed

  /** Keys whose value ends up in `goal` if only the keys in `via` are copied. */
  least predicate Reaches(mapping: map<string, string>, via: set<string>, goal: string, x: string)
  {
    x == goal || (x in via && x in mapping && Reaches(mapping, via, goal, mapping[x]))
  }

  ghost function Colouring(mapping: map<string, string>, via: set<string>, goal: string): Labels
  {
    map x | x in mapping.Keys + mapping.Values :: if Reaches(mapping, via, goal, x) then "1" else "2"
  }

  /** Copying keys other than the goal never changes the colouring. */
  lemma {:induction false} ColouringKept(
      mapping: map<string, string>, via: set<string>, goal: string, order: seq<string>)
    requires via <= mapping.Keys && goal !in via && forall k :: k in order ==> k in via
    ensures CopyInOrder(Colouring(mapping, via, goal), mapping, order) == Colouring(mapping, via, goal)
  {
    if order != [] {
      var front, k := order[..|order| - 1], order[|order| - 1];
      assert forall j :: j in front ==> j in order;
      assert k in order;
      ColouringKept(mapping, via, goal, front);
      assert mapping[k] in mapping.Values;
    }
  }

  lemma SomeOrder(keys: set<string>) returns (order: seq<string>)
    ensures forall k :: k in order <==> k in keys
    ensures forall i, j :: 0 <= i < j < |order| ==> order[i] != order[j]
    decreases |keys|
  {
    if keys == {} {
      order := [];
    } else {
      var k :| k in keys;
      var rest := SomeOrder(keys - {k});
      order := rest + [k];
    }
  }

  lemma SwapDiffers(labels: Labels, mapping: map<string, string>, k1: string, k2: string)
    requires k1 in mapping && k2 in mapping && mapping[k1] != k1 && mapping[k2] != k2
    requires mapping[k1] == mapping[k2] || mapping[k1] == k2
    requires k1 in labels && k2 in labels && labels[k1] != labels[k2]
    ensures CopyOne(CopyOne(labels, mapping, k1), mapping, k2) != CopyOne(CopyOne(labels, mapping, k2), mapping, k1)
  {
    var one := CopyOne(CopyOne(labels, mapping, k1), mapping, k2);
    var two := CopyOne(CopyOne(labels, mapping, k2), mapping, k1);
    assert one[mapping[k2]] != two[mapping[k2]];
  }

  /** Two copies that interfere give different results in the two orders. */
  lemma OrdersDiffer(mapping: map<string, string>, k1: string, k2: string)
    returns (labels: Labels, order1: seq<string>, order2: seq<string>)
    requires k1 in mapping && k2 in mapping && k1 != k2 && mapping[k1] != k1 && mapping[k2] != k2
    requires mapping[k1] == mapping[k2] || mapping[k1] == k2
    ensures Walks(order1, mapping) && Walks(order2, mapping)
    ensures CopyInOrder(labels, mapping, order1) != CopyInOrder(labels, mapping, order2)
  {
    var via := mapping.Keys - {k1, k2};
    var rest := SomeOrder(via);
    labels := Colouring(mapping, via, k1);
    GoalsColoured(mapping, k1, k2);
    ColouringKept(mapping, via, k1, rest);
    order1 := LastTwo(labels, mapping, rest, k1, k2);
    order2 := LastTwo(labels, mapping, rest, k2, k1);
    SwapDiffers(labels, mapping, k1, k2);
  }

  lemma GoalsColoured(mapping: map<string, string>, k1: string, k2: string)
    requires k1 in mapping && k2 in mapping && k1 != k2
    ensures var labels := Colouring(mapping, mapping.Keys - {k1, k2}, k1);
            k1 in labels && k2 in labels && labels[k1] != labels[k2]
  {
  }

  /** Walks that end with two given keys. */
  lemma LastTwo(labels: Labels, mapping: map<string, string>, rest: seq<string>, a: string, b: string)
    returns (order: seq<string>)
    requires a in mapping && b in mapping && a != b
    requires forall k :: k in rest <==> k in mapping && k != a && k != b
    requires forall i, j :: 0 <= i < j < |rest| ==> rest[i] != rest[j]
    ensures Walks(order, mapping)
    ensures CopyInOrder(labels, mapping, order) ==
            CopyOne(CopyOne(CopyInOrder(labels, mapping, rest), mapping, a), mapping, b)
  {
    order := rest + [a] + [b];
    CopyAppended(labels, mapping, rest, a);
    CopyAppended(labels, mapping, rest + [a], b);
  }

  /** The result is the same for every label map and every walking order exactly
      when the mapping is independent. */
  lemma OrderIrrelevant(mapping: map<string, string>)
    ensures Independent(mapping) <==>
            forall labels, order1, order2 :: Walks(order1, mapping) && Walks(order2, mapping) ==>
              CopyInOrder(labels, mapping, order1) == CopyInOrder(labels, mapping, order2)
  {
    if Independent(mapping) {
      forall labels, order1, order2 | Walks(order1, mapping) && Walks(order2, mapping)
        ensures CopyInOrder(labels, mapping, order1) == CopyInOrder(labels, mapping, order2)
      {
        OrderIsCopied(labels, mapping, order1, mapping.Keys);
        OrderIsCopied(labels, mapping, order2, mapping.Keys);
        CopiedUnique(labels, mapping, mapping.Keys,
                     CopyInOrder(labels, mapping, order1), CopyInOrder(labels, mapping, order2));
      }
    } else {
      var k1, k2 :| k1 in mapping && k2 in mapping && k1 != k2 && mapping[k1] != k1 && mapping[k2] != k2
                    && (mapping[k1] == mapping[k2] || mapping[k1] == k2);
      var labels, order1, order2 := OrdersDiffer(mapping, k1, k2);
    }
  }

  // ------------------------------------------------------- overlay and suffixes

  /** Suffixes go to labels that exist, once each. */
  ghost predicate Suffixed(labels: Labels, suffixes: map<string, string>, out: Labels)
  {
    && out.Keys == labels.Keys
    && forall k :: k in labels ==> out[k] == if k in suffixes then labels[k] + suffixes[k] else labels[k]
  }

  method AppendSuffixes(labels: Labels, suffixes: map<string, string>) returns (out: Labels)
    ensures Suffixed(labels, suffixes, out)
  {
    out := labels;
    var keys := suffixes.Keys;
    while keys != {}
      invariant keys <= suffixes.Keys && out.Keys == labels.Keys
      invariant forall k :: k in labels ==>
                  out[k] == if k in suffixes && k !in keys then labels[k] + suffixes[k] else labels[k]
      decreases |keys|
    {
      var k :| k in keys;
      if k in out {
        out := out[k := out[k] + suffixes[k]];
      }
      keys := keys - {k};
    }
  }

  function WithQoS(labels: Labels, spec: Spec): Labels
  {
    var l := if spec.qosClass != "" then labels[LABEL_POD_QOS := spec.qosClass] else labels;
    if spec.priority.Some? then l[LABEL_POD_PRIORITY := spec.priority.value] else l
  }

  /** Overlay, then copy in some order, then suffix; the QoS and priority labels come
      last. */
  ghost predicate LabelsMutated(spec: Spec, was: Labels, now: Labels)
  {
    exists copied, suffixed ::
      && CopiedSomehow(was + spec.labels, spec.labelKeysMapping, copied)
      && Suffixed(copied, spec.labelSuffixes, suffixed)
      && now == WithQoS(suffixed, spec)
  }

  ghost predicate Mutated(spec: Spec, was: Meta, now: Meta)
  {
    && CopiedSomehow(was.annotations + spec.annotations, spec.annotationKeysMapping, now.annotations)
    && LabelsMutated(spec, was.labels, now.labels)
  }

  /** The same with the copies in closed form. */
  ghost predicate LabelsInClosedForm(spec: Spec, was: Labels, now: Labels)
  {
    exists copied, suffixed ::
      && Copied(was + spec.labels, spec.labelKeysMapping, spec.labelKeysMapping.Keys, copied)
      && Suffixed(copied, spec.labelSuffixes, suffixed)
      && now == WithQoS(suffixed, spec)
  }

  ghost predicate InClosedForm(spec: Spec, was: Meta, now: Meta)
  {
    && Copied(was.annotations + spec.annotations, spec.annotationKeysMapping, spec.annotationKeysMapping.Keys,
              now.annotations)
    && LabelsInClosedForm(spec, was.labels, now.labels)
  }

  class PodMeta {
    var labels: Labels
    var annotations: Labels

    method MutateByColocationProfile(spec: Spec)
      modifies this
      ensures Mutated(spec, old(Meta(labels, annotations)), Meta(labels, annotations))
    {
      labels := Override(labels, spec.labels);
      annotations := Override(annotations, spec.annotations);
      labels := CopyKeys(labels, spec.labelKeysMapping);
      ghost var copied := labels;
      annotations := CopyKeys(annotations, spec.annotationKeysMapping);
      labels := AppendSuffixes(labels, spec.labelSuffixes);
      ghost var suffixed := labels;
      if spec.qosClass != "" {
        labels := labels[LABEL_POD_QOS := spec.qosClass];
      }
      if spec.priority.Some? {
        labels := labels[LABEL_POD_PRIORITY := spec.priority.value];
      }
      assert Suffixed(copied, spec.labelSuffixes, suffixed) && labels == WithQoS(suffixed, spec);
    }
  }

  lemma LabelsClose(spec: Spec, was: Labels, now: Labels)
    requires Independent(spec.labelKeysMapping) && LabelsMutated(spec, was, now)
    ensures LabelsInClosedForm(spec, was, now)
  {
    var copied, suffixed :|
      && CopiedSomehow(was + spec.labels, spec.labelKeysMapping, copied)
      && Suffixed(copied, spec.labelSuffixes, suffixed)
      && now == WithQoS(suffixed, spec);
    SomehowIsCopied(was + spec.labels, spec.labelKeysMapping, copied);
  }

  /** With independent mappings the mutation is overlay, then copy of the original
      values, then suffix, whatever order the maps are walked in. */
  lemma MutationCloses(spec: Spec, was: Meta, now: Meta)
    requires Independent(spec.labelKeysMapping) && Independent(spec.annotationKeysMapping) && Mutated(spec, was, now)
    ensures InClosedForm(spec, was, now)
  {
    SomehowIsCopied(was.annotations + spec.annotations, spec.annotationKeysMapping, now.annotations);
    LabelsClose(spec, was.labels, now.labels);
  }

  lemma SuffixedUnique(labels: Labels, suffixes: map<string, string>, out1: Labels, out2: Labels)
    requires Suffixed(labels, suffixes, out1) && Suffixed(labels, suffixes, out2)
    ensures out1 == out2
  {
  }

  lemma LabelsDetermined(spec: Spec, was: Labels, now1: Labels, now2: Labels)
    requires LabelsInClosedForm(spec, was, now1) && LabelsInClosedForm(spec, was, now2)
    ensures now1 == now2
  {
    var mapping, overlaid := spec.labelKeysMapping, was + spec.labels;
    var c1, s1 :| Copied(overlaid, mapping, mapping.Keys, c1)
                  && Suffixed(c1, spec.labelSuffixes, s1) && now1 == WithQoS(s1, spec);
    var c2, s2 :| Copied(overlaid, mapping, mapping.Keys, c2)
                  && Suffixed(c2, spec.labelSuffixes, s2) && now2 == WithQoS(s2, spec);
    CopiedUnique(overlaid, mapping, mapping.Keys, c1, c2);
    SuffixedUnique(c1, spec.labelSuffixes, s1, s2);
  }

  /** So then it has one result. */
  lemma MutationDetermined(spec: Spec, was: Meta, now1: Meta, now2: Meta)
    requires Independent(spec.labelKeysMapping) && Independent(spec.annotationKeysMapping)
    requires Mutated(spec, was, now1) && Mutated(spec, was, now2)
    ensures now1 == now2
  {
    MutationCloses(spec, was, now1);
    MutationCloses(spec, was, now2);
    CopiedUnique(was.annotations + spec.annotations, spec.annotationKeysMapping, spec.annotationKeysMapping.Keys,
                 now1.annotations, now2.annotations);
    LabelsDetermined(spec, was.labels, now1.labels, now2.labels);
  }

  /** Every pod can be mutated. */
  lemma SomeMutation(spec: Spec, was: Labels) returns (now: Labels)
    ensures LabelsMutated(spec, was, now)
  {
    var order := SomeOrder(spec.labelKeysMapping.Keys);
    assert Walks(order, spec.labelKeysMapping);
    var copied := CopyInOrder(was + spec.labels, spec.labelKeysMapping, order);
    var suffixes := spec.labelSuffixes;
    var suffixed := map k | k in copied :: if k in suffixes then copied[k] + suffixes[k] else copied[k];
    assert Suffixed(copied, suffixes, suffixed);
    now := WithQoS(suffixed, spec);
  }

  // ---------------------------------------------------- suffixes of one's own label

  /** The label keeps its own value up to the suffix: no overlay, no other key is
      copied onto it, and it is not set afterwards. */
  predicate Plain(spec: Spec, key: string)
  {
    && key !in spec.labels
    && (forall k :: k in spec.labelKeysMapping && spec.labelKeysMapping[k] == key ==> k == key)
    && (key == LABEL_POD_QOS ==> spec.qosClass == "")
    && (key == LABEL_POD_PRIORITY ==> spec.priority.None?)
  }

  lemma {:induction false} PlainCopied(labels: Labels, mapping: map<string, string>, order: seq<string>, key: string)
    requires key in labels && forall k :: k in order ==> k in mapping
    requires forall k :: k in mapping && mapping[k] == key ==> k == key
    ensures var out := CopyInOrder(labels, mapping, order); key in out && out[key] == labels[key]
  {
    if order != [] {
      assert order[|order| - 1] in order;
      PlainCopied(labels, mapping, order[..|order| - 1], key);
    }
  }

  /** What comes after the copies: the suffix, unless the label is set. */
  function Finished(spec: Spec, key: string, value: string): string
  {
    if key == LABEL_POD_PRIORITY && spec.priority.Some? then spec.priority.value
    else if key == LABEL_POD_QOS && spec.qosClass != "" then spec.qosClass
    else if key in spec.labelSuffixes then value + spec.labelSuffixes[key]
    else value
  }

  lemma FinishedValue(spec: Spec, copied: Labels, suffixed: Labels, key: string)
    requires Suffixed(copied, spec.labelSuffixes, suffixed) && key in copied
    ensures key in WithQoS(suffixed, spec) && WithQoS(suffixed, spec)[key] == Finished(spec, key, copied[key])
  {
  }

  /** Each mutation appends the suffix to a plain label's value, in every order. */
  lemma PlainGrows(spec: Spec, was: Labels, now: Labels, key: string)
    requires LabelsMutated(spec, was, now) && Plain(spec, key) && key in was && key in spec.labelSuffixes
    ensures key in now && now[key] == was[key] + spec.labelSuffixes[key]
  {
    var copied, suffixed :|
      && CopiedSomehow(was + spec.labels, spec.labelKeysMapping, copied)
      && Suffixed(copied, spec.labelSuffixes, suffixed)
      && now == WithQoS(suffixed, spec);
    var order :| Walks(order, spec.labelKeysMapping)
                 && copied == CopyInOrder(was + spec.labels, spec.labelKeysMapping, order);
    PlainCopied(was + spec.labels, spec.labelKeysMapping, order, key);
    FinishedValue(spec, copied, suffixed, key);
  }

  lemma CopiesOf(spec: Spec, was: Labels, now: Labels, key: string) returns (copied: Labels)
    requires Independent(spec.labelKeysMapping) && LabelsMutated(spec, was, now) && key in was
    ensures Copied(was + spec.labels, spec.labelKeysMapping, spec.labelKeysMapping.Keys, copied)
    ensures key in copied && key in now && now[key] == Finished(spec, key, copied[key])
  {
    LabelsClose(spec, was, now);
    var mapping := spec.labelKeysMapping;
    var suffixed: Labels;
    copied, suffixed :| Copied(was + spec.labels, mapping, mapping.Keys, copied)
                        && Suffixed(copied, spec.labelSuffixes, suffixed) && now == WithQoS(suffixed, spec);
    FinishedValue(spec, copied, suffixed, key);
  }

  /** Any other label is set afresh: with an independent mapping its new value does
      not depend on its old one, so its suffix cannot pile up. */
  lemma OthersSetAfresh(spec: Spec, was1: Labels, was2: Labels, now1: Labels, now2: Labels, key: string)
    requires Independent(spec.labelKeysMapping) && !Plain(spec, key)
    requires LabelsMutated(spec, was1, now1) && LabelsMutated(spec, was2, now2)
    requires key in was1 && key in was2 && was1[key := ""] == was2[key := ""]
    ensures key in now1 && key in now2 && now1[key] == now2[key]
  {
    var copied1 := CopiesOf(spec, was1, now1, key);
    var copied2 := CopiesOf(spec, was2, now2, key);
    CopiedAfresh(was1, was2, spec, copied1, copied2, key);
  }

  lemma CopiedAfresh(was1: Labels, was2: Labels, spec: Spec, out1: Labels, out2: Labels, key: string)
    requires key in was1 && key in was2 && was1[key := ""] == was2[key := ""]
    requires var mapping := spec.labelKeysMapping;
             && Copied(was1 + spec.labels, mapping, mapping.Keys, out1)
             && Copied(was2 + spec.labels, mapping, mapping.Keys, out2)
    ensures key in out1 && key in out2
    ensures key in spec.labels
            || (exists k :: k in spec.labelKeysMapping && spec.labelKeysMapping[k] == key && k != key)
            ==> out1[key] == out2[key]
  {
    var mapping := spec.labelKeysMapping;
    forall k | k != key
      ensures Get(was1 + spec.labels, k) == Get(was2 + spec.labels, k)
    {
      assert Get(was1[key := ""], k) == Get(was2[key := ""], k);
    }
    if k :| k in mapping && mapping[k] == key && k != key {
      assert out1[key] == Get(was1 + spec.labels, k);
      assert out2[key] == Get(was2 + spec.labels, k);
    } else {
      assert !Target(mapping, mapping.Keys, key);
    }
  }

  // ------------------------------------------------------------ key by key

  /** The value before copying: the profile's, if it has one. */
  function Overlaid(was: Labels, profile: Labels, key: string): string
  {
    if key in profile then profile[key] else Get(was, key)
  }

  /** A key onto which no other key is copied keeps its value or takes the profile's, in
      every order; it is there afterwards if it was there, the profile has it, or it is
      mapped to itself. */
  lemma {:induction false} UncopiedKept(labels: Labels, mapping: map<string, string>, order: seq<string>, key: string)
    requires forall k :: k in order ==> k in mapping
    requires forall k :: k in mapping && mapping[k] == key ==> k == key
    ensures var out := CopyInOrder(labels, mapping, order);
            && (key in out <==> key in labels || (key in order && mapping[key] == key))
            && Get(out, key) == Get(labels, key)
  {
    if order != [] {
      var front, last := order[..|order| - 1], order[|order| - 1];
      assert order == front + [last];
      UncopiedKept(labels, mapping, front, key);
    }
  }

  lemma CopiedKey(labels: Labels, mapping: map<string, string>, out: Labels, key: string)
    requires CopiedSomehow(labels, mapping, out)
    requires forall k :: k in mapping && mapping[k] == key ==> k == key
    ensures key in out <==> key in labels || (key in mapping && mapping[key] == key)
    ensures Get(out, key) == Get(labels, key)
  {
    var order :| Walks(order, mapping) && out == CopyInOrder(labels, mapping, order);
    UncopiedKept(labels, mapping, order, key);
  }

  /** Annotations, key by key: not copied onto, and, with an independent mapping,
      copied onto. */
  lemma AnnotationsByKey(spec: Spec, was: Meta, now: Meta, key: string)
    requires Mutated(spec, was, now)
    ensures (forall k :: k in spec.annotationKeysMapping && spec.annotationKeysMapping[k] == key ==> k == key) ==>
              Get(now.annotations, key) == Overlaid(was.annotations, spec.annotations, key)
    ensures Independent(spec.annotationKeysMapping) && key in spec.annotationKeysMapping
            && spec.annotationKeysMapping[key] != key ==>
              Get(now.annotations, spec.annotationKeysMapping[key]) == Overlaid(was.annotations, spec.annotations, key)
  {
    var mapping := spec.annotationKeysMapping;
    if forall k :: k in mapping && mapping[k] == key ==> k == key {
      CopiedKey(was.annotations + spec.annotations, mapping, now.annotations, key);
    }
    OverlaidValue(was.annotations, spec.annotations, key);
    if Independent(mapping) && key in mapping && mapping[key] != key {
      NewKeyValue(was.annotations + spec.annotations, mapping, now.annotations, key);
    }
  }

  /** What the mutation makes of a copied value: the suffix is appended if the label
      exists; the QoS class and the priority are set last. */
  lemma FinishedLabels(spec: Spec, was: Labels, now: Labels, key: string) returns (copied: Labels)
    requires LabelsMutated(spec, was, now)
    ensures CopiedSomehow(was + spec.labels, spec.labelKeysMapping, copied)
    ensures if key == "koordinator.sh/priority" && spec.priority.Some? then
              key in now && now[key] == spec.priority.value
            else if key == "koordinator.sh/qosClass" && spec.qosClass != "" then
              key in now && now[key] == spec.qosClass
            else
              && (key in now <==> key in copied)
              && (key in copied ==>
                    now[key] == copied[key] + if key in spec.labelSuffixes then spec.labelSuffixes[key] else "")
  {
    var suffixed: Labels;
    copied, suffixed :|
      && CopiedSomehow(was + spec.labels, spec.labelKeysMapping, copied)
      && Suffixed(copied, spec.labelSuffixes, suffixed)
      && now == WithQoS(suffixed, spec);
    if key in copied && key !in spec.labelSuffixes {
      assert copied[key] + "" == copied[key];
    }
  }

  /** A label that is set by none of the last two. */
  predicate NotSetLast(spec: Spec, key: string)
  {
    && (key == "koordinator.sh/priority" ==> spec.priority.None?)
    && (key == "koordinator.sh/qosClass" ==> spec.qosClass == "")
  }

  /** Labels, key by key: one onto which no other is copied has the profile's value or
      its own, with its suffix; */
  lemma LabelsByKey(spec: Spec, was: Labels, now: Labels, key: string)
    requires LabelsMutated(spec, was, now) && NotSetLast(spec, key)
    requires forall k :: k in spec.labelKeysMapping && spec.labelKeysMapping[k] == key ==> k == key
    ensures key in was || key in spec.labels ==>
              key in now && now[key] == Overlaid(was, spec.labels, key) + Get(spec.labelSuffixes, key)
    ensures key !in was && key !in spec.labels
            && (key in spec.labelKeysMapping ==> spec.labelKeysMapping[key] != key) ==>
              key !in now
  {
    var copied := FinishedLabels(spec, was, now, key);
    CopiedKey(was + spec.labels, spec.labelKeysMapping, copied, key);
    OverlaidValue(was, spec.labels, key);
  }

  lemma OverlaidValue(was: Labels, profile: Labels, key: string)
    ensures Get(was + profile, key) == Overlaid(was, profile, key)
  {
  }

  lemma NewKeyValue(labels: Labels, mapping: map<string, string>, out: Labels, key: string)
    requires Independent(mapping) && CopiedSomehow(labels, mapping, out) && key in mapping && mapping[key] != key
    ensures mapping[key] in out && out[mapping[key]] == Get(labels, key)
  {
    SomehowIsCopied(labels, mapping, out);
  }

  /** and with an independent mapping, a new key has the old key's overlaid value with the
      new key's suffix. */
  lemma LabelsCopiedByKey(spec: Spec, was: Labels, now: Labels, key: string)
    requires LabelsMutated(spec, was, now) && Independent(spec.labelKeysMapping)
    requires key in spec.labelKeysMapping && spec.labelKeysMapping[key] != key
    requires NotSetLast(spec, spec.labelKeysMapping[key])
    ensures var newKey := spec.labelKeysMapping[key];
            newKey in now && now[newKey] == Overlaid(was, spec.labels, key) + Get(spec.labelSuffixes, newKey)
  {
    var copied := FinishedLabels(spec, was, now, spec.labelKeysMapping[key]);
    NewKeyValue(was + spec.labels, spec.labelKeysMapping, copied, key);
    OverlaidValue(was, spec.labels, key);
  }
}
