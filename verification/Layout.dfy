/** Level assignment and the construction layout. */
module Layout {
  import opened Order
  import opened Scans

  ghost predicate Levels(levels: seq<int>) {
    forall u :: 0 <= u < |levels| ==> levels[u] >= 0
  }

  /** Sampled levels; with M <= 1 everything stays on layer 0. */
  function AssignLevels(count: nat, maxDegree: int, sample: int -> nat): (levels: seq<int>)
    ensures |levels| == count && Levels(levels)
  {
    if maxDegree <= 1 then seq(count, _ => 0) else seq(count, u => sample(u))
  }

  /** `top` is the largest level. */
  ghost predicate IsMaxLevel(levels: seq<int>, top: int) {
    (forall u :: 0 <= u < |levels| ==> levels[u] <= top) && top in levels
  }

  method MaxAssignedLayer(levels: seq<int>) returns (top: int)
    requires Levels(levels) && levels != []
    ensures IsMaxLevel(levels, top)
  {
    top := 0;
    for u := 0 to |levels|
      invariant top >= 0 && forall v :: 0 <= v < u ==> levels[v] <= top
      invariant top in levels[..u] || top == 0
    {
      if levels[u] > top {
        top := levels[u];
      }
    }
    if top == 0 {
      assert levels[0] == 0;
    }
  }

  /** The ids on exactly this level, ascending. */
  function AtLevel(levels: seq<int>, layer: int): seq<int> {
    if levels == [] then []
    else
      var u := |levels| - 1;
      AtLevel(levels[..u], layer) + if levels[u] == layer then [u] else []
  }

  /** The ids on this level or above, highest level first, ascending inside a level. */
  function Labels(levels: seq<int>, layer: int, top: int): seq<int>
    decreases top - layer
  {
    if layer > top then [] else Labels(levels, layer + 1, top) + AtLevel(levels, layer)
  }

  ghost predicate Ascending(s: seq<int>) {
    forall i, j :: 0 <= i < j < |s| ==> s[i] < s[j]
  }

  lemma AscendingAppend(s: seq<int>, x: int)
    requires Ascending(s) && forall y :: y in s ==> y < x
    ensures Ascending(s + [x])
  {
    assert forall i :: 0 <= i < |s| ==> s[i] in s;
  }

  lemma DistinctConcat(a: seq<int>, b: seq<int>)
    requires Distinct(a) && Distinct(b) && forall x :: x in a ==> x !in b
    ensures Distinct(a + b)
  {
    var s := a + b;
    forall i, j | 0 <= i < j < |s|
      ensures s[i] != s[j]
    {
      if i < |a| && |a| <= j {
        assert s[i] in a && s[j] == b[j - |a|] && s[j] in b;
      }
    }
  }

  lemma {:induction false} AtLevelFacts(levels: seq<int>, layer: int)
    ensures forall u :: u in AtLevel(levels, layer) <==> 0 <= u < |levels| && levels[u] == layer
    ensures Ascending(AtLevel(levels, layer))
  {
    if levels != [] {
      var m := |levels| - 1;
      AtLevelFacts(levels[..m], layer);
      if levels[m] == layer {
        AscendingAppend(AtLevel(levels[..m], layer), m);
      }
    }
  }

  /** The prefix for a layer holds exactly the ids of that level or above, once each. */
  lemma {:induction false} LabelsFacts(levels: seq<int>, layer: int, top: int)
    requires forall u :: 0 <= u < |levels| ==> levels[u] <= top
    ensures forall u :: u in Labels(levels, layer, top) <==> 0 <= u < |levels| && levels[u] >= layer
    ensures Distinct(Labels(levels, layer, top))
    decreases top - layer
  {
    if layer <= top {
      LabelsFacts(levels, layer + 1, top);
      AtLevelFacts(levels, layer);
      DistinctConcat(Labels(levels, layer + 1, top), AtLevel(levels, layer));
    }
  }

  ghost predicate InOrder(levels: seq<int>, u: int, v: int) {
    && 0 <= u < |levels| && 0 <= v < |levels|
    && (levels[u] > levels[v] || (levels[u] == levels[v] && u < v))
  }

  /** Labels descend by level and ascend by id inside a level. */
  lemma {:induction false} LabelsOrdered(levels: seq<int>, layer: int, top: int, i: nat, j: nat)
    requires forall u :: 0 <= u < |levels| ==> levels[u] <= top
    requires i < j < |Labels(levels, layer, top)|
    ensures InOrder(levels, Labels(levels, layer, top)[i], Labels(levels, layer, top)[j])
    decreases top - layer
  {
    if layer <= top {
      var a, b := Labels(levels, layer + 1, top), AtLevel(levels, layer);
      if j < |a| {
        LabelsOrdered(levels, layer + 1, top, i, j);
      } else {
        LabelsFacts(levels, layer + 1, top);
        AtLevelFacts(levels, layer);
        assert b[j - |a|] in b;
        if i < |a| {
          assert a[i] in a;
        } else {
          assert b[i - |a|] in b;
        }
      }
    }
  }

  lemma {:induction false} LabelsPrefix(levels: seq<int>, layer: int, lower: int, top: int)
    requires lower <= layer <= top + 1
    ensures Labels(levels, layer, top) <= Labels(levels, lower, top)
    decreases layer - lower
  {
    if lower < layer {
      LabelsPrefix(levels, layer, lower + 1, top);
    }
  }

  /** The whole layout is a permutation of all ids. */
  lemma LabelsAreAll(levels: seq<int>, top: int)
    requires Levels(levels) && forall u :: 0 <= u < |levels| ==> levels[u] <= top
    ensures |Labels(levels, 0, top)| == |levels|
    ensures multiset(Labels(levels, 0, top)) == multiset(UpTo(|levels|))
  {
    var s, all := Labels(levels, 0, top), UpTo(|levels|);
    LabelsFacts(levels, 0, top);
    forall x
      ensures multiset(s)[x] == multiset(all)[x]
    {
      DistinctContents(s, x);
      DistinctContents(all, x);
      if 0 <= x < |levels| {
        assert all[x] == x;
      }
    }
    assert multiset(s) == multiset(all);
    assert |s| == |multiset(s)| && |all| == |multiset(all)|;
  }

  datatype ConstructionLayout = ConstructionLayout(labels: seq<int>, layerCounts: seq<int>)

  /** Every layer's labels are the prefix of its count. */
  ghost predicate IsLayout(levels: seq<int>, top: int, layout: ConstructionLayout) {
    && |layout.layerCounts| == top + 1
    && layout.labels == Labels(levels, 0, top)
    && forall i :: 0 <= i <= top ==>
         && 0 <= layout.layerCounts[i] <= |layout.labels|
         && layout.labels[..layout.layerCounts[i]] == Labels(levels, i, top)
  }

  /** The layers above `layer` have their counts. */
  ghost predicate CountedAbove(levels: seq<int>, top: int, counts: seq<int>, layer: int) {
    |counts| == top + 1 && forall i :: layer < i <= top && 0 <= i ==> counts[i] == |Labels(levels, i, top)|
  }

  lemma CountsMakeLayout(levels: seq<int>, top: nat, layout: ConstructionLayout)
    requires layout.labels == Labels(levels, 0, top) && CountedAbove(levels, top, layout.layerCounts, -1)
    ensures IsLayout(levels, top, layout)
  {
    forall i | 0 <= i <= top
      ensures 0 <= layout.layerCounts[i] <= |layout.labels|
      ensures layout.labels[..layout.layerCounts[i]] == Labels(levels, i, top)
    {
      LabelsPrefix(levels, i, 0, top);
    }
  }

  /** One pass over the ids appends those of exactly this level. */
  method AppendLevel(levels: seq<int>, layer: int, before: seq<int>) returns (labels: seq<int>)
    ensures labels == before + AtLevel(levels, layer)
  {
    labels := before;
    for id := 0 to |levels|
      invariant labels == before + AtLevel(levels[..id], layer)
    {
      assert levels[..id + 1][..id] == levels[..id];
      if levels[id] == layer {
        labels := labels + [id];
      }
    }
    assert levels[..|levels|] == levels;
  }

  method BuildConstructionLayout(levels: seq<int>, top: nat) returns (layout: ConstructionLayout)
    ensures IsLayout(levels, top, layout)
  {
    var labels: seq<int> := [];
    var layerCounts := seq(top + 1, _ => 0);
    var layer: int := top;
    while layer >= 0
      invariant -1 <= layer <= top && |layerCounts| == top + 1
      invariant labels == Labels(levels, layer + 1, top)
      invariant CountedAbove(levels, top, layerCounts, layer)
    {
      labels := AppendLevel(levels, layer, labels);
      layerCounts := layerCounts[layer := |labels|];
      layer := layer - 1;
    }
    layout := ConstructionLayout(labels, layerCounts);
    CountsMakeLayout(levels, top, layout);
  }

  /** The seeded choice on the top layer. */
  function EntryOf(levels: seq<int>, top: int, pick: nat): int {
    var labels := Labels(levels, top, top);
    if labels == [] then -1 else labels[pick % |labels|]
  }

  /** Every node of the top level is chosen by some draw, and a draw chooses by its remainder alone. */
  lemma EntryIsAnyTopNode(levels: seq<int>, top: nat, u: nat) returns (pick: nat)
    requires IsMaxLevel(levels, top) && u < |levels| && levels[u] == top
    ensures EntryOf(levels, top, pick) == u
  {
    hide Labels;
    LabelsFacts(levels, top, top);
    var labels := Labels(levels, top, top);
    pick :| pick < |labels| && labels[pick] == u;
    SmallRemainder(pick, |labels|);
  }

  lemma SmallRemainder(i: nat, n: nat)
    requires i < n
    ensures i % n == i
  {
  }

  /** With M = 1 the graph has a single layer, whatever is sampled; otherwise the samples are the levels. */
  lemma LevelsAreSampled(count: nat, m: int, sample: int -> nat, u: nat)
    requires u < count
    ensures AssignLevels(count, m, sample)[u] == if m <= 1 then 0 else sample(u)
  {
  }

  /** A seeded choice among the nodes of exactly the given layer; -1 when there are none. */
  method SelectEntryPointFromLayout(layout: ConstructionLayout, layer: nat, pick: nat) returns (entry: int)
    requires layer < |layout.layerCounts|
    requires forall i :: 0 <= i < |layout.layerCounts| ==> 0 <= layout.layerCounts[i] <= |layout.labels|
    requires layer + 1 < |layout.layerCounts| ==> layout.layerCounts[layer + 1] <= layout.layerCounts[layer]
    ensures var higher := if layer + 1 < |layout.layerCounts| then layout.layerCounts[layer + 1] else 0;
            var top := layout.labels[higher..layout.layerCounts[layer]];
            entry == if top == [] then -1 else top[pick % |top|]
  {
    var count := layout.layerCounts[layer];
    var higherCount := 0;
    if layer + 1 < |layout.layerCounts| {
      higherCount := layout.layerCounts[layer + 1];
    }
    var top := layout.labels[higherCount..count];
    if |top| == 0 {
      return -1;
    }
    return top[pick % |top|];
  }

  /** On the top layer the choice always succeeds and lands on a node of exactly that level. */
  lemma EntryIsOnTop(levels: seq<int>, top: nat, layout: ConstructionLayout, pick: nat)
    requires IsMaxLevel(levels, top) && IsLayout(levels, top, layout)
    ensures var segment := layout.labels[..layout.layerCounts[top]];
            && segment != [] && segment[pick % |segment|] == EntryOf(levels, top, pick)
            && 0 <= segment[pick % |segment|] < |levels|
            && levels[segment[pick % |segment|]] == top
  {
    var segment := layout.labels[..layout.layerCounts[top]];
    LabelsFacts(levels, top, top);
    var u :| 0 <= u < |levels| && levels[u] == top;
    assert u in segment;
    assert segment[pick % |segment|] in segment;
  }
}
