/** The multi-layer query: greedy descent with ef = 1, then one wide search of layer 0. */
module Descent {
  import opened Order
  import opened Sorting
  import opened Scans
  import opened Outcomes
  import opened Beams
  import opened BeamTheorems
  import opened BeamRanks
  import opened BeamLoss
  import opened GreedyLayer
  import opened GraphSearch
  import opened Heaps
  import opened Config
  import opened Graphs
  import opened Layout
  import opened Construction

  /** The nearest node a greedy search of one layer finds. */
  function NextEntry(adj: seq<seq<int>>, q: int -> real, entry: int): Option<int> {
    var w := Search(adj, q, [entry], 1).best;
    if w == [] then None else Some(w[0].id)
  }

  /** The entry each layer hands to the one below, from `layer` down to 0. */
  function Descend(layers: seq<seq<seq<int>>>, q: int -> real, layer: nat, entry: int): Option<int>
    requires layer < |layers|
  {
    if layer == 0 then Some(entry)
    else
      match NextEntry(layers[layer], q, entry)
      case None => None
      case Some(next) => Descend(layers, q, layer - 1, next)
  }

  function Query(
      layers: seq<seq<seq<int>>>, q: int -> real, maxLayer: nat, entry: int, k: int, ef: int)
    : Outcome<seq<Result>>
    requires maxLayer < |layers|
  {
    match Descend(layers, q, maxLayer, entry)
    case None => Err(IndexNotBuilt)
    case Some(base) =>
      var w := Search(layers[0], q, [base], ef).best;
      var results := Take(w, Limit(k, |w|));
      if results == [] then Err(IndexNotBuilt) else Ok(results)
  }

  lemma DescendStep(layers: seq<seq<seq<int>>>, q: int -> real, layer: nat, entry: int)
    requires 0 < layer < |layers|
    ensures Descend(layers, q, layer, entry) ==
            match NextEntry(layers[layer], q, entry)
            case None => None
            case Some(next) => Descend(layers, q, layer - 1, next)
  {
  }

  method DescendLayers(
      layers: seq<seq<seq<int>>>, q: int -> real, maxLayer: nat, entryPoint: int, scratch: Scratch)
    returns (base: Option<int>)
    requires maxLayer < |layers| && scratch.Valid()
    modifies scratch, scratch.visited, scratch.candidates, scratch.results
    ensures scratch.Valid() && (scratch.visited == old(scratch.visited) || fresh(scratch.visited))
    ensures base == Descend(layers, q, maxLayer, entryPoint)
  {
    var entry, layer := entryPoint, maxLayer;
    ghost var answer := Descend(layers, q, maxLayer, entryPoint);
    while layer > 0
      invariant 0 <= layer <= maxLayer && scratch.Valid()
      invariant scratch.visited == old(scratch.visited) || fresh(scratch.visited)
      invariant answer == Descend(layers, q, layer, entry)
    {
      DescendStep(layers, q, layer, entry);
      var next := SearchUpperLayer(layers[layer], q, entry, scratch);
      if next.None? {
        return None;
      }
      entry := next.value;
      layer := layer - 1;
    }
    return Some(entry);
  }

  /** The descent loop and the final search share one scratch. */
  method SearchLayers(
      layers: seq<seq<seq<int>>>, q: int -> real, count: nat, maxLayer: nat, entryPoint: int, k: int, ef: int)
    returns (out: Outcome<seq<Result>>)
    requires maxLayer < |layers|
    ensures out == Query(layers, q, maxLayer, entryPoint, k, ef)
  {
    var scratch := new Scratch();
    scratch.Reserve(count, ef);
    var base := DescendLayers(layers, q, maxLayer, entryPoint, scratch);
    if base.None? {
      return Err(IndexNotBuilt);
    }
    var results := GraphSearchLayerTopK(layers[0], q, base.value, ef, k, scratch);
    if |results| == 0 {
      return Err(IndexNotBuilt);
    }
    return Ok(results);
  }

  method SearchUpperLayer(adj: seq<seq<int>>, q: int -> real, entry: int, scratch: Scratch) returns (next: Option<int>)
    requires scratch.Valid()
    modifies scratch, scratch.visited, scratch.candidates, scratch.results
    ensures scratch.Valid() && (scratch.visited == old(scratch.visited) || fresh(scratch.visited))
    ensures next == NextEntry(adj, q, entry)
  {
    var found := GraphSearchLayerFromEntriesInto(adj, q, [entry], 1, scratch);
    if !found {
      return None;
    }
    OnlyResult(adj, q, entry, scratch.results.items);
    next := Some(scratch.results.items[0].id);
  }

  /** With ef = 1 the heap holds a single result, so its root is the sorted list's head. */
  lemma OnlyResult(adj: seq<seq<int>>, q: int -> real, entry: int, items: seq<Result>)
    requires multiset(items) == multiset(Search(adj, q, [entry], 1).best)
    requires Search(adj, q, [entry], 1).best != []
    ensures items == Search(adj, q, [entry], 1).best
  {
    var w := Search(adj, q, [entry], 1).best;
    SearchInv(adj, q, [entry], 1);
    SameMembers(items, w);
    assert |items| == 1 && items[0] in items;
    assert items[0] in w;
  }

  // ---------- valid graphs ----------

  function AtLeast(levels: seq<int>, layer: int): int -> bool {
    (u: int) => 0 <= u < |levels| && levels[u] >= layer
  }

  /** One layer of descent: the entry it returns sits on the layer and is no worse than the one given. */
  lemma LayerStep(levels: seq<int>, layer: int, maxDegree: int, adj: seq<seq<int>>, q: int -> real, entry: int, ef: int)
    requires ValidAdjacency(levels, layer, maxDegree, adj)
    requires ef > 0 && 0 <= entry < |levels| && levels[entry] >= layer
    ensures var w := Search(adj, q, [entry], ef).best;
            && w != [] && !Better(Result(entry, q(entry)), w[0])
            && forall r :: r in w ==> 0 <= r.id < |levels| && levels[r.id] >= layer && r.distance == q(r.id)
  {
    var inside := AtLeast(levels, layer);
    forall u, v | 0 <= u < |adj| && inside(u) && v in adj[u] && 0 <= v < |adj|
      ensures inside(v)
    {
      assert ValidNode(levels, layer, maxDegree, u, adj[u]);
    }
    assert forall v :: v in [entry] ==> v == entry;
    StaysInside(adj, q, [entry], ef, inside);
    assert entry in [entry];
    var b := Search(adj, q, [entry], ef);
    SearchInv(adj, q, [entry], ef);
    forall r | r in b.best
      ensures inside(r.id) && r.distance == q(r.id)
    {
      BestMember(Tag(q, b.visited), ef, r);
      TagMember(q, b.visited, r);
    }
  }

  lemma NextEntryFacts(levels: seq<int>, layer: int, maxDegree: int, adj: seq<seq<int>>, q: int -> real, entry: int)
    requires ValidAdjacency(levels, layer, maxDegree, adj)
    requires 0 <= entry < |levels| && levels[entry] >= layer
    ensures var next := NextEntry(adj, q, entry);
            && next.Some? && 0 <= next.value < |levels| && levels[next.value] >= layer
            && !Better(Result(entry, q(entry)), Result(next.value, q(next.value)))
  {
    LayerStep(levels, layer, maxDegree, adj, q, entry, 1);
    var w := Search(adj, q, [entry], 1).best;
    assert w[0] in w;
    assert w[0] == Result(w[0].id, q(w[0].id));
  }

  /** The descent always reaches layer 0, at a node no worse than where it started. */
  lemma {:induction false} DescentSucceeds(
      m: int, levels: seq<int>, layers: seq<seq<seq<int>>>, q: int -> real, layer: nat, entry: int)
    requires ValidLayers(m, levels, layers) && layer < |layers|
    requires 0 <= entry < |levels| && levels[entry] >= layer
    ensures var r := Descend(layers, q, layer, entry);
            && r.Some? && 0 <= r.value < |levels| && levels[r.value] >= 0
            && !Better(Result(entry, q(entry)), Result(r.value, q(r.value)))
    decreases layer
  {
    if layer > 0 {
      NextEntryFacts(levels, layer, LayerMaxDegree(m, layer), layers[layer], q, entry);
      var next := NextEntry(layers[layer], q, entry).value;
      DescentSucceeds(m, levels, layers, q, layer - 1, next);
      var r := Descend(layers, q, layer, entry).value;
      StrictTotalOrder(Result(entry, q(entry)), Result(r, q(r)), Result(next, q(next)));
    }
  }

  /**
   * On any valid graph a query succeeds; its answer is sorted, distinct, in range, at most k long,
   * correctly scored, and its head is no worse than the entry point.
   */
  lemma QuerySucceeds(
      m: int, levels: seq<int>, layers: seq<seq<seq<int>>>, entry: int, maxLayer: nat, q: int -> real, k: int, ef: int)
    requires ValidGraph(m, levels, layers, entry, maxLayer) && 1 <= k && 1 <= ef
    ensures var out := Query(layers, q, maxLayer, entry, k, ef);
            && out.Ok? && 1 <= |out.value| <= k
            && Sorted(out.value) && Distinct(Ids(out.value)) && InRange(|levels|, Ids(out.value))
            && (forall r :: r in out.value ==> r.distance == q(r.id))
            && !Better(Result(entry, q(entry)), out.value[0])
  {
    DescentSucceeds(m, levels, layers, q, maxLayer, entry);
    var base := Descend(layers, q, maxLayer, entry).value;
    LayerStep(levels, 0, LayerMaxDegree(m, 0), layers[0], q, base, ef);
    ResultIsTopOfVisited(layers[0], q, [base], ef);
    var w := Search(layers[0], q, [base], ef).best;
    TakeFacts(w, Limit(k, |w|), |levels|);
    StrictTotalOrder(Result(entry, q(entry)), w[0], Result(base, q(base)));
  }

  // ---------- the greedy descent, layer by layer ----------

  /** The entries of the layers: h[l] is where layer l is entered. */
  ghost predicate GreedyPath(layers: seq<seq<seq<int>>>, q: int -> real, top: nat, entry: int, h: seq<int>) {
    && |h| == top + 1 && top < |layers| && h[top] == entry
    && forall l :: 0 < l <= top ==> HandedOn(layers[l], q, h[l], h[l - 1])
  }

  lemma NextIsHandedOn(adj: seq<seq<int>>, q: int -> real, entry: int)
    requires 0 <= entry < |adj|
    ensures NextEntry(adj, q, entry).Some? && HandedOn(adj, q, entry, NextEntry(adj, q, entry).value)
  {
    hide Search, HandedOn;
    SearchHandsOn(adj, q, entry);
  }

  /** The descent passes the entry through every layer above 0 in this way. */
  lemma {:induction false} DescentIsGreedy(
      layers: seq<seq<seq<int>>>, q: int -> real, n: nat, top: nat, entry: int) returns (h: seq<int>)
    requires SameSize(layers, n) && top < |layers| && 0 <= entry < n
    ensures |h| == top + 1 && GreedyPath(layers, q, top, entry, h)
    ensures 0 <= h[0] < n && Descend(layers, q, top, entry) == Some(h[0])
    decreases top
  {
    hide HandedOn, NextEntry;
    if top == 0 {
      h := [entry];
    } else {
      NextIsHandedOn(layers[top], q, entry);
      var next := NextEntry(layers[top], q, entry).value;
      HandedInRange(layers[top], q, entry, next);
      var lower := DescentIsGreedy(layers, q, n, top - 1, next);
      h := lower + [entry];
      assert forall l :: 0 <= l < top ==> h[l] == lower[l];
      assert HandedOn(layers[top], q, h[top], h[top - 1]);
    }
  }

  /** An answer without the algorithm: the greedy path, then the first k of a settled search of layer 0. */
  ghost predicate Answers(
      layers: seq<seq<seq<int>>>, q: int -> real, maxLayer: nat, entry: int, k: nat, ef: int, answer: seq<Result>)
  {
    exists h: seq<int>, w :: AnsweredBy(layers, q, maxLayer, entry, k, ef, answer, h, w)
  }

  ghost predicate AnsweredBy(
      layers: seq<seq<seq<int>>>, q: int -> real, maxLayer: nat, entry: int, k: nat, ef: int, answer: seq<Result>,
      h: seq<int>, w: seq<Result>)
  {
    && GreedyPath(layers, q, maxLayer, entry, h) && Settled(layers[0], q, [h[0]], ef, w) && w != []
    && answer == if |w| <= k then w else w[..k]
  }

  lemma QueryIsGreedy(
      m: int, levels: seq<int>, layers: seq<seq<seq<int>>>, entry: int, maxLayer: nat, q: int -> real, k: int, ef: int)
    requires ValidGraph(m, levels, layers, entry, maxLayer) && 1 <= k && 1 <= ef
    ensures Query(layers, q, maxLayer, entry, k, ef).Ok?
    ensures Answers(layers, q, maxLayer, entry, k, ef, Query(layers, q, maxLayer, entry, k, ef).value)
  {
    hide Search, Descend, Settled, GreedyPath, ValidAdjacency;
    ValidSizes(m, levels, layers, maxLayer);
    var h := DescentIsGreedy(layers, q, |levels|, maxLayer, entry);
    SearchSettles(layers[0], q, [h[0]], ef);
    QuerySucceeds(m, levels, layers, entry, maxLayer, q, k, ef);
    var w := Search(layers[0], q, [h[0]], ef).best;
    assert AnsweredBy(layers, q, maxLayer, entry, k, ef, Query(layers, q, maxLayer, entry, k, ef).value, h, w);
  }

  lemma ValidSizes(m: int, levels: seq<int>, layers: seq<seq<seq<int>>>, maxLayer: nat)
    requires ValidLayers(m, levels, layers) && |layers| == maxLayer + 1
    ensures SameSize(layers, |levels|)
  {
    forall l | 0 <= l < |layers|
      ensures |layers[l]| == |levels|
    {
      assert ValidAdjacency(levels, l, LayerMaxDegree(m, l), layers[l]);
    }
  }

  lemma TakeFacts(w: seq<Result>, k: int, n: int)
    requires Sorted(w) && Distinct(Ids(w)) && forall r :: r in w ==> 0 <= r.id < n
    ensures var t := Take(w, k);
            && Sorted(t) && Distinct(Ids(t)) && InRange(n, Ids(t)) && forall r :: r in t ==> r in w
  {
    var t := Take(w, k);
    assert forall i :: 0 <= i < |t| ==> Ids(t)[i] == Ids(w)[i] && t[i] in w;
  }

  // ---------- small indexes are exact ----------

  ghost predicate CompleteBase(base: seq<seq<int>>) {
    forall u, v :: 0 <= u < |base| && 0 <= v < |base| && u != v ==> v in base[u]
  }

  lemma TakeTake<T>(s: seq<T>, k: int, ef: int)
    requires k <= ef
    ensures Take(Take(s, ef), k) == Take(s, k)
  {
  }

  /** Over a complete base layer the answer is the brute-force answer, whatever the upper layers are. */
  lemma CompleteBaseIsExact(
      m: int, levels: seq<int>, layers: seq<seq<seq<int>>>, entry: int, maxLayer: nat, q: int -> real, k: int, ef: int)
    requires ValidGraph(m, levels, layers, entry, maxLayer) && 1 <= k <= ef
    requires CompleteBase(layers[0])
    ensures Query(layers, q, maxLayer, entry, k, ef) == Ok(Best(Tag(q, UpTo(|levels|)), k))
  {
    hide Sort, Search, Descend, ValidNode;
    DescentSucceeds(m, levels, layers, q, maxLayer, entry);
    var base := Descend(layers, q, maxLayer, entry).value;
    assert ValidAdjacency(levels, 0, LayerMaxDegree(m, 0), layers[0]);
    BeamTheorems.CompleteLayer(layers[0], q, base, ef);
    var b := Search(layers[0], q, [base], ef);
    SearchInv(layers[0], q, [base], ef);
    forall x
      ensures x in b.visited <==> x in UpTo(|levels|)
    {
      if 0 <= x < |levels| {
        assert UpTo(|levels|)[x] == x;
      }
    }
    SortOfSet(q, b.visited, UpTo(|levels|));
    TakeTake(Sort(Tag(q, b.visited)), k, ef);
    QuerySucceeds(m, levels, layers, entry, maxLayer, q, k, ef);
  }

  /** Every node of the layer can be reached from every other one. */
  ghost predicate Connected(adj: seq<seq<int>>) {
    forall u, v :: 0 <= u < |adj| && 0 <= v < |adj| ==> Reachable(adj, [u], v)
  }

  /** Over a connected base layer the answer is the brute-force answer as soon as efSearch covers all the nodes. */
  lemma ConnectedBaseIsExact(
      m: int, levels: seq<int>, layers: seq<seq<seq<int>>>, entry: int, maxLayer: nat, q: int -> real, k: int, ef: int)
    requires ValidGraph(m, levels, layers, entry, maxLayer) && 1 <= k <= ef && |levels| <= ef
    requires Connected(layers[0])
    ensures Query(layers, q, maxLayer, entry, k, ef) == Ok(Best(Tag(q, UpTo(|levels|)), k))
  {
    hide Sort, Search;
    DescentSucceeds(m, levels, layers, q, maxLayer, entry);
    var base := Descend(layers, q, maxLayer, entry).value;
    assert ValidAdjacency(levels, 0, LayerMaxDegree(m, 0), layers[0]);
    FullyReachable(layers[0], q, [base], ef);
    TakeTake(Sort(Tag(q, UpTo(|levels|))), k, ef);
    QuerySucceeds(m, levels, layers, entry, maxLayer, q, k, ef);
  }

  // ---------- a wider search of layer 0 ----------

  /** Raising efSearch neither turns an answer into an error nor makes a rank of it worse. */
  ghost predicate QueryKept(
      layers: seq<seq<seq<int>>>, q: int -> real, maxLayer: nat, entry: int, k: int, ef: int, ef': int)
    requires maxLayer < |layers|
  {
    var narrow, wide := Query(layers, q, maxLayer, entry, k, ef), Query(layers, q, maxLayer, entry, k, ef');
    narrow.Ok? ==> wide.Ok? && NoWorse(narrow.value, wide.value)
  }

  lemma QueryKeepsRanks(
      layers: seq<seq<seq<int>>>, q: int -> real, maxLayer: nat, entry: int, k: int, ef: int, ef': int)
    requires maxLayer < |layers| && ef <= ef' && !CanLose(|layers[0]|, q)
    ensures QueryKept(layers, q, maxLayer, entry, k, ef, ef')
  {
    hide CanLose, Search;
    match Descend(layers, q, maxLayer, entry) {
      case None =>
      case Some(base) => KeepsRanks(layers[0], q, base, ef, ef');
    }
  }

  /** On the valid graphs over n nodes, for any two widths. */
  ghost predicate QueriesKept(m: int, n: nat, q: int -> real) {
    forall levels: seq<int>, layers, entry, maxLayer: nat, k, ef, ef' ::
      |levels| == n && ValidGraph(m, levels, layers, entry, maxLayer) && 1 <= k <= ef <= ef' ==>
        QueryKept(layers, q, maxLayer, entry, k, ef, ef')
  }

  /** A plain layer on its own is a valid graph. */
  lemma PlainIsValid(m: int, adj: seq<seq<int>>, e: int)
    requires Plain(adj) && LayerMaxDegree(m, 0) >= 2 && 0 <= e < |adj|
    ensures ValidGraph(m, seq(|adj|, _ => 0), [adj], e, 0)
  {
    var levels := seq(|adj|, _ => 0);
    forall u | 0 <= u < |adj|
      ensures ValidNode(levels, 0, LayerMaxDegree(m, 0), u, adj[u])
    {
      forall v | v in adj[u]
        ensures 0 <= v < |levels|
      {
        var i :| 0 <= i < |adj[u]| && adj[u][i] == v;
      }
    }
  }

  /** A search of one layer that loses a rank is a query that loses it. */
  lemma LossIsAQuery(m: int, n: nat, q: int -> real, adj: seq<seq<int>>, e: int, ef: int, ef': int)
    requires Loss(n, q, adj, e, ef, ef') && LayerMaxDegree(m, 0) >= 2
    ensures !QueriesKept(m, n, q)
  {
    hide Search, Plain, ValidGraph;
    PlainIsValid(m, adj, e);
    var w, w' := Search(adj, q, [e], ef).best, Search(adj, q, [e], ef').best;
    ResultIsTopOfVisited(adj, q, [e], ef);
    CutRanks(w, w', ef);
    assert !QueryKept([adj], q, 0, e, ef, ef, ef');
    assert ValidGraph(m, seq(n, _ => 0), [adj], e, 0);
  }

  lemma CutRanks(w: seq<Result>, w': seq<Result>, k: nat)
    requires |w| <= k
    ensures Take(w, k) == w
    ensures NoWorse(w, Take(w', k)) ==> NoWorse(w, w')
  {
  }

  /**
   * The exact condition for whole queries, for every M a build accepts: raising efSearch never makes a rank of the
   * answer worse, on every valid graph over n nodes, if and only if the distances do not allow a detour. The upper
   * layers run with ef = 1 for every efSearch.
   */
  lemma QueriesKeptExactly(m: int, n: nat, q: int -> real)
    ensures !CanLose(n, q) ==> QueriesKept(m, n, q)
    ensures 1 <= m < HALF && QueriesKept(m, n, q) ==> !CanLose(n, q)
  {
    hide CanLose, ValidLayers, QueryKept;
    RanksKeptExactly(n, q);
    if CanLose(n, q) {
      var adj, e, ef, ef' :| Loss(n, q, adj, e, ef, ef');
      if 1 <= m < HALF {
        LossIsAQuery(m, n, q, adj, e, ef, ef');
      }
    } else {
      forall levels: seq<int>, layers, entry, maxLayer: nat, k, ef, ef'
        | |levels| == n && ValidGraph(m, levels, layers, entry, maxLayer) && 1 <= k <= ef <= ef'
        ensures QueryKept(layers, q, maxLayer, entry, k, ef, ef')
      {
        BaseSize(m, levels, layers, maxLayer);
        QueryKeepsRanks(layers, q, maxLayer, entry, k, ef, ef');
      }
    }
  }

  lemma BaseSize(m: int, levels: seq<int>, layers: seq<seq<seq<int>>>, maxLayer: nat)
    requires ValidLayers(m, levels, layers) && |layers| == maxLayer + 1
    ensures |layers[0]| == |levels|
  {
    assert ValidAdjacency(levels, 0, LayerMaxDegree(m, 0), layers[0]);
  }
}
