/** The insertion loop of the baseline and the invariant every insertion keeps. */
module Insertion {
  import opened Order
  import opened Sorting
  import opened Outcomes
  import opened Prune
  import opened Beams
  import opened BeamTheorems
  import opened GraphSearch
  import opened Config
  import opened Layout
  import opened Graphs
  import opened StandardHNSW

  datatype Standard = Standard(layers: seq<seq<seq<int>>>, entryPoint: int, maxLayer: int)

  // ---------- one insertion as a function ----------

  /** Found ids replace the entries; an empty search keeps them. */
  function NextEntries(adj: seq<seq<int>>, q: int -> real, entries: seq<int>, ef: int): seq<int> {
    var found := Ids(Search(adj, q, entries, ef).best);
    if found != [] then found else entries
  }

  /** Greedy descent through the layers above the node's own level. */
  function GreedyDown(layers: seq<seq<seq<int>>>, q: int -> real, layer: int, level: int, entries: seq<int>): seq<int>
    requires layer < |layers| && level >= 0
    decreases layer - level
  {
    if layer <= level then entries
    else GreedyDown(layers, q, layer - 1, level, NextEntries(layers[layer], q, entries, 1))
  }

  /** The neighbours a new node selects on one layer. */
  function Chosen(adj: seq<seq<int>>, d: (int, int) -> real, node: int, entries: seq<int>, ef: int, maxDegree: int)
    : seq<int>
  {
    Selected(d, node, Ids(Search(adj, To(d, node), entries, ef).best), maxDegree)
  }

  lemma ChosenInRange(
      adj: seq<seq<int>>, d: (int, int) -> real, node: int, entries: seq<int>, ef: int, maxDegree: int)
    requires maxDegree >= 1
    ensures InRange(|adj|, Chosen(adj, d, node, entries, ef, maxDegree))
  {
    var b := Search(adj, To(d, node), entries, ef);
    ResultIsTopOfVisited(adj, To(d, node), entries, ef);
    var t := Chosen(adj, d, node, entries, ef, maxDegree);
    SelectedFacts(d, node, Ids(b.best), maxDegree);
    forall i | 0 <= i < |t|
      ensures 0 <= t[i] < |adj|
    {
      assert t[i] in t && t[i] in Ids(b.best);
    }
  }

  /** One layer after the new node has been connected on it. */
  function ConnectOn(
      adj: seq<seq<int>>, d: (int, int) -> real, node: int, entries: seq<int>, ef: int, maxDegree: int)
    : (r: seq<seq<int>>)
    requires maxDegree >= 1 && 0 <= node < |adj|
    ensures |r| == |adj|
  {
    ChosenInRange(adj, d, node, entries, ef, maxDegree);
    Connected(d, adj, node, Chosen(adj, d, node, entries, ef, maxDegree), maxDegree)
  }

  type Adjacency = seq<seq<int>>

  /** What happens to one layer, and which entries go on to the next: (layer, adjacency, entries). */
  type OnLayer = (int, Adjacency, seq<int>) -> Adjacency
  type NextDown = (int, Adjacency, seq<int>) -> seq<int>

  function ConnectNode(d: (int, int) -> real, node: int, ef: int, m: int): OnLayer {
    (layer: int, adj: Adjacency, entries: seq<int>) =>
      if LayerMaxDegree(m, layer) >= 1 && 0 <= node < |adj| then
        ConnectOn(adj, d, node, entries, ef, LayerMaxDegree(m, layer))
      else adj
  }

  function CarryEntries(d: (int, int) -> real, node: int, ef: int): NextDown {
    (layer: int, adj: Adjacency, entries: seq<int>) => NextEntries(adj, To(d, node), entries, ef)
  }

  /** From `layer` down to 0, change each layer and carry the entries on. */
  function Down(layers: seq<Adjacency>, on: OnLayer, next: NextDown, layer: int, entries: seq<int>): (r: seq<Adjacency>)
    requires layer < |layers|
    ensures |r| == |layers|
    decreases layer + 1
  {
    if layer < 0 then layers
    else
      Down(layers[layer := on(layer, layers[layer], entries)], on, next, layer - 1, next(layer, layers[layer], entries))
  }

  function MinOf(a: int, b: int): int {
    if a > b then b else a
  }

  function Insert(levels: seq<int>, d: (int, int) -> real, m: int, ef: int, st: Standard, node: nat): (r: Standard)
    requires node < |levels| && st.maxLayer < |st.layers| && levels[node] >= 0
    ensures |r.layers| == |st.layers|
  {
    var level := levels[node];
    var entries := GreedyDown(st.layers, To(d, node), st.maxLayer, level, [st.entryPoint]);
    var layers := Down(st.layers, ConnectNode(d, node, ef, m), CarryEntries(d, node, ef),
                       MinOf(level, st.maxLayer), entries);
    Raised(levels, st, node, layers)
  }

  // ---------- the invariant ----------

  ghost predicate LayersOk(levels: seq<int>, m: int, inserted: int, layers: seq<seq<seq<int>>>) {
    forall l :: 0 <= l < |layers| ==> LayerOk(levels, l, LayerMaxDegree(m, l), inserted, layers[l])
  }

  ghost predicate AllLinked(inserted: int, base: seq<seq<int>>) {
    forall u :: 0 <= u < inserted && u < |base| ==> base[u] != []
  }

  /** What holds after the first `inserted` nodes are in. */
  ghost predicate InsertedOk(levels: seq<int>, m: int, inserted: nat, st: Standard) {
    && 1 <= inserted <= |levels|
    && 0 <= st.maxLayer < |st.layers|
    && 0 <= st.entryPoint < inserted && levels[st.entryPoint] == st.maxLayer
    && (forall u :: 0 <= u < inserted ==> levels[u] <= st.maxLayer)
    && LayersOk(levels, m, inserted, st.layers)
    && (inserted >= 2 ==> AllLinked(inserted, st.layers[0]))
  }

  ghost predicate AllLive(levels: seq<int>, layer: int, inserted: int, ids: seq<int>) {
    forall e :: e in ids ==> Lives(levels, layer, inserted, e)
  }

  function LivesOn(levels: seq<int>, layer: int, inserted: int): int -> bool {
    (u: int) => Lives(levels, layer, inserted, u)
  }

  /** Searching a valid layer from live entries finds live nodes, at least one. */
  lemma SearchFindsLive(
      levels: seq<int>, layer: int, maxDegree: int, inserted: int, adj: seq<seq<int>>, q: int -> real,
      entries: seq<int>, ef: int)
    requires LayerOk(levels, layer, maxDegree, inserted, adj) && ef > 0
    requires entries != [] && AllLive(levels, layer, inserted, entries)
    ensures var found := Ids(Search(adj, q, entries, ef).best);
            found != [] && AllLive(levels, layer, inserted, found)
  {
    var inside := LivesOn(levels, layer, inserted);
    forall u, v | 0 <= u < |adj| && inside(u) && v in adj[u] && 0 <= v < |adj|
      ensures inside(v)
    {
      assert NodeOk(levels, layer, maxDegree, inserted, u, adj[u]);
    }
    StaysInside(adj, q, entries, ef, inside);
    assert entries[0] in entries;
    var w := Search(adj, q, entries, ef).best;
    forall e | e in Ids(w)
      ensures Lives(levels, layer, inserted, e)
    {
      IdsMember(w, e);
    }
  }

  lemma LiveBelow(levels: seq<int>, layer: int, lower: int, inserted: int, ids: seq<int>)
    requires AllLive(levels, layer, inserted, ids) && lower <= layer
    ensures AllLive(levels, lower, inserted, ids)
  {
    assert forall e :: Lives(levels, layer, inserted, e) ==> Lives(levels, lower, inserted, e);
  }

  /** The descent hands live entries to the node's own top layer. */
  lemma {:induction false} GreedyDownIsLive(
      levels: seq<int>, m: int, inserted: int, layers: seq<seq<seq<int>>>, q: int -> real, layer: int, level: int,
      entries: seq<int>)
    requires LayersOk(levels, m, inserted, layers) && layer < |layers| && level >= 0
    requires entries != [] && AllLive(levels, layer, inserted, entries)
    ensures var r := GreedyDown(layers, q, layer, level, entries);
            r != [] && AllLive(levels, MinOf(level, layer), inserted, r)
    decreases layer - level
  {
    if layer > level {
      SearchFindsLive(levels, layer, LayerMaxDegree(m, layer), inserted, layers[layer], q, entries, 1);
      var next := NextEntries(layers[layer], q, entries, 1);
      LiveBelow(levels, layer, layer - 1, inserted, next);
      GreedyDownIsLive(levels, m, inserted, layers, q, layer - 1, level, next);
    }
  }

  /** The new node has an edge, nobody lost their last one, and the second node links the first back. */
  ghost predicate StaysLinked(node: int, before: seq<seq<int>>, after: seq<seq<int>>) {
    && 0 <= node < |before| == |after|
    && after[node] != []
    && (forall u :: 0 <= u < |before| && u != node && before[u] != [] ==> after[u] != [])
    && (node == 1 ==> after[0] != [])
  }

  /** Connecting on one layer: valid for one more node, which gets at least one edge; nobody loses their last one. */
  lemma ConnectOnFacts(
      levels: seq<int>, d: (int, int) -> real, layer: int, maxDegree: int, node: nat, adj: seq<seq<int>>,
      entries: seq<int>, ef: int)
    requires node < |levels| && levels[node] >= layer && maxDegree >= 1 && ef > 0
    requires LayerOk(levels, layer, maxDegree, node, adj)
    requires entries != [] && AllLive(levels, layer, node, entries)
    ensures var r := ConnectOn(adj, d, node, entries, ef, maxDegree);
            LayerOk(levels, layer, maxDegree, node + 1, r) && StaysLinked(node, adj, r)
  {
    SearchFindsLive(levels, layer, maxDegree, node, adj, To(d, node), entries, ef);
    var found := Ids(Search(adj, To(d, node), entries, ef).best);
    var chosen := Chosen(adj, d, node, entries, ef, maxDegree);
    SelectedFacts(d, node, found, maxDegree);
    assert found[0] in found && found[0] != node;
    ConnectedFacts(d, levels, layer, maxDegree, node, adj, chosen);
    assert chosen[0] in chosen;
  }

  /**
   * The downward pass, for any layer property: if each step turns `before` into `after` and passes
   * live entries on, every layer at or below ends up `after`, layers above are untouched, and layer 0
   * is one step on live entries.
   */
  lemma {:induction false} DownFacts(
      layers: seq<Adjacency>, on: OnLayer, next: NextDown, layer: int, entries: seq<int>,
      before: (int, Adjacency) -> bool, after: (int, Adjacency) -> bool, live: (int, seq<int>) -> bool)
    requires layer < |layers| && live(layer, entries)
    requires forall l :: 0 <= l <= layer ==> before(l, layers[l])
    requires forall l, adj, es :: 0 <= l <= layer && before(l, adj) && live(l, es) ==>
               after(l, on(l, adj, es)) && live(l - 1, next(l, adj, es))
    ensures var r := Down(layers, on, next, layer, entries);
            && (forall l :: 0 <= l <= layer ==> after(l, r[l]))
            && (forall l :: layer < l < |layers| && 0 <= l ==> r[l] == layers[l])
            && (layer >= 0 ==> exists es :: live(0, es) && r[0] == on(0, layers[0], es))
    decreases layer + 1
  {
    if layer >= 0 {
      var adj, es := on(layer, layers[layer], entries), next(layer, layers[layer], entries);
      DownFacts(layers[layer := adj], on, next, layer - 1, es, before, after, live);
    }
  }

  ghost function ValidBefore(levels: seq<int>, m: int, node: int): (int, Adjacency) -> bool {
    (l: int, adj: Adjacency) => LayerOk(levels, l, LayerMaxDegree(m, l), node, adj)
  }

  ghost function LiveEntries(levels: seq<int>, node: int): (int, seq<int>) -> bool {
    (l: int, es: seq<int>) => es != [] && AllLive(levels, l, node, es)
  }

  /** One step of the pass on one layer. */
  lemma StepDown(
      levels: seq<int>, d: (int, int) -> real, m: int, node: nat, ef: int, l: int, adj: Adjacency, es: seq<int>)
    requires node < |levels| && 0 <= l <= levels[node] && 1 <= m < HALF && ef > 0
    requires LayerOk(levels, l, LayerMaxDegree(m, l), node, adj)
    requires es != [] && AllLive(levels, l, node, es)
    ensures LayerOk(levels, l, LayerMaxDegree(m, l), node + 1, ConnectNode(d, node, ef, m)(l, adj, es))
    ensures StaysLinked(node, adj, ConnectNode(d, node, ef, m)(l, adj, es))
    ensures var next := CarryEntries(d, node, ef)(l, adj, es); next != [] && AllLive(levels, l - 1, node, next)
  {
    ConnectOnFacts(levels, d, l, LayerMaxDegree(m, l), node, adj, es, ef);
    SearchFindsLive(levels, l, LayerMaxDegree(m, l), node, adj, To(d, node), es, ef);
    LiveBelow(levels, l, l - 1, node, NextEntries(adj, To(d, node), es, ef));
  }

  /** Connecting downwards: valid layers for one more node, and nobody unlinked on layer 0. */
  lemma ConnectDownFacts(
      levels: seq<int>, d: (int, int) -> real, m: int, node: nat, layers: seq<Adjacency>, low: nat,
      entries: seq<int>, ef: int)
    requires node < |levels| && low < |layers| && 1 <= m < HALF && ef > 0 && low <= levels[node]
    requires LayersOk(levels, m, node, layers)
    requires entries != [] && AllLive(levels, low, node, entries)
    ensures var r := Down(layers, ConnectNode(d, node, ef, m), CarryEntries(d, node, ef), low, entries);
            LayersOk(levels, m, node + 1, r) && StaysLinked(node, layers[0], r[0])
  {
    var on, next := ConnectNode(d, node, ef, m), CarryEntries(d, node, ef);
    var before, after := ValidBefore(levels, m, node), ValidBefore(levels, m, node + 1);
    var live := LiveEntries(levels, node);
    forall l, adj, es | 0 <= l <= low && before(l, adj) && live(l, es)
      ensures after(l, on(l, adj, es)) && live(l - 1, next(l, adj, es))
    {
      StepDown(levels, d, m, node, ef, l, adj, es);
    }
    DownFacts(layers, on, next, low, entries, before, after, live);
    var r := Down(layers, on, next, low, entries);
    LayersAfter(levels, m, node, layers, r, low);
    var es :| live(0, es) && r[0] == on(0, layers[0], es);
    StepDown(levels, d, m, node, ef, 0, layers[0], es);
  }

  /** Layers above the node's reach only gain an inserted node without edges. */
  lemma LayersAfter(levels: seq<int>, m: int, node: nat, before: seq<Adjacency>, after: seq<Adjacency>, low: int)
    requires node < |levels| && 1 <= m < HALF && |before| == |after| && LayersOk(levels, m, node, before)
    requires forall l :: 0 <= l <= low && l < |after| ==> LayerOk(levels, l, LayerMaxDegree(m, l), node + 1, after[l])
    requires forall l :: low < l < |before| && 0 <= l ==> after[l] == before[l]
    ensures LayersOk(levels, m, node + 1, after)
  {
    forall l | 0 <= l < |after|
      ensures LayerOk(levels, l, LayerMaxDegree(m, l), node + 1, after[l])
    {
      if l > low {
        LayerGrows(levels, l, LayerMaxDegree(m, l), node, before[l]);
      }
    }
  }

  lemma LinkedAfter(node: nat, before: Adjacency, after: Adjacency)
    requires StaysLinked(node, before, after) && node >= 1
    requires node >= 2 ==> AllLinked(node, before)
    ensures AllLinked(node + 1, after)
  {
  }

  /** The state with the changed layers; a node above the maximum becomes the entry point. */
  function Raised(levels: seq<int>, st: Standard, node: nat, layers: seq<Adjacency>): Standard
    requires node < |levels|
  {
    if levels[node] > st.maxLayer then Standard(layers, node, levels[node]) else st.(layers := layers)
  }

  lemma RaisedKeeps(levels: seq<int>, m: int, node: nat, st: Standard, layers: seq<Adjacency>)
    requires InsertedOk(levels, m, node, st) && node < |levels| && 0 <= levels[node] < |layers| == |st.layers|
    requires LayersOk(levels, m, node + 1, layers) && AllLinked(node + 1, layers[0])
    ensures InsertedOk(levels, m, node + 1, Raised(levels, st, node, layers))
  {
  }

  /** Every insertion keeps the invariant. */
  lemma InsertKeeps(levels: seq<int>, d: (int, int) -> real, m: int, ef: int, st: Standard, node: nat)
    requires InsertedOk(levels, m, node, st) && node < |levels| && 1 <= m < HALF && ef > 0 && Levels(levels)
    requires levels[node] < |st.layers|
    ensures InsertedOk(levels, m, node + 1, Insert(levels, d, m, ef, st, node))
  {
    var level, low := levels[node], MinOf(levels[node], st.maxLayer);
    GreedyDownIsLive(levels, m, node, st.layers, To(d, node), st.maxLayer, level, [st.entryPoint]);
    var entries := GreedyDown(st.layers, To(d, node), st.maxLayer, level, [st.entryPoint]);
    ConnectDownFacts(levels, d, m, node, st.layers, low, entries, ef);
    var layers := Down(st.layers, ConnectNode(d, node, ef, m), CarryEntries(d, node, ef), low, entries);
    LinkedAfter(node, st.layers[0], layers[0]);
    RaisedKeeps(levels, m, node, st, layers);
    assert Insert(levels, d, m, ef, st, node) == Raised(levels, st, node, layers);
  }

  // ---------- the insertion loop ----------

  function Blank(n: nat): (adj: Adjacency)
    ensures |adj| == n && forall u :: 0 <= u < n ==> adj[u] == []
  {
    seq(n, _ => [])
  }

  /** Node 0 alone: no edges, and its level is the maximum so far. */
  function FirstNode(levels: seq<int>, top: nat): Standard
    requires levels != []
  {
    Standard(seq(top + 1, _ => Blank(|levels|)), 0, levels[0])
  }

  /** The state after nodes 0 to node are in. */
  function InsertedUpTo(levels: seq<int>, top: nat, d: (int, int) -> real, m: int, ef: int, node: nat): (st: Standard)
    requires node < |levels| && Levels(levels)
    requires forall u :: 0 <= u < |levels| ==> levels[u] <= top
    ensures st.maxLayer < |st.layers| == top + 1
  {
    if node == 0 then FirstNode(levels, top)
    else Insert(levels, d, m, ef, InsertedUpTo(levels, top, d, m, ef, node - 1), node)
  }

  lemma {:induction false} InsertedUpToOk(
      levels: seq<int>, top: nat, d: (int, int) -> real, m: int, ef: int, node: nat)
    requires node < |levels| && Levels(levels) && 1 <= m < HALF && ef > 0
    requires forall u :: 0 <= u < |levels| ==> levels[u] <= top
    ensures InsertedOk(levels, m, node + 1, InsertedUpTo(levels, top, d, m, ef, node))
  {
    hide InsertedOk, Insert, FirstNode;
    if node == 0 {
      FirstNodeOk(levels, top, m);
    } else {
      InsertedUpToOk(levels, top, d, m, ef, node - 1);
      InsertKeeps(levels, d, m, ef, InsertedUpTo(levels, top, d, m, ef, node - 1), node);
    }
  }

  lemma FirstNodeOk(levels: seq<int>, top: nat, m: int)
    requires levels != [] && Levels(levels) && 1 <= m < HALF
    requires forall u :: 0 <= u < |levels| ==> levels[u] <= top
    ensures InsertedOk(levels, m, 1, FirstNode(levels, top))
  {
    var st := FirstNode(levels, top);
    forall l | 0 <= l < |st.layers|
      ensures LayerOk(levels, l, LayerMaxDegree(m, l), 1, st.layers[l])
    {
      forall u | 0 <= u < |levels|
        ensures NodeOk(levels, l, LayerMaxDegree(m, l), 1, u, st.layers[l][u])
      {
        assert st.layers[l][u] == [];
      }
    }
  }

  /** The maximum level so far is the entry point's, after every single insertion. */
  lemma EntryTracksMaximum(levels: seq<int>, top: nat, d: (int, int) -> real, m: int, ef: int, node: nat)
    requires node < |levels| && Levels(levels) && 1 <= m < HALF && ef > 0
    requires forall u :: 0 <= u < |levels| ==> levels[u] <= top
    ensures var st := InsertedUpTo(levels, top, d, m, ef, node);
            && IsMaxLevel(levels[..node + 1], st.maxLayer)
            && 0 <= st.entryPoint <= node && levels[st.entryPoint] == st.maxLayer
  {
    InsertedUpToOk(levels, top, d, m, ef, node);
    var st := InsertedUpTo(levels, top, d, m, ef, node);
    assert levels[..node + 1][st.entryPoint] == st.maxLayer;
  }

  /** A finished baseline build is a valid graph, so queries on it succeed too. */
  lemma FinishedIsValid(levels: seq<int>, m: int, st: Standard, top: nat)
    requires InsertedOk(levels, m, |levels|, st) && |st.layers| == top + 1 && IsMaxLevel(levels, top)
    ensures st.maxLayer == top && ValidGraph(m, levels, st.layers, st.entryPoint, st.maxLayer)
  {
    var u :| 0 <= u < |levels| && levels[u] == top;
    forall l | 0 <= l < |st.layers|
      ensures ValidAdjacency(levels, l, LayerMaxDegree(m, l), st.layers[l])
    {
      forall u | 0 <= u < |levels|
        ensures ValidNode(levels, l, LayerMaxDegree(m, l), u, st.layers[l][u])
      {
        assert NodeOk(levels, l, LayerMaxDegree(m, l), |levels|, u, st.layers[l][u]);
      }
    }
  }

  method GreedyDescent(
      layers: seq<Adjacency>, q: int -> real, maxLayer: nat, level: nat, entry: int, scratch: Scratch)
    returns (entries: seq<int>)
    requires maxLayer < |layers| && scratch.Valid()
    modifies scratch, scratch.visited, scratch.candidates, scratch.results
    ensures scratch.Valid() && (scratch.visited == old(scratch.visited) || fresh(scratch.visited))
    ensures entries == GreedyDown(layers, q, maxLayer, level, [entry])
  {
    hide GreedyDown, NextEntries;
    entries := [entry];
    var layer := maxLayer;
    ghost var answer := GreedyDown(layers, q, maxLayer, level, [entry]);
    while layer > level
      invariant 0 <= layer <= maxLayer && scratch.Valid()
      invariant scratch.visited == old(scratch.visited) || fresh(scratch.visited)
      invariant answer == GreedyDown(layers, q, layer, level, entries)
    {
      GreedyStep(layers, q, layer, level, entries);
      var results := GraphSearchLayerFromEntries(layers[layer], q, entries, 1, scratch);
      if |results| > 0 {
        entries := Ids(results);
      }
      layer := layer - 1;
    }
    GreedyEnds(layers, q, layer, level, entries);
  }

  lemma GreedyStep(layers: seq<Adjacency>, q: int -> real, layer: int, level: nat, entries: seq<int>)
    requires level < layer < |layers|
    ensures var found := Ids(Search(layers[layer], q, entries, 1).best);
            GreedyDown(layers, q, layer, level, entries) ==
            GreedyDown(layers, q, layer - 1, level, if found != [] then found else entries)
  {
  }

  lemma GreedyEnds(layers: seq<Adjacency>, q: int -> real, layer: int, level: nat, entries: seq<int>)
    requires layer < |layers| && layer <= level
    ensures GreedyDown(layers, q, layer, level, entries) == entries
  {
  }

  /** What the proof of a step needs: a valid layer and live entries. */
  ghost predicate StepReady(
      levels: seq<int>, layer: int, maxDegree: int, node: int, adj: Adjacency, entries: seq<int>)
  {
    && 0 <= node < |levels| && levels[node] >= layer && maxDegree >= 1
    && LayerOk(levels, layer, maxDegree, node, adj)
    && entries != [] && AllLive(levels, layer, node, entries)
  }

  /** Selecting among the results of a search and connecting to the choice cannot fail on a valid layer. */
  lemma StepSucceeds(
      levels: seq<int>, layer: int, maxDegree: int, node: int, adj: Adjacency, d: (int, int) -> real,
      entries: seq<int>, ef: int)
    requires StepReady(levels, layer, maxDegree, node, adj, entries) && ef > 0
    ensures var found := Ids(Search(adj, To(d, node), entries, ef).best);
            var chosen := Chosen(adj, d, node, entries, ef, maxDegree);
            && SelectOutcome(|adj|, d, node, found, maxDegree) == Ok(chosen)
            && LinkEach(d, adj[node := chosen], node, chosen, maxDegree) ==
               Ok(ConnectOn(adj, d, node, entries, ef, maxDegree))
  {
    SearchFindsLive(levels, layer, maxDegree, node, adj, To(d, node), entries, ef);
    var found := Ids(Search(adj, To(d, node), entries, ef).best);
    FirstBadExact(|adj|, node, found);
    SelectedFacts(d, node, found, maxDegree);
    ConnectSucceeds(d, levels, layer, maxDegree, node, adj, Chosen(adj, d, node, entries, ef, maxDegree));
  }

  /** Search one layer, select, connect, and carry the candidates on; a degree bound below one is an error. */
  method ConnectLayer(
      adj: Adjacency, d: (int, int) -> real, ghost levels: seq<int>, ghost layer: int, node: nat, entries: seq<int>,
      ef: int, maxDegree: int, scratch: Scratch)
    returns (out: Outcome<(Adjacency, seq<int>)>)
    requires scratch.Valid() && node < |adj| && ef > 0
    modifies scratch, scratch.visited, scratch.candidates, scratch.results
    ensures scratch.Valid() && (scratch.visited == old(scratch.visited) || fresh(scratch.visited))
    ensures maxDegree <= 0 ==> out.Err?
    ensures out.Ok? ==> |out.value.0| == |adj|
    ensures StepReady(levels, layer, maxDegree, node, adj, entries) ==>
              out == Ok((ConnectOn(adj, d, node, entries, ef, maxDegree), NextEntries(adj, To(d, node), entries, ef)))
  {
    if StepReady(levels, layer, maxDegree, node, adj, entries) {
      StepSucceeds(levels, layer, maxDegree, node, adj, d, entries, ef);
    }
    var candidates := GraphSearchLayerFromEntries(adj, To(d, node), entries, ef, scratch);
    var selected := SelectNeighbors(|adj|, d, node, candidates, maxDegree);
    if selected.Err? {
      return Err(selected.error);
    }
    var connected := Connect(d, adj, node, selected.value, maxDegree);
    if connected.Err? {
      return Err(connected.error);
    }
    return Ok((connected.value, if |candidates| > 0 then Ids(candidates) else entries));
  }

  /** Every layer has a list per node. */
  predicate FullLayers(levels: seq<int>, layers: seq<Adjacency>) {
    forall l :: 0 <= l < |layers| ==> |layers[l]| == |levels|
  }

  /** A state the loop can index into. */
  predicate Shaped(levels: seq<int>, st: Standard) {
    0 <= st.maxLayer < |st.layers| && FullLayers(levels, st.layers)
  }

  /** One iteration of the loop. With a wrapped base-layer bound it fails, whatever the graph is. */
  method InsertNode(
      levels: seq<int>, d: (int, int) -> real, m: int, ef: int, st: Standard, node: nat, scratch: Scratch)
    returns (out: Outcome<Standard>)
    requires Shaped(levels, st) && node < |levels| && 1 <= m < SIGN && ef > 0 && Levels(levels)
    requires levels[node] < |st.layers| && scratch.Valid()
    modifies scratch, scratch.visited, scratch.candidates, scratch.results
    ensures scratch.Valid() && (scratch.visited == old(scratch.visited) || fresh(scratch.visited))
    ensures m >= HALF ==> out.Err?
    ensures m < HALF && InsertedOk(levels, m, node, st) ==> out == Ok(Insert(levels, d, m, ef, st, node))
  {
    var level := levels[node];
    var entries := GreedyDescent(st.layers, To(d, node), st.maxLayer, level, st.entryPoint, scratch);
    var low := level;
    if low > st.maxLayer {
      low := st.maxLayer;
    }
    ghost var goal := Down(st.layers, ConnectNode(d, node, ef, m), CarryEntries(d, node, ef), low, entries);
    if m < HALF && InsertedOk(levels, m, node, st) {
      GreedyDownIsLive(levels, m, node, st.layers, To(d, node), st.maxLayer, level, [st.entryPoint]);
      assert OnTrack(levels, d, m, ef, node, st.layers, low, entries, goal);
    }
    var connected := ConnectLayers(levels, d, m, ef, st.layers, node, low, entries, scratch, goal);
    match connected {
      case Err(error) => return Err(error);
      case Ok(layers) =>
        if level > st.maxLayer {
          return Ok(Standard(layers, node, level));
        }
        return Ok(Standard(layers, st.entryPoint, st.maxLayer));
    }
  }

  /** One step of the downward pass. */
  method ConnectStep(
      levels: seq<int>, d: (int, int) -> real, m: int, ef: int, adj: Adjacency, layer: nat, node: nat,
      entries: seq<int>, scratch: Scratch)
    returns (out: Outcome<(Adjacency, seq<int>)>)
    requires 1 <= m < SIGN && node < |adj| && ef > 0 && scratch.Valid()
    modifies scratch, scratch.visited, scratch.candidates, scratch.results
    ensures scratch.Valid() && (scratch.visited == old(scratch.visited) || fresh(scratch.visited))
    ensures layer == 0 && m >= HALF ==> out.Err?
    ensures out.Ok? ==> |out.value.0| == |adj|
    ensures m < HALF && StepReady(levels, layer, LayerMaxDegree(m, layer), node, adj, entries) ==>
              && out.Ok? && out.value.0 == ConnectNode(d, node, ef, m)(layer, adj, entries)
              && out.value.1 == CarryEntries(d, node, ef)(layer, adj, entries)
              && out.value.1 != [] && AllLive(levels, layer - 1, node, out.value.1)
  {
    if m < HALF && StepReady(levels, layer, LayerMaxDegree(m, layer), node, adj, entries) {
      StepDown(levels, d, m, node, ef, layer, adj, entries);
    }
    out := ConnectLayer(adj, d, levels, layer, node, entries, ef, LayerMaxDegree(m, layer), scratch);
  }

  /** The layers still to be connected are valid for the nodes before this one, and the entries live. */
  ghost predicate PendingOk(
      levels: seq<int>, m: int, node: int, layers: seq<Adjacency>, layer: int, entries: seq<int>)
  {
    && 1 <= m < HALF && 0 <= node < |levels| && layer < |layers| && layer <= levels[node]
    && (forall l :: 0 <= l <= layer ==> LayerOk(levels, l, LayerMaxDegree(m, l), node, layers[l]))
    && entries != [] && AllLive(levels, layer, node, entries)
  }

  lemma PendingTop(levels: seq<int>, m: int, node: int, layers: seq<Adjacency>, layer: nat, entries: seq<int>)
    requires PendingOk(levels, m, node, layers, layer, entries)
    ensures StepReady(levels, layer, LayerMaxDegree(m, layer), node, layers[layer], entries)
  {
  }

  lemma PendingBelow(
      levels: seq<int>, m: int, node: int, layers: seq<Adjacency>, layer: nat, entries: seq<int>,
      changed: Adjacency, carried: seq<int>)
    requires PendingOk(levels, m, node, layers, layer, entries)
    requires carried != [] && AllLive(levels, layer - 1, node, carried)
    ensures PendingOk(levels, m, node, layers[layer := changed], layer - 1, carried)
  {
  }

  /** The rest of the pass leads to `goal`. */
  ghost predicate OnTrack(
      levels: seq<int>, d: (int, int) -> real, m: int, ef: int, node: int, layers: seq<Adjacency>, layer: int,
      entries: seq<int>, goal: seq<Adjacency>)
  {
    && PendingOk(levels, m, node, layers, layer, entries)
    && goal == Down(layers, ConnectNode(d, node, ef, m), CarryEntries(d, node, ef), layer, entries)
  }

  /** The layer connected and the entries for the next one below, for a pass on track. */
  method ConnectNext(
      levels: seq<int>, d: (int, int) -> real, m: int, ef: int, layers: seq<Adjacency>, layer: nat, node: nat,
      entries: seq<int>, scratch: Scratch, ghost goal: seq<Adjacency>)
    returns (out: Outcome<(Adjacency, seq<int>)>)
    requires FullLayers(levels, layers) && node < |levels| && layer < |layers| && 1 <= m < SIGN && ef > 0
    requires scratch.Valid()
    modifies scratch, scratch.visited, scratch.candidates, scratch.results
    ensures scratch.Valid() && (scratch.visited == old(scratch.visited) || fresh(scratch.visited))
    ensures layer == 0 && m >= HALF ==> out.Err?
    ensures out.Ok? ==> |out.value.0| == |levels|
    ensures OnTrack(levels, d, m, ef, node, layers, layer, entries, goal) ==>
              && out.Ok?
              && OnTrack(levels, d, m, ef, node, layers[layer := out.value.0], layer - 1, out.value.1, goal)
  {
    ghost var on, next := ConnectNode(d, node, ef, m), CarryEntries(d, node, ef);
    ghost var ready := OnTrack(levels, d, m, ef, node, layers, layer, entries, goal);
    if ready {
      PendingTop(levels, m, node, layers, layer, entries);
    }
    out := ConnectStep(levels, d, m, ef, layers[layer], layer, node, entries, scratch);
    if ready {
      DownStep(layers, on, next, layer, entries, out.value.0, out.value.1);
      PendingBelow(levels, m, node, layers, layer, entries, out.value.0, out.value.1);
    }
  }

  lemma TrackEnds(
      levels: seq<int>, d: (int, int) -> real, m: int, ef: int, node: int, layers: seq<Adjacency>,
      entries: seq<int>, goal: seq<Adjacency>)
    requires OnTrack(levels, d, m, ef, node, layers, -1, entries, goal)
    ensures layers == goal
  {
  }

  method ConnectLayers(
      levels: seq<int>, d: (int, int) -> real, m: int, ef: int, start: seq<Adjacency>, node: nat, low: nat,
      first: seq<int>, scratch: Scratch, ghost goal: seq<Adjacency>)
    returns (out: Outcome<seq<Adjacency>>)
    requires FullLayers(levels, start) && node < |levels| && low < |start| && 1 <= m < SIGN && ef > 0
    requires scratch.Valid()
    modifies scratch, scratch.visited, scratch.candidates, scratch.results
    ensures scratch.Valid() && (scratch.visited == old(scratch.visited) || fresh(scratch.visited))
    ensures m >= HALF ==> out.Err?
    ensures OnTrack(levels, d, m, ef, node, start, low, first, goal) ==> out == Ok(goal)
  {
    hide OnTrack;
    ghost var ready := OnTrack(levels, d, m, ef, node, start, low, first, goal);
    var layers, entries := start, first;
    var layer: int := low;
    while layer >= 0
      invariant -1 <= layer <= low && |layers| == |start| && FullLayers(levels, layers) && scratch.Valid()
      invariant scratch.visited == old(scratch.visited) || fresh(scratch.visited)
      invariant layer < 0 ==> m < HALF
      invariant ready ==> OnTrack(levels, d, m, ef, node, layers, layer, entries, goal)
    {
      var step := ConnectNext(levels, d, m, ef, layers, layer, node, entries, scratch, goal);
      if step.Err? {
        return Err(step.error);
      }
      layers, entries := layers[layer := step.value.0], step.value.1;
      layer := layer - 1;
    }
    if ready {
      TrackEnds(levels, d, m, ef, node, layers, entries, goal);
    }
    return Ok(layers);
  }

  lemma DownStep(
      layers: seq<Adjacency>, on: OnLayer, next: NextDown, layer: nat, entries: seq<int>, changed: Adjacency,
      carried: seq<int>)
    requires layer < |layers|
    requires changed == on(layer, layers[layer], entries) && carried == next(layer, layers[layer], entries)
    ensures Down(layers, on, next, layer, entries) ==
            Down(layers[layer := changed], on, next, layer - 1, carried)
  {
  }

  /**
   * Insert every node in id order. The build succeeds exactly when no base-layer bound is needed or it does not
   * wrap.
   */
  method BuildStandardHNSWGraph(levels: seq<int>, d: (int, int) -> real, cfg: Config) returns (out: Outcome<Standard>)
    requires Usable(cfg) && Levels(levels)
    ensures levels == [] ==> out == Err(EmptyVectors)
    ensures out.Ok? <==> |levels| == 1 || (levels != [] && cfg.m < HALF)
    ensures out.Ok? ==> IsFinished(levels, out.value)
    ensures out.Ok? ==> out.value == Finished(levels, out.value.maxLayer, d, cfg)
    ensures out.Ok? && cfg.m < HALF ==>
              ValidGraph(cfg.m, levels, out.value.layers, out.value.entryPoint, out.value.maxLayer)
  {
    hide Progress, ValidGraph, Finished, InsertedUpTo;
    if |levels| == 0 {
      return Err(EmptyVectors);
    }
    var top := MaxAssignedLayer(levels);
    var ef := cfg.constructionL;
    if ef < cfg.m {
      ef := cfg.m;
    }
    out := InsertEach(levels, top, d, cfg.m, ef);
    if out.Ok? {
      ProgressDone(levels, top, d, cfg.m, ef, out.value);
      ProgressIsFinished(levels, top, d, cfg, out.value);
    }
  }

  /** All nodes inserted with the construction width, which is at least M. */
  function Finished(levels: seq<int>, top: int, d: (int, int) -> real, cfg: Config): Standard
    requires levels != [] && Levels(levels) && IsMaxLevel(levels, top)
  {
    TopIsALevel(levels, top);
    InsertedUpTo(levels, top, d, cfg.m, if cfg.constructionL > cfg.m then cfg.constructionL else cfg.m, |levels| - 1)
  }

  lemma TopIsALevel(levels: seq<int>, top: int)
    requires Levels(levels) && IsMaxLevel(levels, top)
    ensures top >= 0
  {
  }

  lemma ProgressIsFinished(levels: seq<int>, top: nat, d: (int, int) -> real, cfg: Config, st: Standard)
    requires Usable(cfg) && levels != [] && Levels(levels) && IsMaxLevel(levels, top)
    requires IsMaxLevel(levels, st.maxLayer)
    requires var ef := if cfg.constructionL < cfg.m then cfg.m else cfg.constructionL;
             Progress(levels, top, d, cfg.m, ef, |levels| - 1, st)
    ensures st == Finished(levels, st.maxLayer, d, cfg)
  {
    hide Shaped, Insert;
    SameMaximum(levels, top, st.maxLayer);
  }

  lemma SameMaximum(levels: seq<int>, a: int, b: int)
    requires IsMaxLevel(levels, a) && IsMaxLevel(levels, b)
    ensures a == b
  {
  }

  /** The entry point is on the highest level, and of two or more nodes none is isolated. */
  ghost predicate IsFinished(levels: seq<int>, st: Standard) {
    && IsMaxLevel(levels, st.maxLayer) && 0 <= st.entryPoint < |levels| && levels[st.entryPoint] == st.maxLayer
    && 0 <= st.maxLayer < |st.layers| && |st.layers[0]| == |levels|
    && (|levels| >= 2 ==> forall u :: 0 <= u < |levels| ==> st.layers[0][u] != [])
  }

  lemma OkIsShaped(levels: seq<int>, m: int, inserted: nat, st: Standard)
    requires InsertedOk(levels, m, inserted, st)
    ensures Shaped(levels, st)
  {
  }

  /** The state after nodes 0 to node; with a wrapped bound only node 0 ever gets in. */
  ghost predicate Progress(
      levels: seq<int>, top: nat, d: (int, int) -> real, m: int, ef: int, node: nat, st: Standard)
    requires node < |levels| && Levels(levels) && 1 <= m < SIGN && ef > 0
    requires forall u :: 0 <= u < |levels| ==> levels[u] <= top
  {
    && Shaped(levels, st) && |st.layers| == top + 1
    && if m < HALF then st == InsertedUpTo(levels, top, d, m, ef, node) else node == 0 && st == FirstNode(levels, top)
  }

  lemma FirstProgress(levels: seq<int>, top: nat, d: (int, int) -> real, m: int, ef: int)
    requires levels != [] && Levels(levels) && 1 <= m < SIGN && ef > 0
    requires forall u :: 0 <= u < |levels| ==> levels[u] <= top
    ensures Progress(levels, top, d, m, ef, 0, FirstNode(levels, top))
  {
  }

  lemma NextProgress(
      levels: seq<int>, top: nat, d: (int, int) -> real, m: int, ef: int, node: nat, st: Standard)
    requires 1 <= node < |levels| && Levels(levels) && 1 <= m < HALF && ef > 0
    requires forall u :: 0 <= u < |levels| ==> levels[u] <= top
    requires st == InsertedUpTo(levels, top, d, m, ef, node - 1)
    ensures InsertedOk(levels, m, node, st) && |st.layers| == top + 1
    ensures Progress(levels, top, d, m, ef, node, Insert(levels, d, m, ef, st, node))
  {
    hide InsertedOk, Insert, FirstNode;
    InsertedUpToOk(levels, top, d, m, ef, node - 1);
    InsertKeeps(levels, d, m, ef, st, node);
    OkIsShaped(levels, m, node + 1, Insert(levels, d, m, ef, st, node));
  }

  /** The state the loop ends with is the finished graph. */
  lemma ProgressDone(levels: seq<int>, top: nat, d: (int, int) -> real, m: int, ef: int, st: Standard)
    requires levels != [] && Levels(levels) && 1 <= m < SIGN && ef > 0 && IsMaxLevel(levels, top)
    requires Progress(levels, top, d, m, ef, |levels| - 1, st)
    ensures IsFinished(levels, st)
    ensures m < HALF ==> ValidGraph(m, levels, st.layers, st.entryPoint, st.maxLayer)
  {
    hide InsertedUpTo;
    if m < HALF {
      InsertedUpToOk(levels, top, d, m, ef, |levels| - 1);
      FinishedIsValid(levels, m, st, top);
    } else {
      assert levels[0] == top;
    }
  }

  method InsertNext(
      levels: seq<int>, top: nat, d: (int, int) -> real, m: int, ef: int, st: Standard, node: nat, scratch: Scratch)
    returns (out: Outcome<Standard>)
    requires 1 <= node < |levels| && Levels(levels) && 1 <= m < SIGN && ef > 0
    requires forall u :: 0 <= u < |levels| ==> levels[u] <= top
    requires Progress(levels, top, d, m, ef, node - 1, st) && scratch.Valid()
    modifies scratch, scratch.visited, scratch.candidates, scratch.results
    ensures scratch.Valid() && (scratch.visited == old(scratch.visited) || fresh(scratch.visited))
    ensures out.Ok? <==> m < HALF
    ensures out.Ok? ==> Progress(levels, top, d, m, ef, node, out.value)
  {
    if m < HALF {
      NextProgress(levels, top, d, m, ef, node, st);
    }
    out := InsertNode(levels, d, m, ef, st, node, scratch);
  }

  method InsertEach(levels: seq<int>, top: nat, d: (int, int) -> real, m: int, ef: int)
    returns (out: Outcome<Standard>)
    requires levels != [] && Levels(levels) && 1 <= m < SIGN && ef > 0
    requires forall u :: 0 <= u < |levels| ==> levels[u] <= top
    ensures out.Ok? <==> |levels| == 1 || m < HALF
    ensures out.Ok? ==> Progress(levels, top, d, m, ef, |levels| - 1, out.value)
  {
    hide Progress, FirstNode;
    var scratch := new Scratch();
    var st := FirstNode(levels, top);
    FirstProgress(levels, top, d, m, ef);
    for node := 1 to |levels|
      invariant scratch.Valid() && fresh(scratch) && fresh(scratch.visited)
      invariant fresh(scratch.candidates) && fresh(scratch.results)
      invariant Progress(levels, top, d, m, ef, node - 1, st)
      invariant node > 1 ==> m < HALF
    {
      var inserted := InsertNext(levels, top, d, m, ef, st, node, scratch);
      if inserted.Err? {
        return inserted;
      }
      st := inserted.value;
    }
    return Ok(st);
  }
}
