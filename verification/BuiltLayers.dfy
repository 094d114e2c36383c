/** What a built layer is, without the construction: stages joined by rules over distances alone. */
module BuiltLayers {
  import opened Order
  import opened Sorting
  import opened Scans
  import opened Prune
  import opened Transpose
  import opened PrunedLayer
  import opened NNDescent
  import opened OptKCNA
  import opened Layout
  import opened Config
  import opened Graphs
  import opened Vectors
  import opened Construction

  // ---------- the refined layer, stage by stage ----------

  /** At most the number of other nodes. */
  function Within(v: int, n: nat): int {
    if v > n - 1 then n - 1 else v
  }

  /** Twice the iterations, at least four; a doubling that wraps counts as none. */
  function ExchangeRounds(iterations: int): int {
    if 2 <= iterations < HALF then 2 * iterations else 4
  }

  /**
   * A refined layer over n > 1 nodes: an approximate neighbour graph of width k0, candidates acquired from it,
   * refreshes over alpha-pruned graphs until the estimate is good enough, and the RNG layer of the last candidates.
   */
  ghost predicate RefinedLayer(
      layer: int, n: nat, d: (int, int) -> real, cfg: Config, maxDegree: int, env: Environment,
      angle: (int, int, int) -> bool, adj: seq<seq<int>>)
    requires n > 1 && Usable(cfg)
  {
    exists seeds, knng, acquired, states, f ::
      RefinedFrom(layer, n, d, cfg, maxDegree, env, angle, adj, seeds, knng, acquired, states, f)
  }

  /** The draws, sweep starts and estimate of one layer. */
  datatype Seeds = Seeds(draw: (int, nat) -> nat, start: int -> nat, enough: seq<seq<Result>> -> bool)

  ghost predicate SeedsOf(seeds: Seeds, env: Environment, layer: int) {
    && (forall u, attempt: nat :: seeds.draw(u, attempt) == env.draw(layer, u, attempt))
    && (forall u :: seeds.start(u) == env.start(layer, u))
    && forall lists :: seeds.enough(lists) == env.enough(layer, lists)
  }

  ghost predicate RefinedFrom(
      layer: int, n: nat, d: (int, int) -> real, cfg: Config, maxDegree: int, env: Environment,
      angle: (int, int, int) -> bool, adj: seq<seq<int>>, seeds: Seeds, knng: seq<seq<Result>>,
      acquired: seq<seq<Result>>, states: seq<seq<seq<Result>>>, f: seq<seq<int>>)
    requires n > 1 && Usable(cfg)
  {
    var k, ef := Within(cfg.candidateK, n), Within(cfg.constructionL, n);
    && SeedsOf(seeds, env, layer)
    && KNNGBy(n, d, Within(cfg.k0, n), seeds.draw, seeds.start, ExchangeRounds(cfg.iterations), knng)
    && AllAcquired(IdLists(knng), d, k, ef, acquired)
    && RefinementOf(d, angle, k, ef, maxDegree, seeds.enough, acquired, cfg.iterations, states)
    && LayerFrom(d, RNG, IdLists(states[|states| - 1]), maxDegree, f, adj)
  }

  lemma SameSettings(cfg: Config, n: nat)
    requires n > 1 && Usable(cfg)
    ensures ApproxRounds(cfg) == ExchangeRounds(cfg.iterations)
    ensures Min(cfg.k0, n - 1) == Within(cfg.k0, n) && Min(cfg.candidateK, n - 1) == Within(cfg.candidateK, n)
    ensures Min(cfg.constructionL, n - 1) == Within(cfg.constructionL, n)
  {
  }

  lemma IterNSGIsRefined(
      layer: int, n: nat, d: (int, int) -> real, cfg: Config, maxDegree: int, env: Environment,
      angle: (int, int, int) -> bool)
    requires n > 1 && Usable(cfg)
    ensures RefinedLayer(layer, n, d, cfg, maxDegree, env, angle, IterNSG(layer, n, d, cfg, maxDegree, env, angle))
  {
    hide KNNG, KNNGBy, Acquired, AllAcquired, RefinementOf, Refined, LayerFrom, Layer, Forward, SeedsOf;
    SameSettings(cfg, n);
    var draw, start, enough := LayerDraw(env, layer), LayerStart(env, layer), LayerEnough(env, layer);
    var k, ef := Within(cfg.candidateK, n), Within(cfg.constructionL, n);
    var knng := KNNG(n, d, Within(cfg.k0, n), draw, start, ApproxRounds(cfg));
    var acquired := Acquired(IdLists(knng), d, k, ef);
    var refresh := RefreshConfig(cfg, k, ef, maxDegree);
    KNNGIsKNNGBy(n, d, Within(cfg.k0, n), draw, start, ApproxRounds(cfg));
    AcquiredIsAllAcquired(IdLists(knng), d, k, ef);
    var states := RefinedIsRefinement(d, angle, refresh, enough, acquired, cfg.iterations);
    var lists := IdLists(Refined(d, angle, refresh, enough, acquired, cfg.iterations));
    var f := Forward(d, RNG, lists, maxDegree);
    LayerExactly(d, RNG, lists, maxDegree, f, Layer(d, RNG, lists, maxDegree));
    StatesExist(d, angle, k, ef, maxDegree, enough, acquired, cfg.iterations, states);
    LayerSeeds(env, layer);
    assert RefinedFrom(layer, n, d, cfg, maxDegree, env, angle, IterNSG(layer, n, d, cfg, maxDegree, env, angle),
                       Seeds(draw, start, enough), knng, acquired, states, f);
  }

  lemma LayerSeeds(env: Environment, layer: int)
    ensures SeedsOf(Seeds(LayerDraw(env, layer), LayerStart(env, layer), LayerEnough(env, layer)), env, layer)
  {
  }

  lemma StatesExist(
      d: (int, int) -> real, angle: (int, int, int) -> bool, k: int, ef: int, maxDegree: int,
      enough: seq<seq<Result>> -> bool, lists: seq<seq<Result>>, n: int, states: seq<seq<seq<Result>>>)
    requires RefinementOf(d, angle, k, ef, maxDegree, enough, lists, n, states)
    ensures states != []
  {
  }

  // ---------- a layer of the index ----------

  /** u lists all other labels, nearest first. */
  ghost predicate ListsAll(d: (int, int) -> real, labels: seq<int>, u: int, list: seq<int>) {
    && (forall v :: v in list <==> v in labels && v != u)
    && forall i, j :: 0 <= i < j < |list| ==> Before(d, u, list[i], list[j])
  }

  /** The local lists are rewritten to labels; nodes without a label have none. */
  ghost predicate Relabelled(local: seq<seq<int>>, labels: seq<int>, adj: seq<seq<int>>) {
    && |local| == |labels| && ListsInRange(|labels|, local)
    && (forall i :: 0 <= i < |labels| ==> 0 <= labels[i] < |adj| && RelabelledAt(local[i], labels, adj[labels[i]]))
    && forall u :: 0 <= u < |adj| && u !in labels ==> adj[u] == []
  }

  ghost predicate RelabelledAt(local: seq<int>, labels: seq<int>, list: seq<int>)
    requires InRange(|labels|, local)
  {
    |list| == |local| && forall j :: 0 <= j < |local| ==> list[j] == labels[local[j]]
  }

  /** Distances and angles between local ids are those between the labels. */
  ghost predicate SeenThrough(
      labels: seq<int>, d: (int, int) -> real, angle: (int, int, int) -> bool, dl: (int, int) -> real,
      al: (int, int, int) -> bool)
  {
    && (forall a, b :: 0 <= a < |labels| && 0 <= b < |labels| ==> dl(a, b) == d(labels[a], labels[b]))
    && forall a, b, c :: 0 <= a < |labels| && 0 <= b < |labels| && 0 <= c < |labels| ==>
         al(a, b, c) == angle(labels[a], labels[b], labels[c])
  }

  /**
   * A built layer: over the labels of the layer, complete when the degree bound allows it, and otherwise a refined
   * layer of the labels' own numbering.
   */
  ghost predicate BuiltLayer(
      layer: int, labels: seq<int>, d: (int, int) -> real, cfg: Config, maxDegree: int, env: Environment,
      adj: seq<seq<int>>)
    requires Usable(cfg) && maxDegree >= 1
  {
    if |labels| <= maxDegree + 1 then
      forall u :: 0 <= u < |adj| ==> if u in labels then ListsAll(d, labels, u, adj[u]) else adj[u] == []
    else
      exists local, dl, al :: BuiltFrom(layer, labels, d, cfg, maxDegree, env, adj, local, dl, al)
  }

  ghost predicate BuiltFrom(
      layer: int, labels: seq<int>, d: (int, int) -> real, cfg: Config, maxDegree: int, env: Environment,
      adj: seq<seq<int>>, local: seq<seq<int>>, dl: (int, int) -> real, al: (int, int, int) -> bool)
    requires Usable(cfg) && |labels| > 1
  {
    && SeenThrough(labels, d, env.angle, dl, al)
    && RefinedLayer(layer, |labels|, dl, cfg, maxDegree, env, al, local)
    && Relabelled(local, labels, adj)
  }

  lemma CompleteListsAll(d: (int, int) -> real, labels: seq<int>, u: int)
    requires Distinct(labels) && u in labels
    ensures ListsAll(d, labels, u, CompleteNode(d, labels, u))
  {
    hide Sort, Without, Before;
    CompleteNodeFacts(d, labels, u);
    var q, others := From(d, u), Without(labels, u);
    var s := Sort(Tag(q, others));
    SortSorted(Tag(q, others));
    forall i, j | 0 <= i < j < |s|
      ensures Before(d, u, Ids(s)[i], Ids(s)[j])
    {
      StrictlyAscending(s, i, j);
      ScoredAt(d, u, others, i);
      ScoredAt(d, u, others, j);
      BeforeIsBetter(d, u, s[i].id, s[j].id);
    }
  }

  lemma ScoredAt(d: (int, int) -> real, u: int, ids: seq<int>, i: nat)
    requires i < |ids|
    ensures var r := Sort(Tag(From(d, u), ids))[i]; r == Result(r.id, d(u, r.id))
  {
    var r := Sort(Tag(From(d, u), ids))[i];
    assert r in Sort(Tag(From(d, u), ids));
    SortMember(Tag(From(d, u), ids), r);
    TagMember(From(d, u), ids, r);
  }

  lemma GlobalIsRelabelled(local: seq<seq<int>>, labels: seq<int>, total: nat)
    requires ListsInRange(|labels|, local) && InRange(total, labels) && |local| == |labels| && Distinct(labels)
    ensures Relabelled(local, labels, GlobalUpTo(local, labels, total, |labels|))
  {
    GlobalFacts(local, labels, total, |labels|);
    assert labels[..|labels|] == labels;
    forall i | 0 <= i < |labels|
      ensures RelabelledAt(local[i], labels, MapIds(labels, local[i]))
    {
    }
  }

  lemma HNSWLayerIsBuilt(
      layer: int, labels: seq<int>, total: nat, g: Geometry, cfg: Config, maxDegree: int, env: Environment)
    requires Usable(cfg) && maxDegree >= 1 && InRange(total, labels) && HasRows(g, labels) && Distinct(labels)
    ensures BuiltLayer(layer, labels, DistanceOver(g), cfg, maxDegree, env,
                       HNSWLayer(layer, labels, total, g, cfg, maxDegree, env))
  {
    hide IterNSG, RefinedLayer, Relabelled, ListsAll, CompleteNode, SeenThrough;
    var d, adj := DistanceOver(g), HNSWLayer(layer, labels, total, g, cfg, maxDegree, env);
    if |labels| <= maxDegree + 1 {
      forall u | 0 <= u < |adj|
        ensures if u in labels then ListsAll(d, labels, u, adj[u]) else adj[u] == []
      {
        if u in labels {
          CompleteListsAll(d, labels, u);
        }
      }
    } else {
      var dl, al := DistanceOver(Compact(g, labels)), LocalAngle(env.angle, labels);
      var local := IterNSG(layer, |labels|, dl, cfg, maxDegree, env, al);
      LocalIsSeenThrough(g, labels, env);
      IterNSGIsRefined(layer, |labels|, dl, cfg, maxDegree, env, al);
      GlobalIsRelabelled(local, labels, total);
      assert BuiltFrom(layer, labels, d, cfg, maxDegree, env, adj, local, dl, al);
    }
  }

  lemma LocalIsSeenThrough(g: Geometry, labels: seq<int>, env: Environment)
    requires HasRows(g, labels)
    ensures SeenThrough(labels, DistanceOver(g), env.angle, DistanceOver(Compact(g, labels)),
                        LocalAngle(env.angle, labels))
  {
    hide DistanceOver, Compact;
    CompactKeepsDistances(g, labels);
  }

  /** Every layer of a finished build is such a layer, over the nodes of that level or above. */
  lemma BuiltLayerByLayer(
      graph: Graph, levels: seq<int>, g: Geometry, cfg: Config, env: Environment, pick: nat, layer: int)
    requires Buildable(cfg) && Covers(g, |levels|) && IsBuilt(graph, levels, g, cfg, env, pick)
    requires 0 <= layer <= graph.maxLayer
    ensures var labels := Labels(levels, layer, graph.maxLayer);
            && LabelsOf(levels, layer, labels)
            && BuiltLayer(layer, labels, DistanceOver(g), cfg, DegreeBound(cfg.m, layer), env, graph.layers[layer])
  {
    hide HNSWLayer, BuiltLayer, ValidGraph, LabelsOf, EntryOf;
    LayerLabels(levels, layer, graph.maxLayer);
    var labels := Labels(levels, layer, graph.maxLayer);
    LabelsAreDistinct(levels, layer, labels);
    CoversRows(g, |levels|, labels);
    HNSWLayerIsBuilt(layer, labels, |levels|, g, cfg, LayerMaxDegree(cfg.m, layer), env);
  }

  lemma LabelsAreDistinct(levels: seq<int>, layer: int, labels: seq<int>)
    requires LabelsOf(levels, layer, labels)
    ensures Distinct(labels)
  {
  }

  // ---------- what searches of a refined layer rely on ----------

  /** Two neighbours of u: the farther one is no nearer to the other than to u. */
  ghost predicate Spread(d: (int, int) -> real, u: int, list: seq<int>) {
    forall v, w :: v in list && w in list && d(u, w) < d(u, v) ==> d(v, w) >= d(u, v)
  }

  lemma RefinedIsSpread(
      layer: int, n: nat, d: (int, int) -> real, cfg: Config, maxDegree: int, env: Environment,
      angle: (int, int, int) -> bool, adj: seq<seq<int>>, u: nat)
    requires n > 1 && Usable(cfg) && RefinedLayer(layer, n, d, cfg, maxDegree, env, angle, adj) && u < |adj|
    ensures Spread(d, u, adj[u])
  {
    hide KNNGBy, AllAcquired, RefinementOf;
    var seeds, knng, acquired, states, f :|
      RefinedFrom(layer, n, d, cfg, maxDegree, env, angle, adj, seeds, knng, acquired, states, f);
    StatesExist(d, angle, Within(cfg.candidateK, n), Within(cfg.constructionL, n), maxDegree,
                seeds.enough, acquired, cfg.iterations, states);
    LayerIsSpread(d, IdLists(states[|states| - 1]), maxDegree, f, adj, u);
  }

  lemma LayerIsSpread(
      d: (int, int) -> real, lists: seq<seq<int>>, m: int, f: seq<seq<int>>, adj: seq<seq<int>>, u: nat)
    requires LayerFrom(d, RNG, lists, m, f, adj) && u < |adj|
    ensures Spread(d, u, adj[u])
  {
    assert PrunedBy(d, RNG, u, BothWays(f, u), m, adj[u]);
    forall v, w | v in adj[u] && w in adj[u] && d(u, w) < d(u, v)
      ensures d(v, w) >= d(u, v)
    {
      assert !Shadowed(d, RNG, u, adj[u], v);
      assert !Shadows(d, RNG, u, w, v);
    }
  }

  /** A layer too large to be complete is an RNG in the index's own ids and distances. */
  lemma BuiltIsSpread(
      layer: int, labels: seq<int>, d: (int, int) -> real, cfg: Config, maxDegree: int, env: Environment,
      adj: seq<seq<int>>, u: int)
    requires Usable(cfg) && maxDegree >= 1 && |labels| > maxDegree + 1 && 0 <= u < |adj|
    requires BuiltLayer(layer, labels, d, cfg, maxDegree, env, adj)
    ensures Spread(d, u, adj[u])
  {
    hide RefinedLayer, Spread;
    var local, dl, al :| BuiltFrom(layer, labels, d, cfg, maxDegree, env, adj, local, dl, al);
    if u in labels {
      var i :| 0 <= i < |labels| && labels[i] == u;
      RefinedIsSpread(layer, |labels|, dl, cfg, maxDegree, env, al, local, i);
      SpreadThrough(labels, d, env.angle, dl, al, local[i], i, adj[u]);
    } else {
      NothingIsSpread(d, u);
    }
  }

  lemma NothingIsSpread(d: (int, int) -> real, u: int)
    ensures Spread(d, u, [])
  {
  }

  lemma SpreadThrough(
      labels: seq<int>, d: (int, int) -> real, angle: (int, int, int) -> bool, dl: (int, int) -> real,
      al: (int, int, int) -> bool, local: seq<int>, i: nat, list: seq<int>)
    requires SeenThrough(labels, d, angle, dl, al) && i < |labels| && InRange(|labels|, local)
    requires Spread(dl, i, local) && RelabelledAt(local, labels, list)
    ensures Spread(d, labels[i], list)
  {
    var u := labels[i];
    forall v, w | v in list && w in list && d(u, w) < d(u, v)
      ensures d(v, w) >= d(u, v)
    {
      var a :| 0 <= a < |list| && list[a] == v;
      var b :| 0 <= b < |list| && list[b] == w;
      var x, y := local[a], local[b];
      assert x in local && y in local;
      assert dl(i, y) == d(u, w) && dl(i, x) == d(u, v) && dl(x, y) == d(v, w);
    }
  }

  /** Every layer of a finished build with more nodes than its bound allows to be complete is an RNG. */
  lemma FinishedIsSpread(
      graph: Graph, levels: seq<int>, g: Geometry, cfg: Config, env: Environment, pick: nat, layer: int, u: int)
    requires Buildable(cfg) && Covers(g, |levels|) && IsBuilt(graph, levels, g, cfg, env, pick)
    requires 0 <= layer <= graph.maxLayer && 0 <= u < |levels|
    requires |Labels(levels, layer, graph.maxLayer)| > DegreeBound(cfg.m, layer) + 1
    ensures |graph.layers[layer]| == |levels| && Spread(DistanceOver(g), u, graph.layers[layer][u])
  {
    hide BuiltLayer, ValidAdjacency, LabelsOf, EntryOf, AreLayers, Spread, LayerAt;
    BuiltLayerByLayer(graph, levels, g, cfg, env, pick, layer);
    LayerSize(cfg, levels, graph.layers, layer);
    BuiltIsSpread(layer, Labels(levels, layer, graph.maxLayer), DistanceOver(g), cfg, DegreeBound(cfg.m, layer), env,
                  graph.layers[layer], u);
  }

  lemma LayerSize(cfg: Config, levels: seq<int>, layers: seq<seq<seq<int>>>, layer: int)
    requires ValidLayers(cfg.m, levels, layers) && 0 <= layer < |layers|
    ensures |layers[layer]| == |levels|
  {
    assert ValidAdjacency(levels, layer, LayerMaxDegree(cfg.m, layer), layers[layer]);
  }
}
