/** Building one HNSW layer over a label prefix, and all layers over a layout. */
module Construction {
  import opened Order
  import opened Sorting
  import opened Scans
  import opened Outcomes
  import opened Prune
  import opened Transpose
  import opened PrunedLayer
  import opened Collector
  import opened NNDescent
  import opened OptKCNA
  import opened Layout
  import opened Config
  import opened Graphs
  import opened Vectors

  /** Everything a build takes from outside: seeded draws, the recall estimate, and the alpha angle test. */
  datatype Environment = Environment(
    draw: (int, int, nat) -> nat,
    start: (int, int) -> nat,
    enough: (int, seq<seq<Result>>) -> bool,
    angle: (int, int, int) -> bool)

  // ---------- the vectors a layer is built from ----------

  /** Flat storage, and how distances over it are taken. */
  datatype Geometry = Geometry(kernel: Kernel, metric: int, flat: seq<Float32>, dim: int)

  function DistanceOver(g: Geometry): (int, int) -> real {
    StoredDistance(g.kernel, g.metric, g.flat, g.dim)
  }

  predicate HasRows(g: Geometry, ids: seq<int>) {
    g.dim >= 0 && forall i :: 0 <= i < |ids| ==> 0 <= ids[i] * g.dim && ids[i] * g.dim + g.dim <= |g.flat|
  }

  /** Storage for exactly n vectors. */
  predicate Covers(g: Geometry, n: nat) {
    g.dim >= 0 && |g.flat| == n * g.dim
  }

  lemma CoversRows(g: Geometry, n: nat, ids: seq<int>)
    requires Covers(g, n) && InRange(n, ids)
    ensures HasRows(g, ids)
  {
    forall i | 0 <= i < |ids|
      ensures 0 <= ids[i] * g.dim && ids[i] * g.dim + g.dim <= |g.flat|
    {
      SlotInside(g.dim, ids[i], n);
    }
  }

  /** The vectors of the labels, in label order: local id i is labels[i]. */
  function Compact(g: Geometry, labels: seq<int>): Geometry
    requires HasRows(g, labels)
  {
    g.(flat := Concat(Gather(g.flat, g.dim, labels)))
  }

  /** Local ids are as far apart as the nodes they stand for. */
  lemma CompactKeepsDistances(g: Geometry, labels: seq<int>)
    requires HasRows(g, labels)
    ensures forall a, b :: 0 <= a < |labels| && 0 <= b < |labels| ==>
              DistanceOver(Compact(g, labels))(a, b) == DistanceOver(g)(labels[a], labels[b])
  {
    forall a, b | 0 <= a < |labels| && 0 <= b < |labels|
      ensures DistanceOver(Compact(g, labels))(a, b) == DistanceOver(g)(labels[a], labels[b])
    {
      CopyKeepsDistances(g.kernel, g.metric, g.flat, g.dim, labels, a, b);
    }
  }

  // ---------- complete layers ----------

  function CompleteNode(d: (int, int) -> real, labels: seq<int>, u: int): seq<int> {
    Ids(Sort(Tag(From(d, u), Without(labels, u))))
  }

  function CompleteLayer(d: (int, int) -> real, labels: seq<int>, total: nat): (adj: seq<seq<int>>)
    ensures |adj| == total
    ensures forall u :: 0 <= u < total ==> adj[u] == if u in labels then CompleteNode(d, labels, u) else []
  {
    seq(total, u => if u in labels then CompleteNode(d, labels, u) else [])
  }

  lemma CompleteNodeFacts(d: (int, int) -> real, labels: seq<int>, u: int)
    requires Distinct(labels) && u in labels
    ensures var ids := CompleteNode(d, labels, u);
            && Distinct(ids) && |ids| == |labels| - 1
            && forall v :: v in ids <==> v in labels && v != u
  {
    var q, others := From(d, u), Without(labels, u);
    var ids := CompleteNode(d, labels, u);
    WithoutDistinct(labels, u);
    SortDistinct(q, others);
    forall v
      ensures v in ids <==> v in labels && v != u
    {
      WithoutMember(labels, u, v);
      IdsMember(Sort(Tag(q, others)), v);
      if v in ids {
        var r :| r in Sort(Tag(q, others)) && r.id == v;
        SortMember(Tag(q, others), r);
        TagMember(q, others, r);
      }
      if v in others {
        SortMember(Tag(q, others), Result(v, q(v)));
        TagMember(q, others, Result(v, q(v)));
      }
    }
    DistinctSize(labels);
    DistinctSize(ids);
    assert Elements(ids) == Elements(labels) - {u};
  }

  /** Distances between local ids are those between the nodes they stand for. */
  ghost predicate LocalView(local: (int, int) -> real, d: (int, int) -> real, labels: seq<int>) {
    forall a, b :: 0 <= a < |labels| && 0 <= b < |labels| ==> local(a, b) == d(labels[a], labels[b])
  }

  method CompleteNeighbors(
      local: (int, int) -> real, labels: seq<int>, source: nat, ghost d: (int, int) -> real)
    returns (ids: seq<int>)
    requires source < |labels| && LocalView(local, d, labels)
    ensures ids == CompleteNode(d, labels, labels[source])
  {
    var neighbors: seq<Result> := [];
    var u := labels[source];
    for j := 0 to |labels|
      invariant neighbors == Tag(From(d, u), Without(labels[..j], u))
    {
      WithoutStep(labels, j, u);
      if labels[j] == u {
        continue;
      }
      neighbors := neighbors + [Result(labels[j], local(source, j))];
    }
    assert labels[..|labels|] == labels;
    ids := Ids(Sort(neighbors));
  }

  /** The nodes done so far have their complete lists. */
  ghost predicate CompleteFor(
      adj: seq<seq<int>>, d: (int, int) -> real, labels: seq<int>, total: nat, done: seq<int>)
  {
    |adj| == total && forall u :: 0 <= u < total ==> adj[u] == if u in done then CompleteNode(d, labels, u) else []
  }

  /** Vectors are read by local id, neighbours are written by node id. */
  method BuildCompleteLayer(
      local: (int, int) -> real, labels: seq<int>, total: nat, ghost d: (int, int) -> real)
    returns (adj: seq<seq<int>>)
    requires Distinct(labels) && InRange(total, labels) && LocalView(local, d, labels)
    ensures adj == CompleteLayer(d, labels, total)
  {
    hide CompleteFor, CompleteLayer, CompleteNode, LocalView, Distinct;
    adj := seq(total, _ => []);
    NoneDone(adj, d, labels, total);
    for i := 0 to |labels|
      invariant CompleteFor(adj, d, labels, total, labels[..i])
    {
      var ids := CompleteNeighbors(local, labels, i, d);
      CompleteStep(adj, d, labels, total, i);
      adj := adj[labels[i] := ids];
    }
    AllDone(adj, d, labels, total);
  }

  lemma NoneDone(adj: seq<seq<int>>, d: (int, int) -> real, labels: seq<int>, total: nat)
    requires |adj| == total && forall u :: 0 <= u < total ==> adj[u] == []
    ensures CompleteFor(adj, d, labels, total, labels[..0])
  {
  }

  lemma CompleteStep(adj: seq<seq<int>>, d: (int, int) -> real, labels: seq<int>, total: nat, i: nat)
    requires i < |labels| && 0 <= labels[i] < total && CompleteFor(adj, d, labels, total, labels[..i])
    ensures |adj| == total
    ensures CompleteFor(adj[labels[i] := CompleteNode(d, labels, labels[i])], d, labels, total, labels[..i + 1])
  {
    hide CompleteNode;
    assert labels[..i + 1] == labels[..i] + [labels[i]];
  }

  lemma AllDone(adj: seq<seq<int>>, d: (int, int) -> real, labels: seq<int>, total: nat)
    requires CompleteFor(adj, d, labels, total, labels[..|labels|])
    ensures adj == CompleteLayer(d, labels, total)
  {
    hide CompleteNode;
    assert labels[..|labels|] == labels;
  }

  // ---------- from local to global ids ----------

  function MapIds(labels: seq<int>, ids: seq<int>): (r: seq<int>)
    requires InRange(|labels|, ids)
    ensures |r| == |ids| && forall i :: 0 <= i < |ids| ==> r[i] == labels[ids[i]]
  {
    seq(|ids|, i requires 0 <= i < |ids| => labels[ids[i]])
  }

  function GlobalUpTo(adj: seq<seq<int>>, labels: seq<int>, total: nat, n: nat): (g: seq<seq<int>>)
    requires ListsInRange(|labels|, adj) && InRange(total, labels) && n <= |adj| == |labels|
    ensures |g| == total
  {
    if n == 0 then seq(total, _ => [])
    else GlobalUpTo(adj, labels, total, n - 1)[labels[n - 1] := MapIds(labels, adj[n - 1])]
  }

  lemma {:induction false} GlobalFacts(adj: seq<seq<int>>, labels: seq<int>, total: nat, n: nat)
    requires ListsInRange(|labels|, adj) && InRange(total, labels) && n <= |adj| == |labels|
    requires Distinct(labels)
    ensures var g := GlobalUpTo(adj, labels, total, n);
            && (forall i :: 0 <= i < n ==> g[labels[i]] == MapIds(labels, adj[i]))
            && (forall u :: 0 <= u < total && u !in labels[..n] ==> g[u] == [])
  {
    hide MapIds;
    if n > 0 {
      GlobalFacts(adj, labels, total, n - 1);
      assert labels[..n] == labels[..n - 1] + [labels[n - 1]];
    }
  }

  method MapLayerAdjacencyToGlobal(adj: seq<seq<int>>, labels: seq<int>, total: nat) returns (g: seq<seq<int>>)
    requires ListsInRange(|labels|, adj) && InRange(total, labels) && |adj| == |labels|
    ensures g == GlobalUpTo(adj, labels, total, |adj|)
  {
    g := seq(total, _ => []);
    for i := 0 to |adj|
      invariant g == GlobalUpTo(adj, labels, total, i)
    {
      var neighbors: seq<int> := [];
      for j := 0 to |adj[i]|
        invariant |neighbors| == j && forall k :: 0 <= k < j ==> neighbors[k] == labels[adj[i][k]]
      {
        neighbors := neighbors + [labels[adj[i][j]]];
      }
      assert neighbors == MapIds(labels, adj[i]);
      g := g[labels[i] := neighbors];
    }
  }

  // ---------- one layer by refinement ----------

  function Min(a: int, b: int): int {
    if a < b then a else b
  }

  /** The doubling may wrap, and then the minimum applies. */
  function ApproxRounds(cfg: Config): int {
    if Doubled(cfg.iterations) < 4 then 4 else Doubled(cfg.iterations)
  }

  function RefreshConfig(cfg: Config, candidateK: int, searchEf: int, maxDegree: int): OptKCNAConfig {
    OptKCNAConfig(candidateK, searchEf, maxDegree,
                  !LessThan(cfg.alpha, SIXTY) && !GreaterThan(cfg.alpha, ONE_EIGHTY), cfg.workers)
  }

  function LayerDraw(env: Environment, layer: int): (int, nat) -> nat {
    (source: int, attempt: nat) => env.draw(layer, source, attempt)
  }

  function LayerStart(env: Environment, layer: int): int -> nat {
    (source: int) => env.start(layer, source)
  }

  function LayerEnough(env: Environment, layer: int): seq<seq<Result>> -> bool {
    (lists: seq<seq<Result>>) => env.enough(layer, lists)
  }

  function LocalAngle(angle: (int, int, int) -> bool, labels: seq<int>): (int, int, int) -> bool {
    (u: int, w: int, v: int) =>
      0 <= u < |labels| && 0 <= w < |labels| && 0 <= v < |labels| && angle(labels[u], labels[w], labels[v])
  }

  /** Candidate lists of a layer after the initial graph, one acquisition, and all refreshes. */
  function LayerCandidates(
      layer: int, n: nat, d: (int, int) -> real, cfg: Config, maxDegree: int, env: Environment,
      angle: (int, int, int) -> bool): seq<seq<Result>>
    requires n > 1 && Usable(cfg)
  {
    var k, ef := Min(cfg.candidateK, n - 1), Min(cfg.constructionL, n - 1);
    var knng := KNNG(n, d, Min(cfg.k0, n - 1), LayerDraw(env, layer), LayerStart(env, layer), ApproxRounds(cfg));
    Refined(d, angle, RefreshConfig(cfg, k, ef, maxDegree), LayerEnough(env, layer),
            Acquired(IdLists(knng), d, k, ef), cfg.iterations)
  }

  lemma LayerCandidatesInRange(
      layer: int, n: nat, d: (int, int) -> real, cfg: Config, maxDegree: int, env: Environment,
      angle: (int, int, int) -> bool)
    requires n > 1 && Usable(cfg)
    ensures var lists := LayerCandidates(layer, n, d, cfg, maxDegree, env, angle);
            |lists| == n && ListsInRange(n, IdLists(lists))
  {
    var k, ef := Min(cfg.candidateK, n - 1), Min(cfg.constructionL, n - 1);
    var knng := KNNG(n, d, Min(cfg.k0, n - 1), LayerDraw(env, layer), LayerStart(env, layer), ApproxRounds(cfg));
    KNNGIsWellFormed(n, d, Min(cfg.k0, n - 1), LayerDraw(env, layer), LayerStart(env, layer), ApproxRounds(cfg));
    AcquiredInRange(IdLists(knng), d, k, ef);
    RefinedInRange(d, angle, RefreshConfig(cfg, k, ef, maxDegree), LayerEnough(env, layer),
                   Acquired(IdLists(knng), d, k, ef), cfg.iterations);
  }

  function IterNSG(
      layer: int, n: nat, d: (int, int) -> real, cfg: Config, maxDegree: int, env: Environment,
      angle: (int, int, int) -> bool): (adj: seq<seq<int>>)
    requires n > 1 && Usable(cfg)
    ensures ValidLayer(n, adj, Cap(maxDegree))
  {
    LayerCandidatesInRange(layer, n, d, cfg, maxDegree, env, angle);
    var lists := IdLists(LayerCandidates(layer, n, d, cfg, maxDegree, env, angle));
    LayerIsValid(d, RNG, lists, maxDegree);
    Layer(d, RNG, lists, maxDegree)
  }

  /** Fails for a layer too small to refine, and for a negative degree bound; otherwise builds the layer. */
  method BuildIterNSGLocal(
      layer: int, n: nat, d: (int, int) -> real, cfg: Config, maxDegree: int, env: Environment,
      angle: (int, int, int) -> bool)
    returns (out: Outcome<seq<seq<int>>>)
    requires Usable(cfg)
    ensures n > 1 && maxDegree >= 1 ==> out.Ok?
    ensures out.Ok? ==> n > 1 && maxDegree >= 0 && out.value == IterNSG(layer, n, d, cfg, maxDegree, env, angle)
  {
    var acquired := AcquireLayerCandidates(layer, n, d, cfg, maxDegree, env, angle);
    if acquired.Err? {
      return Err(acquired.error);
    }
    LayerCandidatesInRange(layer, n, d, cfg, maxDegree, env, angle);
    InRangeHasNoBad(n, IdLists(acquired.value));
    out := BuildPrunedLayer(acquired.value, maxDegree, RNG, d, cfg.workers);
  }

  method AcquireLayerCandidates(
      layer: int, n: nat, d: (int, int) -> real, cfg: Config, maxDegree: int, env: Environment,
      angle: (int, int, int) -> bool)
    returns (out: Outcome<seq<seq<Result>>>)
    requires Usable(cfg)
    ensures n <= 1 ==> out == Err(KNotPositive)
    ensures n > 1 && maxDegree >= 1 ==> out.Ok?
    ensures out.Ok? ==> n > 1 && out.value == LayerCandidates(layer, n, d, cfg, maxDegree, env, angle)
  {
    var initialK, k, ef := Min(cfg.k0, n - 1), Min(cfg.candidateK, n - 1), Min(cfg.constructionL, n - 1);
    var draw, start := LayerDraw(env, layer), LayerStart(env, layer);
    var knng := ApproximateKNNGCandidates(n, d, initialK, draw, start, ApproxRounds(cfg), cfg.workers);
    if knng.Err? {
      return Err(knng.error);
    }
    KNNGIsWellFormed(n, d, initialK, draw, start, ApproxRounds(cfg));
    var acquired := AcquireCandidatesByGraphSearch(IdLists(knng.value), d, k, ef, cfg.workers);
    AcquiredInRange(IdLists(knng.value), d, k, ef);
    out := RefineCandidatesUntilRecall(
      acquired, RefreshConfig(cfg, k, ef, maxDegree), d, angle, LayerEnough(env, layer), cfg.iterations);
  }

  // ---------- one layer ----------

  /** The construction labels of one layer: every id of that level or above, once. */
  ghost predicate LabelsOf(levels: seq<int>, layer: int, labels: seq<int>) {
    Distinct(labels) && forall u :: u in labels <==> 0 <= u < |levels| && levels[u] >= layer
  }

  lemma LabelsOfInRange(levels: seq<int>, layer: int, labels: seq<int>)
    requires LabelsOf(levels, layer, labels)
    ensures InRange(|levels|, labels)
  {
    assert forall i :: 0 <= i < |labels| ==> labels[i] in labels;
  }

  /** Complete when the degree bound allows it, otherwise refined and pruned. */
  function HNSWLayer(
      layer: int, labels: seq<int>, total: nat, g: Geometry, cfg: Config, maxDegree: int,
      env: Environment): (adj: seq<seq<int>>)
    requires Usable(cfg) && maxDegree >= 1 && InRange(total, labels) && HasRows(g, labels)
    ensures |adj| == total
  {
    if |labels| - 1 <= maxDegree then CompleteLayer(DistanceOver(g), labels, total)
    else
      var local := IterNSG(layer, |labels|, DistanceOver(Compact(g, labels)), cfg, maxDegree, env,
                           LocalAngle(env.angle, labels));
      GlobalUpTo(local, labels, total, |labels|)
  }

  lemma CompleteLayerIsValid(levels: seq<int>, layer: int, labels: seq<int>, d: (int, int) -> real, maxDegree: int)
    requires LabelsOf(levels, layer, labels) && |labels| - 1 <= maxDegree
    ensures ValidAdjacency(levels, layer, maxDegree, CompleteLayer(d, labels, |levels|))
  {
    var adj := CompleteLayer(d, labels, |levels|);
    forall u | 0 <= u < |levels|
      ensures ValidNode(levels, layer, maxDegree, u, adj[u])
    {
      if u in labels {
        CompleteNodeFacts(d, labels, u);
      }
    }
  }

  lemma MapKeepsDistinct(labels: seq<int>, ids: seq<int>)
    requires Distinct(labels) && InRange(|labels|, ids) && Distinct(ids)
    ensures Distinct(MapIds(labels, ids))
  {
    var r := MapIds(labels, ids);
    forall i, j | 0 <= i < j < |r|
      ensures r[i] != r[j]
    {
      assert ids[i] != ids[j];
    }
  }

  lemma MapNodeIsValid(
      levels: seq<int>, layer: int, labels: seq<int>, maxDegree: int, i: nat, ids: seq<int>)
    requires LabelsOf(levels, layer, labels) && i < |labels|
    requires Distinct(ids) && InRange(|labels|, ids) && i !in ids && |ids| <= maxDegree
    ensures 0 <= labels[i] < |levels|
    ensures ValidNode(levels, layer, maxDegree, labels[i], MapIds(labels, ids))
  {
    var r := MapIds(labels, ids);
    assert labels[i] in labels;
    MapKeepsDistinct(labels, ids);
    forall v | v in r
      ensures v in labels && v != labels[i]
    {
      var j :| 0 <= j < |r| && r[j] == v;
      assert ids[j] in ids;
      assert v == labels[ids[j]];
    }
  }

  lemma GlobalLayerIsValid(
      levels: seq<int>, layer: int, labels: seq<int>, local: seq<seq<int>>, maxDegree: int)
    requires LabelsOf(levels, layer, labels) && ValidLayer(|labels|, local, maxDegree)
    requires InRange(|levels|, labels) && ListsInRange(|labels|, local)
    ensures ValidAdjacency(levels, layer, maxDegree, GlobalUpTo(local, labels, |levels|, |labels|))
  {
    var g := GlobalUpTo(local, labels, |levels|, |labels|);
    GlobalFacts(local, labels, |levels|, |labels|);
    assert labels[..|labels|] == labels;
    forall u | 0 <= u < |levels|
      ensures ValidNode(levels, layer, maxDegree, u, g[u])
    {
      if u in labels {
        var i :| 0 <= i < |labels| && labels[i] == u;
        MapNodeIsValid(levels, layer, labels, maxDegree, i, local[i]);
      }
    }
  }

  /** Every layer built over its labels is valid. */
  lemma HNSWLayerIsValid(
      levels: seq<int>, layer: int, labels: seq<int>, g: Geometry, cfg: Config, maxDegree: int,
      env: Environment)
    requires Usable(cfg) && maxDegree >= 1 && LabelsOf(levels, layer, labels) && HasRows(g, labels)
    ensures InRange(|levels|, labels)
    ensures ValidAdjacency(levels, layer, maxDegree, HNSWLayer(layer, labels, |levels|, g, cfg, maxDegree, env))
  {
    LabelsOfInRange(levels, layer, labels);
    if |labels| - 1 <= maxDegree {
      CompleteLayerIsValid(levels, layer, labels, DistanceOver(g), maxDegree);
    } else {
      var local := IterNSG(layer, |labels|, DistanceOver(Compact(g, labels)), cfg, maxDegree, env,
                           LocalAngle(env.angle, labels));
      GlobalLayerIsValid(levels, layer, labels, local, maxDegree);
    }
  }

  /** One layer from the compact vectors of its labels; a wrapped degree bound makes it fail. */
  method BuildHNSWLayer(
      layer: int, labels: seq<int>, total: nat, local: Geometry, cfg: Config, maxDegree: int,
      env: Environment, ghost g: Geometry)
    returns (out: Outcome<seq<seq<int>>>)
    requires Usable(cfg) && InRange(total, labels) && Distinct(labels)
    requires HasRows(g, labels) && local == Compact(g, labels)
    ensures maxDegree >= 1 ==> out == Ok(HNSWLayer(layer, labels, total, g, cfg, maxDegree, env))
    ensures maxDegree < 0 && |labels| - 1 > maxDegree ==> out.Err?
  {
    if |labels| - 1 <= maxDegree {
      CompactKeepsDistances(g, labels);
      var complete := BuildCompleteLayer(DistanceOver(local), labels, total, DistanceOver(g));
      return Ok(complete);
    }
    var refined := BuildIterNSGLocal(layer, |labels|, DistanceOver(local), cfg, maxDegree, env,
                                     LocalAngle(env.angle, labels));
    if refined.Err? {
      return refined;
    }
    var global := MapLayerAdjacencyToGlobal(refined.value, labels, total);
    return Ok(global);
  }

  // ---------- all layers ----------

  datatype Graph = Graph(levels: seq<int>, layers: seq<seq<seq<int>>>, entryPoint: int, maxLayer: int)

  /** Layer `layer` of the graph over the given levels, when the base-layer bound does not wrap. */
  function LayerAt(levels: seq<int>, layer: int, top: int, g: Geometry, cfg: Config, env: Environment)
    : seq<seq<int>>
    requires Buildable(cfg) && 0 <= layer && IsTop(levels, top) && Covers(g, |levels|)
  {
    LayerLabels(levels, layer, top);
    CoversRows(g, |levels|, Labels(levels, layer, top));
    HNSWLayer(layer, Labels(levels, layer, top), |levels|, g, cfg, LayerMaxDegree(cfg.m, layer), env)
  }

  predicate IsTop(levels: seq<int>, top: int) {
    forall u :: 0 <= u < |levels| ==> levels[u] <= top
  }

  lemma LayerLabels(levels: seq<int>, layer: int, top: int)
    requires IsTop(levels, top)
    ensures LabelsOf(levels, layer, Labels(levels, layer, top))
    ensures InRange(|levels|, Labels(levels, layer, top))
  {
    LabelsFacts(levels, layer, top);
    LabelsOfInRange(levels, layer, Labels(levels, layer, top));
  }

  /** What a finished construction is: a valid graph whose entry is the seeded choice on the top layer. */
  ghost predicate IsBuilt(graph: Graph, levels: seq<int>, g: Geometry, cfg: Config, env: Environment, pick: nat)
    requires Buildable(cfg) && Covers(g, |levels|)
  {
    && graph.levels == levels && IsMaxLevel(levels, graph.maxLayer) && graph.maxLayer >= 0
    && |graph.layers| == graph.maxLayer + 1
    && AreLayers(graph.layers, levels, g, cfg, env, graph.maxLayer)
    && ValidGraph(cfg.m, levels, graph.layers, graph.entryPoint, graph.maxLayer)
    && levels[graph.entryPoint] == graph.maxLayer
    && graph.entryPoint == EntryOf(levels, graph.maxLayer, pick)
  }

  ghost predicate AreLayers(
      layers: seq<seq<seq<int>>>, levels: seq<int>, g: Geometry, cfg: Config, env: Environment, top: int)
    requires Buildable(cfg) && IsTop(levels, top) && Covers(g, |levels|) && |layers| == top + 1
  {
    forall layer :: 0 <= layer <= top ==> layers[layer] == LayerAt(levels, layer, top, g, cfg, env)
  }

  /** Construction succeeds exactly when twice M fits an int. */
  method BuildSearchableGraph(levels: seq<int>, g: Geometry, cfg: Config, env: Environment, pick: nat)
    returns (out: Outcome<Graph>)
    requires Usable(cfg) && Levels(levels) && levels != [] && Covers(g, |levels|)
    ensures out.Ok? <==> cfg.m < HALF
    ensures out.Ok? ==> IsBuilt(out.value, levels, g, cfg, env, pick)
  {
    var maxLayer := MaxAssignedLayer(levels);
    TopIsNonNegative(levels, maxLayer);
    var layout := BuildConstructionLayout(levels, maxLayer);
    LayoutHasRows(levels, layout, g, maxLayer);
    var copy := CopyLayoutVectors(layout.labels, g.flat, g.dim);
    EntryIsOnTop(levels, maxLayer, layout, pick);
    var entryPoint := SelectEntryPointFromLayout(layout, maxLayer, pick);
    var built := BuildLayers(levels, layout, copy, cfg, env, maxLayer, g);
    match built {
      case Err(error) => return Err(error);
      case Ok(layers) =>
        LayersAreValid(levels, layers, g, cfg, env, maxLayer);
        return Ok(Graph(levels, layers, entryPoint, maxLayer));
    }
  }

  // ---------- the number of workers ----------

  lemma IterNSGIgnoresWorkers(
      layer: int, n: nat, d: (int, int) -> real, cfg: Config, maxDegree: int, env: Environment,
      angle: (int, int, int) -> bool, workers: Int)
    requires n > 1 && Usable(cfg) && workers > 0
    ensures IterNSG(layer, n, d, cfg.(workers := workers), maxDegree, env, angle) ==
            IterNSG(layer, n, d, cfg, maxDegree, env, angle)
  {
    hide Refined, KNNG, Acquired, Layer;
    var k, ef := Min(cfg.candidateK, n - 1), Min(cfg.constructionL, n - 1);
    var knng := KNNG(n, d, Min(cfg.k0, n - 1), LayerDraw(env, layer), LayerStart(env, layer), ApproxRounds(cfg));
    RefinedIgnoresWorkers(d, angle, RefreshConfig(cfg, k, ef, maxDegree), workers, LayerEnough(env, layer),
                          Acquired(IdLists(knng), d, k, ef), cfg.iterations);
  }

  /** Every layer is the same whatever the number of workers. */
  lemma LayerIgnoresWorkers(
      levels: seq<int>, layer: int, top: int, g: Geometry, cfg: Config, env: Environment, workers: Int)
    requires Buildable(cfg) && 0 <= layer && IsTop(levels, top) && Covers(g, |levels|) && workers > 0
    ensures LayerAt(levels, layer, top, g, cfg.(workers := workers), env) == LayerAt(levels, layer, top, g, cfg, env)
  {
    hide IterNSG, CompleteLayer;
    var labels := Labels(levels, layer, top);
    LayerLabels(levels, layer, top);
    CoversRows(g, |levels|, labels);
    if |labels| > 1 {
      IterNSGIgnoresWorkers(layer, |labels|, DistanceOver(Compact(g, labels)), cfg, LayerMaxDegree(cfg.m, layer), env,
                            LocalAngle(env.angle, labels), workers);
    }
  }

  /** Construction is a function of the vectors, the levels, the seeds and the parameters other than the workers. */
  lemma BuiltOnce(
      a: Graph, b: Graph, levels: seq<int>, g: Geometry, cfg: Config, env: Environment, pick: nat, workers: Int)
    requires Buildable(cfg) && Covers(g, |levels|) && workers > 0
    requires IsBuilt(a, levels, g, cfg, env, pick) && IsBuilt(b, levels, g, cfg.(workers := workers), env, pick)
    ensures a == b
  {
    hide LayerAt, ValidGraph;
    assert a.maxLayer == b.maxLayer;
    forall layer | 0 <= layer <= a.maxLayer
      ensures a.layers[layer] == b.layers[layer]
    {
      LayerIgnoresWorkers(levels, layer, a.maxLayer, g, cfg, env, workers);
    }
  }

  lemma TopIsNonNegative(levels: seq<int>, top: int)
    requires Levels(levels) && IsMaxLevel(levels, top)
    ensures top >= 0
  {
    var u :| 0 <= u < |levels| && levels[u] == top;
  }

  lemma LayoutHasRows(levels: seq<int>, layout: ConstructionLayout, g: Geometry, maxLayer: nat)
    requires IsTop(levels, maxLayer) && IsLayout(levels, maxLayer, layout) && Covers(g, |levels|)
    ensures HasRows(g, layout.labels)
  {
    LayerLabels(levels, 0, maxLayer);
    CoversRows(g, |levels|, layout.labels);
  }

  /** The storage prefix of a layer holds exactly the vectors of its labels. */
  lemma LayerPrefix(g: Geometry, labels: seq<int>, n: nat)
    requires HasRows(g, labels) && n <= |labels|
    ensures HasRows(g, labels[..n])
    ensures 0 <= n * g.dim <= |Compact(g, labels).flat|
    ensures g.(flat := Compact(g, labels).flat[..n * g.dim]) == Compact(g, labels[..n])
  {
    CopyPrefix(g.flat, g.dim, labels, n);
  }

  method BuildLayers(
      levels: seq<int>, layout: ConstructionLayout, copy: seq<Float32>, cfg: Config, env: Environment,
      maxLayer: nat, g: Geometry)
    returns (out: Outcome<seq<seq<seq<int>>>>)
    requires Usable(cfg) && IsTop(levels, maxLayer) && IsLayout(levels, maxLayer, layout) && Covers(g, |levels|)
    requires HasRows(g, layout.labels) && copy == Compact(g, layout.labels).flat
    ensures out.Ok? <==> cfg.m < HALF
    ensures out.Ok? ==>
              |out.value| == maxLayer + 1 && AreLayers(out.value, levels, g, cfg, env, maxLayer)
  {
    var layers: seq<seq<seq<int>>> := seq(maxLayer + 1, _ => []);
    var layer: int := maxLayer;
    while layer >= 0
      invariant -1 <= layer <= maxLayer && |layers| == maxLayer + 1
      invariant layer < 0 ==> cfg.m < HALF
      invariant cfg.m < HALF ==>
                  forall i :: layer < i <= maxLayer ==> layers[i] == LayerAt(levels, i, maxLayer, g, cfg, env)
    {
      var labels := layout.labels[..layout.layerCounts[layer]];
      LayerPrefix(g, layout.labels, layout.layerCounts[layer]);
      var local := g.(flat := copy[..|labels| * g.dim]);
      var adjacency := BuildLayer(levels, layer, labels, local, cfg, env, maxLayer, g, |levels|);
      if adjacency.Err? {
        return Err(adjacency.error);
      }
      layers := layers[layer := adjacency.value];
      layer := layer - 1;
    }
    return Ok(layers);
  }

  method BuildLayer(
      ghost levels: seq<int>, layer: nat, labels: seq<int>, local: Geometry, cfg: Config, env: Environment,
      ghost maxLayer: nat, ghost g: Geometry, total: nat)
    returns (out: Outcome<seq<seq<int>>>)
    requires Usable(cfg) && IsTop(levels, maxLayer) && layer <= maxLayer && Covers(g, |levels|) && total == |levels|
    requires labels == Labels(levels, layer, maxLayer) && HasRows(g, labels) && local == Compact(g, labels)
    ensures out.Ok? <==> layer > 0 || cfg.m < HALF
    ensures cfg.m < HALF ==> out == Ok(LayerAt(levels, layer, maxLayer, g, cfg, env))
  {
    LayerLabels(levels, layer, maxLayer);
    var maxDegree: int := cfg.m;
    if layer == 0 {
      maxDegree := Doubled(cfg.m);
    }
    out := BuildHNSWLayer(layer, labels, total, local, cfg, maxDegree, env, g);
  }

  lemma LayersAreValid(
      levels: seq<int>, layers: seq<seq<seq<int>>>, g: Geometry, cfg: Config, env: Environment, maxLayer: nat)
    requires Buildable(cfg) && IsTop(levels, maxLayer) && |layers| == maxLayer + 1 && Covers(g, |levels|)
    requires AreLayers(layers, levels, g, cfg, env, maxLayer)
    ensures ValidLayers(cfg.m, levels, layers)
  {
    forall layer | 0 <= layer < |layers|
      ensures ValidAdjacency(levels, layer, LayerMaxDegree(cfg.m, layer), layers[layer])
    {
      var labels := Labels(levels, layer, maxLayer);
      LayerLabels(levels, layer, maxLayer);
      CoversRows(g, |levels|, labels);
      HNSWLayerIsValid(levels, layer, labels, g, cfg, LayerMaxDegree(cfg.m, layer), env);
    }
  }

  /** With at most 2M+1 nodes, layer 0 joins every node to every other, whatever the upper layers are. */
  lemma SmallBaseIsComplete(
      levels: seq<int>, top: int, g: Geometry, cfg: Config, env: Environment, u: int, v: int)
    requires Buildable(cfg) && Levels(levels) && IsTop(levels, top) && |levels| <= 2 * cfg.m + 1
    requires Covers(g, |levels|)
    requires 0 <= u < |levels| && 0 <= v < |levels| && u != v
    ensures v in LayerAt(levels, 0, top, g, cfg, env)[u]
  {
    var labels := Labels(levels, 0, top);
    LayerLabels(levels, 0, top);
    DistinctInRange(|levels|, labels);
    CompleteNodeFacts(DistanceOver(g), labels, u);
  }
}
