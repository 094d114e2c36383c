/** The index object: building it from a dataset and querying it. */
module IndexModel {
  import opened Order
  import opened Sorting
  import opened Scans
  import opened Outcomes
  import opened Config
  import opened Vectors
  import opened Graphs
  import opened Layout
  import opened Construction
  import opened BuiltLayers
  import opened Descent
  import opened BeamRanks

  predicate AcceptableDataset(kernel: Kernel, cfg: Config, vectors: seq<Vector>) {
    && vectors != [] && DatasetDim(vectors, cfg.dim) > 0
    && SameLength(vectors, DatasetDim(vectors, cfg.dim))
    && AllPrepared(kernel, cfg.metric, vectors)
  }

  /** Which datasets a build accepts, by the vectors alone. */
  lemma AcceptableExactly(kernel: Kernel, cfg: Config, vectors: seq<Vector>)
    requires Usable(cfg)
    ensures AcceptableDataset(kernel, cfg, vectors) <==>
            && vectors != [] && |vectors[0]| > 0 && (cfg.dim > 0 ==> |vectors[0]| == cfg.dim)
            && (forall i :: 0 <= i < |vectors| ==> |vectors[i]| == |vectors[0]|)
            && (cfg.metric == 1 ==> forall i :: 0 <= i < |vectors| ==> !kernel.isZero(vectors[i]))
  {
  }

  class Index {
    var cfg: Config
    var vectors: seq<Float32>
    var dim: int
    var count: nat
    var layers: seq<seq<seq<int>>>
    var levels: seq<int>
    var entryPoint: int
    var maxLayer: int
    var graphReady: bool

    constructor (cfg: Config)
      requires Usable(cfg)
      ensures Valid() && this.cfg == cfg && HoldsNoGraph()
    {
      this.cfg := cfg;
      vectors, dim, count := [], 0, 0;
      layers, levels, entryPoint, maxLayer, graphReady := [], [], -1, -1, false;
    }

    /** A ready index stores aligned vectors and a valid graph whose entry point is on the top layer. */
    ghost predicate Valid()
      reads this
    {
      && Usable(cfg)
      && (graphReady ==>
            && Buildable(cfg) && dim > 0 && cfg.dim == dim && count > 0 && |vectors| == count * dim
            && |levels| == count && Levels(levels) && IsMaxLevel(levels, maxLayer) && maxLayer >= 0
            && ValidGraph(cfg.m, levels, layers, entryPoint, maxLayer)
            && levels[entryPoint] == maxLayer)
    }

    method ResetSearchableGraph()
      modifies `layers, `levels, `entryPoint, `maxLayer, `graphReady
      ensures layers == [] && levels == [] && entryPoint == -1 && maxLayer == -1 && !graphReady
    {
      layers, levels, entryPoint, maxLayer, graphReady := [], [], -1, -1, false;
    }

    /** What construction measures distances over. */
    function StoredGeometry(kernel: Kernel): Geometry
      reads this
    {
      Geometry(kernel, cfg.metric, vectors, dim)
    }

    /** The graph fields hold what construction computes from the stored vectors. */
    ghost predicate HoldsGraph(kernel: Kernel, env: Environment, sample: int -> nat, pick: nat)
      reads this
    {
      && Valid() && graphReady && levels == AssignLevels(count, cfg.m, sample)
      && AreLayers(layers, levels, StoredGeometry(kernel), cfg, env, maxLayer)
      && entryPoint == EntryOf(levels, maxLayer, pick)
    }

    ghost predicate HoldsNoGraph()
      reads this
    {
      layers == [] && levels == [] && entryPoint == -1 && maxLayer == -1 && !graphReady
    }

    /**
     * An unacceptable dataset changes nothing. Otherwise the prepared vectors are stored, and the build succeeds
     * exactly when twice M fits an int; when it does not, no graph is left, not even that of an earlier build.
     */
    method Build(kernel: Kernel, data: seq<Vector>, env: Environment, sample: int -> nat, pick: nat)
      returns (out: Outcome<()>)
      requires Valid()
      modifies this
      ensures Valid()
      ensures out.Ok? <==> AcceptableDataset(kernel, old(cfg), data) && old(cfg).m < HALF
      ensures !AcceptableDataset(kernel, old(cfg), data) ==> unchanged(this)
      ensures AcceptableDataset(kernel, old(cfg), data) ==>
                && count == |data| && dim == DatasetDim(data, old(cfg).dim) && cfg == old(cfg).(dim := dim)
                && vectors == Concat(Prepared(kernel, cfg.metric, data))
                && if old(cfg).m < HALF then HoldsGraph(kernel, env, sample, pick) else HoldsNoGraph()
    {
      var flattened := FlattenVectors(kernel, data, cfg.dim, cfg.metric);
      match flattened {
        case Err(error) => return Err(error);
        case Ok(flat) =>
          FlatShape(kernel, cfg.metric, data, flat.1);
          vectors := flat.0;
          dim := flat.1;
          count := |data|;
          cfg := cfg.(dim := dim);
          ResetSearchableGraph();
          out := BuildGraph(kernel, env, sample, pick);
          if out.Err? {
            ResetSearchableGraph();
          }
      }
    }

    /** Construction over the stored vectors; a failure leaves the graph fields as they were. */
    method BuildGraph(kernel: Kernel, env: Environment, sample: int -> nat, pick: nat) returns (out: Outcome<()>)
      requires Usable(cfg) && dim > 0 && cfg.dim == dim && count > 0 && |vectors| == count * dim
      modifies `layers, `levels, `entryPoint, `maxLayer, `graphReady
      ensures out.Ok? <==> cfg.m < HALF
      ensures if out.Ok? then HoldsGraph(kernel, env, sample, pick) else unchanged(this)
    {
      hide LayerAt, EntryOf, ValidLayers, AreLayers, Covers;
      var sampled := AssignLevels(count, cfg.m, sample);
      var built := BuildSearchableGraph(sampled, StoredGeometry(kernel), cfg, env, pick);
      match built {
        case Err(error) => return Err(error);
        case Ok(graph) =>
          levels := graph.levels;
          layers := graph.layers;
          entryPoint := graph.entryPoint;
          maxLayer := graph.maxLayer;
          graphReady := true;
          return Ok(());
      }
    }

    /** What Search answers, in the order its checks run. */
    function Answer(kernel: Kernel, query: Vector, k: int, efSearch: int): Outcome<seq<Result>>
      requires Valid()
      reads this
    {
      if k <= 0 then Err(KNotPositive)
      else if efSearch <= 0 then Err(EfNotPositive)
      else if efSearch < k then Err(EfBelowK)
      else if query == [] then Err(BadDimension)
      else
        var d := if dim > 0 then dim else cfg.dim;
        if d > 0 && |query| != d then Err(BadDimension)
        else
          match Prepare(kernel, cfg.metric, query)
          case None => Err(ZeroVector)
          case Some(prepared) =>
            if !graphReady then Err(IndexNotBuilt)
            else
              Query(layers, QueryScore(kernel, cfg.metric, vectors, dim, prepared), maxLayer, entryPoint, k, efSearch)
    }

    method Search(kernel: Kernel, query: Vector, k: int, efSearch: int) returns (out: Outcome<seq<Result>>)
      requires Valid()
      ensures out == Answer(kernel, query, k, efSearch)
    {
      if k <= 0 {
        return Err(KNotPositive);
      }
      if efSearch <= 0 {
        return Err(EfNotPositive);
      }
      if efSearch < k {
        return Err(EfBelowK);
      }
      var d := cfg.dim;
      if dim > 0 {
        d := dim;
      }
      if |query| == 0 || (d > 0 && |query| != d) {
        return Err(BadDimension);
      }
      var prepared := Prepare(kernel, cfg.metric, query);
      if prepared.None? {
        return Err(ZeroVector);
      }
      if !graphReady {
        return Err(IndexNotBuilt);
      }
      out := SearchLayers(
        layers, QueryScore(kernel, cfg.metric, vectors, dim, prepared.value), count, maxLayer, entryPoint, k, efSearch);
    }
  }

  /** New validates the configuration first. */
  method NewIndex(cfg: Config, procs: Int) returns (out: Outcome<Index>)
    requires procs > 0
    ensures out.Ok? <==> Usable(Resolve(cfg, procs))
    ensures out.Ok? ==>
              fresh(out.value) && out.value.Valid() && out.value.cfg == Resolve(cfg, procs) && out.value.HoldsNoGraph()
  {
    var normalized := NormalizeConfig(cfg, procs);
    match normalized {
      case Err(error) => return Err(error);
      case Ok(usable) =>
        var idx := new Index(usable);
        return Ok(idx);
    }
  }

  /** A built index answers every well-formed query: never empty, never an error. */
  lemma BuiltIndexAnswers(idx: Index, kernel: Kernel, query: Vector, k: int, efSearch: int)
    requires idx.Valid() && idx.graphReady && 1 <= k <= efSearch && |query| == idx.dim
    requires Prepare(kernel, idx.cfg.metric, query).Some?
    ensures idx.Answer(kernel, query, k, efSearch).Ok?
    ensures var results := idx.Answer(kernel, query, k, efSearch).value;
            && 1 <= |results| <= k && Sorted(results) && Distinct(Ids(results)) && InRange(idx.count, Ids(results))
  {
    var q := QueryScore(kernel, idx.cfg.metric, idx.vectors, idx.dim, Prepare(kernel, idx.cfg.metric, query).value);
    QuerySucceeds(idx.cfg.m, idx.levels, idx.layers, idx.entryPoint, idx.maxLayer, q, k, efSearch);
  }

  /**
   * When a search succeeds and what it answers, without its functions: exactly for sensible limits and a query of
   * the right length that can be prepared, the greedy path through the upper layers and then the first k of a
   * settled search of layer 0 with width efSearch.
   */
  lemma AnswersExactly(idx: Index, kernel: Kernel, query: Vector, k: int, efSearch: int)
    requires idx.Valid() && idx.graphReady
    ensures idx.Answer(kernel, query, k, efSearch).Ok? <==>
            1 <= k <= efSearch && |query| == idx.dim && Prepare(kernel, idx.cfg.metric, query).Some?
    ensures idx.Answer(kernel, query, k, efSearch).Ok? ==>
              var q := QueryScore(kernel, idx.cfg.metric, idx.vectors, idx.dim,
                                  Prepare(kernel, idx.cfg.metric, query).value);
              Answers(idx.layers, q, idx.maxLayer, idx.entryPoint, k, efSearch,
                      idx.Answer(kernel, query, k, efSearch).value)
  {
    hide Query, Answers;
    if 1 <= k <= efSearch && |query| == idx.dim && Prepare(kernel, idx.cfg.metric, query).Some? {
      var q := QueryScore(kernel, idx.cfg.metric, idx.vectors, idx.dim, Prepare(kernel, idx.cfg.metric, query).value);
      QueryIsGreedy(idx.cfg.m, idx.levels, idx.layers, idx.entryPoint, idx.maxLayer, q, k, efSearch);
    }
  }

  // ---------- the brute-force oracle ----------

  function ExactAnswer(kernel: Kernel, flat: seq<Float32>, dim: int, metric: int, query: Vector, k: int)
    : Outcome<seq<Result>>
  {
    if dim <= 0 then Err(BadDimension)
    else if |flat| % dim != 0 then Err(MisalignedStorage)
    else if |query| != dim then Err(BadDimension)
    else if k <= 0 then Err(KNotPositive)
    else
      match Prepare(kernel, metric, query)
      case None => Err(ZeroVector)
      case Some(prepared) =>
        Ok(Best(Tag(QueryScore(kernel, metric, flat, dim, prepared), UpTo(|flat| / dim)), k))
  }

  method ExactTopK(kernel: Kernel, flat: seq<Float32>, dim: int, metric: int, query: Vector, k: int)
    returns (out: Outcome<seq<Result>>)
    ensures out == ExactAnswer(kernel, flat, dim, metric, query, k)
  {
    if dim <= 0 {
      return Err(BadDimension);
    }
    if |flat| % dim != 0 {
      return Err(MisalignedStorage);
    }
    if |query| != dim {
      return Err(BadDimension);
    }
    if k <= 0 {
      return Err(KNotPositive);
    }
    var prepared := Prepare(kernel, metric, query);
    if prepared.None? {
      return Err(ZeroVector);
    }
    var results := ExactScan(|flat| / dim, QueryScore(kernel, metric, flat, dim, prepared.value), k);
    return Ok(results);
  }

  /** The exact answer is the first k of all stored vectors in order, so nothing outside it is better. */
  lemma ExactIsExact(kernel: Kernel, flat: seq<Float32>, dim: int, metric: int, query: Vector, k: int, id: int)
    requires ExactAnswer(kernel, flat, dim, metric, query, k).Ok? && 0 <= id < |flat| / dim
    ensures var results := ExactAnswer(kernel, flat, dim, metric, query, k).value;
            var q := QueryScore(kernel, metric, flat, dim, Prepare(kernel, metric, query).value);
            && Sorted(results) && Distinct(Ids(results))
            && (Result(id, q(id)) in results ||
                (|results| == k && forall r :: r in results ==> !Better(Result(id, q(id)), r)))
  {
    var n := |flat| / dim;
    var q := QueryScore(kernel, metric, flat, dim, Prepare(kernel, metric, query).value);
    BestSorted(Tag(q, UpTo(n)), k);
    BestKnown(q, UpTo(n), k);
    assert UpTo(n)[id] == id;
    TagMember(q, UpTo(n), Result(id, q(id)));
    BestIsBest(Tag(q, UpTo(n)), k, Result(id, q(id)));
  }

  /** A ready index whose base layer is complete answers exactly like the oracle. */
  lemma CompleteIndexIsExact(idx: Index, kernel: Kernel, query: Vector, k: int, efSearch: int)
    requires idx.Valid() && idx.graphReady && CompleteBase(idx.layers[0])
    requires 1 <= k <= efSearch && |query| == idx.dim
    ensures idx.Answer(kernel, query, k, efSearch) ==
            ExactAnswer(kernel, idx.vectors, idx.dim, idx.cfg.metric, query, k)
  {
    StoredCount(idx.count, idx.dim);
    match Prepare(kernel, idx.cfg.metric, query) {
      case None =>
      case Some(prepared) =>
        var q := QueryScore(kernel, idx.cfg.metric, idx.vectors, idx.dim, prepared);
        CompleteBaseIsExact(idx.cfg.m, idx.levels, idx.layers, idx.entryPoint, idx.maxLayer, q, k, efSearch);
    }
  }

  /** So does one whose base layer is connected, once efSearch covers all the vectors. */
  lemma ConnectedIndexIsExact(idx: Index, kernel: Kernel, query: Vector, k: int, efSearch: int)
    requires idx.Valid() && idx.graphReady && Connected(idx.layers[0])
    requires 1 <= k <= efSearch && idx.count <= efSearch && |query| == idx.dim
    ensures idx.Answer(kernel, query, k, efSearch) ==
            ExactAnswer(kernel, idx.vectors, idx.dim, idx.cfg.metric, query, k)
  {
    hide Connected, Query;
    StoredCount(idx.count, idx.dim);
    match Prepare(kernel, idx.cfg.metric, query) {
      case None =>
      case Some(prepared) =>
        var q := QueryScore(kernel, idx.cfg.metric, idx.vectors, idx.dim, prepared);
        ConnectedBaseIsExact(idx.cfg.m, idx.levels, idx.layers, idx.entryPoint, idx.maxLayer, q, k, efSearch);
    }
  }

  /** Where the distances allow no detour, raising efSearch makes no rank of the answer worse. */
  lemma WiderSearchKeepsRanks(idx: Index, kernel: Kernel, query: Vector, k: int, efSearch: int, wider: int)
    requires idx.Valid() && idx.graphReady && 1 <= k <= efSearch <= wider && |query| == idx.dim
    requires Prepare(kernel, idx.cfg.metric, query).Some?
    requires !CanLose(idx.count, QueryScore(kernel, idx.cfg.metric, idx.vectors, idx.dim,
                                            Prepare(kernel, idx.cfg.metric, query).value))
    ensures var narrow, wide := idx.Answer(kernel, query, k, efSearch), idx.Answer(kernel, query, k, wider);
            narrow.Ok? && wide.Ok? && NoWorse(narrow.value, wide.value)
  {
    hide CanLose, Query, NoWorse;
    var q := QueryScore(kernel, idx.cfg.metric, idx.vectors, idx.dim, Prepare(kernel, idx.cfg.metric, query).value);
    BuiltIndexAnswers(idx, kernel, query, k, efSearch);
    QueriesKeptExactly(idx.cfg.m, idx.count, q);
    assert QueryKept(idx.layers, q, idx.maxLayer, idx.entryPoint, k, efSearch, wider);
  }

  /** Storage for count vectors holds count vectors. */
  lemma StoredCount(count: nat, dim: int)
    requires dim > 0
    ensures (count * dim) % dim == 0 && count * dim / dim == count
  {
    var x := count * dim;
    var quotient, rest := x / dim, x % dim;
    assert x == quotient * dim + rest;
    if quotient > count {
      ScaleMonotone(dim, count + 1, quotient);
    } else if quotient < count {
      ScaleMonotone(dim, quotient + 1, count);
    }
  }

  /** The base layer of a small built index is complete. */
  lemma SmallIndexIsComplete(idx: Index, kernel: Kernel, env: Environment, sample: int -> nat, pick: nat)
    requires idx.HoldsGraph(kernel, env, sample, pick) && idx.count <= 2 * idx.cfg.m + 1
    ensures CompleteBase(idx.layers[0])
  {
    forall u, v | 0 <= u < |idx.layers[0]| && 0 <= v < |idx.layers[0]| && u != v
      ensures v in idx.layers[0][u]
    {
      assert ValidAdjacency(idx.levels, 0, LayerMaxDegree(idx.cfg.m, 0), idx.layers[0]);
      SmallBaseIsComplete(idx.levels, idx.maxLayer, idx.StoredGeometry(kernel), idx.cfg, env, u, v);
    }
  }

  /** What a built index scores: the prepared input vectors against the prepared query, by the metric's kernel. */
  lemma ScoresOfData(kernel: Kernel, metric: int, data: seq<Vector>, dim: nat, query: Vector, id: nat)
    requires AllPrepared(kernel, metric, data) && id < |data| && forall i :: 0 <= i < |data| ==> |data[i]| == dim
    ensures QueryScore(kernel, metric, Concat(Prepared(kernel, metric, data)), dim, query)(id) ==
            kernel.distance(metric, Prepare(kernel, metric, data[id]).value, query)
  {
    var rows := Prepared(kernel, metric, data);
    ConcatAt(rows, dim, id);
  }

  /** And what a build measures: the first node's prepared vector against the second's. */
  lemma DistancesOfData(kernel: Kernel, metric: int, data: seq<Vector>, dim: nat, u: nat, v: nat)
    requires AllPrepared(kernel, metric, data) && forall i :: 0 <= i < |data| ==> |data[i]| == dim
    requires u < |data| && v < |data|
    ensures DistanceOver(Geometry(kernel, metric, Concat(Prepared(kernel, metric, data)), dim))(u, v) ==
            kernel.distance(metric, Prepare(kernel, metric, data[u]).value, Prepare(kernel, metric, data[v]).value)
  {
    var rows := Prepared(kernel, metric, data);
    ConcatAt(rows, dim, u);
    ConcatAt(rows, dim, v);
  }

  /** The layers of a built index, by the rules for built layers. */
  lemma LayersOfIndex(idx: Index, kernel: Kernel, env: Environment, sample: int -> nat, pick: nat, layer: int)
    requires idx.HoldsGraph(kernel, env, sample, pick) && 0 <= layer <= idx.maxLayer
    ensures var labels, d := Labels(idx.levels, layer, idx.maxLayer), DistanceOver(idx.StoredGeometry(kernel));
            && LabelsOf(idx.levels, layer, labels)
            && BuiltLayer(layer, labels, d, idx.cfg, DegreeBound(idx.cfg.m, layer), env, idx.layers[layer])
            && (|labels| > DegreeBound(idx.cfg.m, layer) + 1 ==>
                  forall u :: 0 <= u < idx.count ==>
                    |idx.layers[layer]| == idx.count && Spread(d, u, idx.layers[layer][u]))
  {
    hide BuiltLayer, Spread, LabelsOf, LayerAt;
    var g := idx.StoredGeometry(kernel);
    var graph := Graph(idx.levels, idx.layers, idx.entryPoint, idx.maxLayer);
    BuiltLayerByLayer(graph, idx.levels, g, idx.cfg, env, pick, layer);
    var labels := Labels(idx.levels, layer, idx.maxLayer);
    forall u | 0 <= u < idx.count && |labels| > DegreeBound(idx.cfg.m, layer) + 1
      ensures |idx.layers[layer]| == idx.count && Spread(DistanceOver(g), u, idx.layers[layer][u])
    {
      FinishedIsSpread(graph, idx.levels, g, idx.cfg, env, pick, layer, u);
    }
  }

  /** Two builds over the same vectors that differ in the number of workers alone leave the same graph and answers. */
  lemma WorkersDoNotMatter(
      a: Index, b: Index, kernel: Kernel, env: Environment, sample: int -> nat, pick: nat, query: Vector, k: int,
      efSearch: int)
    requires a.HoldsGraph(kernel, env, sample, pick) && b.HoldsGraph(kernel, env, sample, pick)
    requires b.cfg == a.cfg.(workers := b.cfg.workers)
    requires a.vectors == b.vectors && a.dim == b.dim && a.count == b.count
    ensures a.levels == b.levels && a.layers == b.layers && a.entryPoint == b.entryPoint && a.maxLayer == b.maxLayer
    ensures a.Answer(kernel, query, k, efSearch) == b.Answer(kernel, query, k, efSearch)
  {
    var x := Graph(a.levels, a.layers, a.entryPoint, a.maxLayer);
    var y := Graph(b.levels, b.layers, b.entryPoint, b.maxLayer);
    BuiltOnce(x, y, a.levels, a.StoredGeometry(kernel), a.cfg, env, pick, b.cfg.workers);
  }

  /** What every search of an index without a graph says to a well-formed query. */
  function NotBuilt(kernel: Kernel, metric: int, query: Vector): Outcome<seq<Result>> {
    if Prepare(kernel, metric, query).None? then Err(ZeroVector) else Err(IndexNotBuilt)
  }

  /**
   * End to end: building at most 2M+1 vectors and searching with efSearch >= k returns exactly what
   * the brute-force scan of the stored vectors returns, unless twice M does not fit an int; then every search
   * finds no graph.
   */
  method BuildThenSearchIsExact(
      idx: Index, kernel: Kernel, data: seq<Vector>, env: Environment, sample: int -> nat, pick: nat,
      query: Vector, k: int, efSearch: int)
    returns (found: Outcome<seq<Result>>, exact: Outcome<seq<Result>>)
    requires idx.Valid() && AcceptableDataset(kernel, idx.cfg, data) && |data| <= 2 * idx.cfg.m + 1
    requires 1 <= k <= efSearch && |query| == DatasetDim(data, idx.cfg.dim)
    modifies idx
    ensures found == if old(idx.cfg).m < HALF then exact else NotBuilt(kernel, old(idx.cfg).metric, query)
    ensures exact == ExactAnswer(kernel, Concat(Prepared(kernel, old(idx.cfg).metric, data)), |query|,
                                 old(idx.cfg).metric, query, k)
  {
    var built := idx.Build(kernel, data, env, sample, pick);
    if built.Ok? {
      SmallIndexIsComplete(idx, kernel, env, sample, pick);
      CompleteIndexIsExact(idx, kernel, query, k, efSearch);
    }
    found := idx.Search(kernel, query, k, efSearch);
    exact := ExactTopK(kernel, idx.vectors, idx.dim, idx.cfg.metric, query, k);
  }

  /** A configuration New accepts and no build succeeds with: M is the first value whose double does not fit. */
  method WideConfigNeverBuilds(
      kernel: Kernel, data: seq<Vector>, env: Environment, sample: int -> nat, pick: nat, procs: Int)
    returns (idx: Index, out: Outcome<()>)
    requires procs > 0
    ensures fresh(idx) && idx.Valid() && out.Err? && idx.HoldsNoGraph()
  {
    var wide := Config(0, 0, HALF, 0, 0, 0, 0, 0, 0, 0, 0, 0, 0);
    var created := NewIndex(wide, procs);
    idx := created.value;
    out := idx.Build(kernel, data, env, sample, pick);
  }
}
