/** A built index written to a file and read back. */
module RoundTrip {
  import opened Outcomes
  import opened Codec
  import opened Streams
  import opened Config
  import opened Vectors
  import opened Order
  import opened Layout
  import opened Graphs
  import opened Construction
  import opened Descent
  import opened Persistence
  import opened IndexModel
  import opened Saving
  import opened Loading

  /** The size limits of the format, all but the degree limit. */
  ghost predicate FitsFile(idx: Index)
    reads idx
  {
    && idx.count <= MAX_COUNT && 0 < idx.dim <= MAX_DIMENSION && idx.count * idx.dim <= MAX_VALUES
    && idx.maxLayer < MAX_LAYERS
    && SmallSizes(idx.cfg) && SmallRounds(idx.cfg) && SmallQuality(idx.cfg)
  }

  /** A ready index within the limits passes every check of saving, and every unchecked condition but the degrees. */
  lemma ReadyIsPersistable(idx: Index)
    requires idx.Valid() && idx.graphReady && FitsFile(idx)
    ensures Persistable(Snapshot(idx)) && FitsItsTypes(Snapshot(idx))
    ensures Settled(idx.cfg) && idx.cfg.dim == idx.dim && AllWithin(idx.levels, MAX_LAYERS - 1)
  {
    if idx.count > MAX_VALUES / idx.dim {
      ProductAbove(idx.count, idx.dim);
    }
    assert VectorValues(idx.count, idx.dim) == Some(idx.count * idx.dim);
    assert Resolve(idx.cfg, 1) == idx.cfg;
  }

  /** The file of a ready index decodes to that index, or to nothing when some node is too wide. */
  lemma ReadyRoundTrip(idx: Index)
    requires idx.Valid() && idx.graphReady && FitsFile(idx)
    ensures Decode(LittleEndian(), Encode(LittleEndian(), Snapshot(idx))) ==
            if SmallDegrees(idx.layers) then Some((Snapshot(idx), [])) else None
    ensures 2 * idx.cfg.m <= MAX_DEGREE ==> SmallDegrees(idx.layers)
  {
    var x := Snapshot(idx);
    ReadyIsPersistable(idx);
    LittleEndianIsLawful();
    SavedLoadsOrFails(LittleEndian(), x, []);
    assert Encode(LittleEndian(), x) + [] == Encode(LittleEndian(), x);
    if 2 * idx.cfg.m <= MAX_DEGREE {
      ModestDegrees(idx.cfg.m, idx.levels, idx.layers);
    }
  }

  /** Two indexes with the same fields answer every query alike. */
  lemma SameFieldsSameAnswers(a: Index, b: Index, kernel: Kernel, query: Vector, k: int, efSearch: int)
    requires a.Valid() && b.Valid() && a.graphReady && b.graphReady && Snapshot(a) == Snapshot(b)
    ensures a.Answer(kernel, query, k, efSearch) == b.Answer(kernel, query, k, efSearch)
  {
  }

  /** Saving a ready index through a reliable writer cannot fail. */
  method SaveReady(idx: Index, w: Writer, procs: Int)
    requires procs > 0 && idx.Valid() && idx.graphReady && FitsFile(idx)
    requires w.Reliable() && w.sink == []
    modifies w
    ensures w.sink == Encode(LittleEndian(), Snapshot(idx))
  {
    ReadyIsPersistable(idx);
    var status := SaveIndex(idx, w, LittleEndian(), procs);
    assert status.Done?;
  }

  method LoadBytes(bytes: seq<byte>, procs: Int, ghost spec: Read<Stored>) returns (copy: Option<Index>)
    requires procs > 0 && Decode(LittleEndian(), bytes) == spec
    ensures copy.Some? <==> spec.Some?
    ensures copy.Some? ==>
              fresh(copy.value) && copy.value.Valid() && copy.value.graphReady && Snapshot(copy.value) == spec.value.0
  {
    var r := new Reader(bytes);
    copy := LoadIndex(r, procs);
  }

  /**
   * Saving a ready index through a reliable writer and loading the file gives back an equal index exactly
   * when no node has more neighbours than the format allows, which M up to 2^19 guarantees.
   */
  method SaveThenLoad(idx: Index, w: Writer, procs: Int) returns (copy: Option<Index>)
    requires procs > 0 && idx.Valid() && idx.graphReady && FitsFile(idx)
    requires w.Reliable() && w.sink == []
    modifies w
    ensures w.sink == Encode(LittleEndian(), Snapshot(idx))
    ensures copy.Some? <==> SmallDegrees(idx.layers)
    ensures copy.Some? ==>
              fresh(copy.value) && copy.value.Valid() && copy.value.graphReady && Snapshot(copy.value) == Snapshot(idx)
    ensures 2 * idx.cfg.m <= MAX_DEGREE ==> copy.Some?
  {
    SaveReady(idx, w, procs);
    ReadyRoundTrip(idx);
    copy := LoadBytes(w.sink, procs, if SmallDegrees(idx.layers) then Some((Snapshot(idx), [])) else None);
  }

  // ---------- the indexes that are lost ----------

  /** In a complete base layer every node is linked to all others. */
  lemma BaseDegree(idx: Index, kernel: Kernel, env: Environment, sample: int -> nat, pick: nat, u: nat)
    requires idx.HoldsGraph(kernel, env, sample, pick) && u < idx.count <= 2 * idx.cfg.m + 1
    ensures |idx.layers[0]| == idx.count && |idx.layers[0][u]| == idx.count - 1
  {
    var g, labels := idx.StoredGeometry(kernel), Labels(idx.levels, 0, idx.maxLayer);
    LayerLabels(idx.levels, 0, idx.maxLayer);
    LabelsAreAll(idx.levels, idx.maxLayer);
    CompleteNodeFacts(DistanceOver(g), labels, u);
  }

  /** A build of at most 2M+1 vectors keeps to the degree limit of the format exactly when the limit covers its size. */
  lemma SmallBuildDegrees(idx: Index, kernel: Kernel, env: Environment, sample: int -> nat, pick: nat)
    requires idx.HoldsGraph(kernel, env, sample, pick) && idx.count <= 2 * idx.cfg.m + 1 && Small(idx.cfg.m)
    ensures SmallDegrees(idx.layers) <==> idx.count <= MAX_DEGREE + 1
  {
    BaseDegree(idx, kernel, env, sample, pick, 0);
    forall l, u | 0 <= l < |idx.layers| && 0 <= u < |idx.layers[l]|
      ensures idx.count <= MAX_DEGREE + 1 ==> |idx.layers[l][u]| <= MAX_DEGREE
    {
      assert ValidAdjacency(idx.levels, l, LayerMaxDegree(idx.cfg.m, l), idx.layers[l]);
      assert ValidNode(idx.levels, l, LayerMaxDegree(idx.cfg.m, l), u, idx.layers[l][u]);
      if l == 0 {
        BaseDegree(idx, kernel, env, sample, pick, u);
      }
    }
  }

  /** A dataset, a configuration and sampled levels within every limit of the format but the degree limit. */
  ghost predicate FitsOnceBuilt(cfg: Config, data: seq<Vector>, sample: int -> nat) {
    && data != [] && |data| <= MAX_COUNT
    && 0 < DatasetDim(data, cfg.dim) <= MAX_DIMENSION && |data| * DatasetDim(data, cfg.dim) <= MAX_VALUES
    && SmallSizes(cfg) && SmallRounds(cfg) && SmallQuality(cfg)
    && forall u :: 0 <= u < |data| ==> sample(u) < MAX_LAYERS
  }

  /**
   * Building at most 2M+1 vectors, saving and loading: the build and the save succeed, and the file can be loaded
   * exactly when there are at most 2^20 + 1 vectors.
   */
  method BuildSaveLoad(
      idx: Index, kernel: Kernel, data: seq<Vector>, env: Environment, sample: int -> nat, pick: nat, w: Writer,
      procs: Int)
    returns (copy: Option<Index>)
    requires procs > 0 && idx.Valid() && AcceptableDataset(kernel, idx.cfg, data)
    requires FitsOnceBuilt(idx.cfg, data, sample) && |data| <= 2 * idx.cfg.m + 1
    requires w.Reliable() && w.sink == []
    modifies idx, w
    ensures idx.Valid() && idx.graphReady && w.sink == Encode(LittleEndian(), Snapshot(idx))
    ensures copy.Some? <==> |data| <= MAX_DEGREE + 1
  {
    var built := idx.Build(kernel, data, env, sample, pick);
    SmallBuildDegrees(idx, kernel, env, sample, pick);
    copy := SaveThenLoad(idx, w, procs);
  }

  /** M one above half the degree limit, and 2^20 + 2 equal vectors of one coordinate. */
  method WideIndexIsLost(kernel: Kernel, env: Environment, sample: int -> nat, pick: nat, w: Writer, procs: Int)
    returns (idx: Index, copy: Option<Index>)
    requires procs > 0 && w.Reliable() && w.sink == [] && forall u :: sample(u) < MAX_LAYERS
    modifies w
    ensures idx.Valid() && idx.graphReady && w.sink == Encode(LittleEndian(), Snapshot(idx))
    ensures copy == None
  {
    var cfg := Config(0, 1, MAX_DEGREE / 2 + 1, 0, 0, 0, 0, 0, 0, 0, 1, 0, 0);
    var data: seq<Vector> := seq(MAX_DEGREE + 2, _ => [0]);
    var created := NewIndex(cfg, procs);
    idx := created.value;
    copy := BuildSaveLoad(idx, kernel, data, env, sample, pick, w, procs);
  }
}
