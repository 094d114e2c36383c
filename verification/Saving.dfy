/** Saving a built index to a writer. */
module Saving {
  import opened Outcomes
  import opened Codec
  import opened Streams
  import opened Config
  import opened Graphs
  import opened Persistence
  import opened IndexModel

  /** The fields of an index that a file holds. */
  function Snapshot(idx: Index): Stored
    reads idx
  {
    Stored(idx.cfg, idx.dim, idx.count, idx.vectors, idx.levels, idx.entryPoint, idx.maxLayer, idx.layers)
  }

  method CheckedVectorValueCount(count: int, dim: int) returns (values: Option<nat>)
    ensures values == VectorValues(count, dim)
    ensures values.Some? <==> count > 0 && dim > 0 && count * dim <= MAX_VALUES
  {
    if count <= 0 || dim <= 0 {
      return None;
    }
    if count > MAX_VALUES / dim {
      ProductAbove(count, dim);
      return None;
    }
    ProductWithin(count, dim);
    return Some(count * dim);
  }

  lemma ProductWithin(count: int, dim: int)
    requires dim > 0 && 0 < count <= MAX_VALUES / dim
    ensures 0 <= count * dim <= MAX_VALUES
  {
    var q := MAX_VALUES / dim;
    assert count * dim <= q * dim;
  }

  lemma ProductAbove(count: int, dim: int)
    requires dim > 0 && count > MAX_VALUES / dim
    ensures count * dim > MAX_VALUES
  {
    var q := MAX_VALUES / dim;
    assert count * dim >= (q + 1) * dim;
  }

  /** The configuration part of the check. */
  method ValidatePersistedConfigForWrite(c: Config, procs: Int) returns (ok: bool)
    requires procs > 0
    ensures ok <==> SavableConfig(c)
  {
    var normalized := NormalizeConfig(c, procs);
    if normalized.Err? {
      return false;
    }
    if c.m <= 0 || c.m > MAX_DEGREE {
      return false;
    }
    if c.efConstruction <= 0 || c.efConstruction > MAX_DEGREE {
      return false;
    }
    if c.k0 <= 0 || c.k0 > MAX_DEGREE {
      return false;
    }
    if c.candidateK <= 0 || c.candidateK > MAX_DEGREE {
      return false;
    }
    if c.constructionL <= 0 || c.constructionL > MAX_DEGREE {
      return false;
    }
    if c.iterations <= 0 || c.iterations > MAX_DEGREE {
      return false;
    }
    if c.workers <= 0 || c.workers > MAX_DEGREE {
      return false;
    }
    return 0 < c.candidateControls <= MAX_DEGREE;
  }

  /** Decides exactly whether the index may be saved. */
  method ValidatePersistableIndex(idx: Index, procs: Int) returns (ok: bool)
    requires procs > 0
    ensures ok <==> idx.graphReady && Persistable(Snapshot(idx))
  {
    if !idx.graphReady {
      return false;
    }
    if idx.count <= 0 || idx.dim <= 0 {
      return false;
    }
    if idx.count > MAX_COUNT || idx.dim > MAX_DIMENSION {
      return false;
    }
    var values := CheckedVectorValueCount(idx.count, idx.dim);
    if values.None? {
      return false;
    }
    if |idx.vectors| != idx.count * idx.dim {
      return false;
    }
    if |idx.levels| != idx.count {
      return false;
    }
    if idx.entryPoint < 0 || idx.entryPoint >= idx.count {
      return false;
    }
    if idx.maxLayer < 0 || idx.maxLayer >= MAX_LAYERS {
      return false;
    }
    if |idx.layers| != idx.maxLayer + 1 {
      return false;
    }
    var savable := ValidatePersistedConfigForWrite(idx.cfg, procs);
    if !savable {
      return false;
    }
    ok := ValidateLayerAdjacency(idx.cfg.m, idx.levels, idx.layers, idx.count, idx.entryPoint, idx.maxLayer);
  }

  method WriteHeader(w: Writer, o: ByteOrder, metric: int, dim: int, ghost rest: seq<byte>) returns (status: Status)
    requires w.todo == PutHeader(o, MAGIC, metric, dim) + rest
    modifies w
    ensures w.Goal() == old(w.Goal()) && |old(w.sink)| <= |w.sink|
    ensures status.Done? ==> w.todo == rest
    ensures w.Reliable() ==> status.Done?
  {
    ghost var s2 := o.put32(dim) + rest;
    ghost var s1 := o.put32(metric) + s2;
    ghost var s0 := o.put32(VERSION) + s1;
    assert w.todo == MAGIC + s0;
    :- w.WriteFull(MAGIC, s0);
    :- w.WriteUint32(o, VERSION, s1);
    :- w.WriteUint32(o, metric, s2);
    status := w.WriteUint32(o, dim, rest);
  }

  function SizeList(c: Config): seq<int> {
    [c.m, c.efConstruction, c.k0, c.candidateK, c.constructionL]
  }

  /** The five sizes go out as one list of words. */
  lemma SizesAreWords(o: ByteOrder, c: Config)
    ensures PutSizes(o, c) == PutAll(o.put32, SizeList(c))
  {
    var v1: seq<int> := [c.m];
    var v2 := v1 + [c.efConstruction];
    var v3 := v2 + [c.k0];
    var v4 := v3 + [c.candidateK];
    var v5 := v4 + [c.constructionL];
    PutAllSnoc(o.put32, [], c.m);
    PutAllSnoc(o.put32, v1, c.efConstruction);
    PutAllSnoc(o.put32, v2, c.k0);
    PutAllSnoc(o.put32, v3, c.candidateK);
    PutAllSnoc(o.put32, v4, c.constructionL);
    assert v5 == SizeList(c);
  }

  method WriteConfig(w: Writer, o: ByteOrder, c: Config, ghost rest: seq<byte>) returns (status: Status)
    requires w.todo == PutConfig(o, c) + rest
    modifies w
    ensures w.Goal() == old(w.Goal()) && |old(w.sink)| <= |w.sink|
    ensures status.Done? ==> w.todo == rest
    ensures w.Reliable() ==> status.Done?
  {
    ghost var s2 := PutQuality(o, c) + rest;
    ghost var s1 := PutRounds(o, c) + s2;
    assert w.todo == PutSizes(o, c) + s1;
    SizesAreWords(o, c);
    :- w.WriteWords(o, SizeList(c), s1);
    :- WriteRounds(w, o, c, s2);
    status := WriteQuality(w, o, c, rest);
  }

  method WriteRounds(w: Writer, o: ByteOrder, c: Config, ghost rest: seq<byte>) returns (status: Status)
    requires w.todo == PutRounds(o, c) + rest
    modifies w
    ensures w.Goal() == old(w.Goal()) && |old(w.sink)| <= |w.sink|
    ensures status.Done? ==> w.todo == rest
    ensures w.Reliable() ==> status.Done?
  {
    ghost var s2 := Put64(o, c.seed) + rest;
    ghost var s1 := o.put32(c.iterations) + s2;
    assert w.todo == Put64(o, c.alpha) + s1;
    :- w.WriteUint64(o, c.alpha, s1);
    :- w.WriteUint32(o, c.iterations, s2);
    status := w.WriteUint64(o, c.seed, rest);
  }

  method WriteQuality(w: Writer, o: ByteOrder, c: Config, ghost rest: seq<byte>) returns (status: Status)
    requires w.todo == PutQuality(o, c) + rest
    modifies w
    ensures w.Goal() == old(w.Goal()) && |old(w.sink)| <= |w.sink|
    ensures status.Done? ==> w.todo == rest
    ensures w.Reliable() ==> status.Done?
  {
    ghost var s2 := o.put32(c.candidateControls) + rest;
    ghost var s1 := Put64(o, c.candidateRecall) + s2;
    assert w.todo == o.put32(c.workers) + s1;
    :- w.WriteUint32(o, c.workers, s1);
    :- w.WriteUint64(o, c.candidateRecall, s2);
    status := w.WriteUint32(o, c.candidateControls, rest);
  }

  method WriteRows(w: Writer, o: ByteOrder, r: Rows, ghost rest: seq<byte>) returns (status: Status)
    requires w.todo == PutRows(o, r) + rest
    modifies w
    ensures w.Goal() == old(w.Goal()) && |old(w.sink)| <= |w.sink|
    ensures status.Done? ==> w.todo == rest
    ensures w.Reliable() ==> status.Done?
  {
    ghost var s2 := PutAll(o.put32, r.levels) + rest;
    ghost var s1 := PutAll(o.put32, r.vectors) + s2;
    assert w.todo == o.put32(r.count) + s1;
    :- w.WriteUint32(o, r.count, s1);
    :- w.WriteWords(o, r.vectors, s2);
    status := w.WriteWords(o, r.levels, rest);
  }

  method WriteNode(w: Writer, o: ByteOrder, ns: seq<int>, ghost rest: seq<byte>) returns (status: Status)
    requires w.todo == NodeWriter(o)(ns) + rest
    modifies w
    ensures w.Goal() == old(w.Goal()) && |old(w.sink)| <= |w.sink|
    ensures status.Done? ==> w.todo == rest
    ensures w.Reliable() ==> status.Done?
  {
    ghost var s1 := PutAll(o.put32, ns) + rest;
    assert w.todo == o.put32(|ns|) + s1;
    :- w.WriteUint32(o, |ns|, s1);
    status := w.WriteWords(o, ns, rest);
  }

  lemma NothingLeft<T>(put: T -> seq<byte>, s: seq<T>)
    ensures PutAll(put, s[|s|..]) == []
  {
  }

  method WriteLayer(w: Writer, o: ByteOrder, nodes: seq<seq<int>>, ghost rest: seq<byte>) returns (status: Status)
    requires w.todo == PutAll(NodeWriter(o), nodes) + rest
    modifies w
    ensures w.Goal() == old(w.Goal()) && |old(w.sink)| <= |w.sink|
    ensures status.Done? ==> w.todo == rest
    ensures w.Reliable() ==> status.Done?
  {
    hide PutAll, NodeWriter;
    ghost var put := NodeWriter(o);
    assert nodes[0..] == nodes;
    NothingLeft(put, nodes);
    for u := 0 to |nodes|
      invariant w.todo == PutAll(put, nodes[u..]) + rest
      invariant w.Goal() == old(w.Goal()) && |old(w.sink)| <= |w.sink|
    {
      PutAllCons(put, nodes[u..]);
      assert nodes[u..][1..] == nodes[u + 1..];
      ghost var after := PutAll(put, nodes[u + 1..]) + rest;
      assert w.todo == put(nodes[u]) + after;
      :- WriteNode(w, o, nodes[u], after);
    }
    return Done;
  }

  method WriteLayers(w: Writer, o: ByteOrder, layers: seq<seq<seq<int>>>, ghost rest: seq<byte>)
    returns (status: Status)
    requires w.todo == PutAll(LayerWriter(o), layers) + rest
    modifies w
    ensures w.Goal() == old(w.Goal()) && |old(w.sink)| <= |w.sink|
    ensures status.Done? ==> w.todo == rest
    ensures w.Reliable() ==> status.Done?
  {
    hide PutAll;
    ghost var put := LayerWriter(o);
    assert layers[0..] == layers;
    NothingLeft(put, layers);
    for l := 0 to |layers|
      invariant w.todo == PutAll(put, layers[l..]) + rest
      invariant w.Goal() == old(w.Goal()) && |old(w.sink)| <= |w.sink|
    {
      PutAllCons(put, layers[l..]);
      assert layers[l..][1..] == layers[l + 1..];
      ghost var after := PutAll(put, layers[l + 1..]) + rest;
      assert w.todo == put(layers[l]) + after;
      :- WriteLayer(w, o, layers[l], after);
    }
    return Done;
  }

  method WriteTop(w: Writer, o: ByteOrder, t: Top, ghost rest: seq<byte>) returns (status: Status)
    requires w.todo == PutTop(o, t) + rest
    modifies w
    ensures w.Goal() == old(w.Goal()) && |old(w.sink)| <= |w.sink|
    ensures status.Done? ==> w.todo == rest
    ensures w.Reliable() ==> status.Done?
  {
    ghost var s3 := PutAll(LayerWriter(o), t.layers) + rest;
    ghost var s2 := o.put32(|t.layers|) + s3;
    ghost var s1 := o.put32(t.maxLayer) + s2;
    assert w.todo == o.put32(t.entryPoint) + s1;
    :- w.WriteUint32(o, t.entryPoint, s1);
    :- w.WriteUint32(o, t.maxLayer, s2);
    :- w.WriteUint32(o, |t.layers|, s3);
    status := WriteLayers(w, o, t.layers, rest);
  }

  method WriteStored(w: Writer, o: ByteOrder, x: Stored, ghost rest: seq<byte>) returns (status: Status)
    requires w.todo == Encode(o, x) + rest
    modifies w
    ensures w.Goal() == old(w.Goal()) && |old(w.sink)| <= |w.sink|
    ensures status.Done? ==> w.todo == rest
    ensures w.Reliable() ==> status.Done?
  {
    ghost var header, config, rows, top :=
      PutHeader(o, MAGIC, x.cfg.metric, x.dim), PutConfig(o, x.cfg), PutRows(o, RowsOf(x)), PutTop(o, TopOf(x));
    Nested(header, config, rows, top, rest);
    :- WriteHeader(w, o, x.cfg.metric, x.dim, config + (rows + (top + rest)));
    :- WriteConfig(w, o, x.cfg, rows + (top + rest));
    :- WriteRows(w, o, RowsOf(x), top + rest);
    status := WriteTop(w, o, TopOf(x), rest);
  }

  lemma PartOfGoal(start: seq<byte>, sink: seq<byte>, todo: seq<byte>, data: seq<byte>)
    requires sink + todo == start + data && |start| <= |sink|
    ensures start <= sink <= start + data
    ensures todo == [] ==> sink == start + data
  {
    assert (sink + todo)[..|start|] == (start + data)[..|start|];
    assert sink == (sink + todo)[..|sink|];
  }

  method WriteEncoding(w: Writer, o: ByteOrder, x: Stored) returns (status: Status)
    modifies w
    ensures status.Done? ==> w.sink == old(w.sink) + Encode(o, x)
    ensures old(w.sink) <= w.sink <= old(w.sink) + Encode(o, x)
    ensures w.Reliable() ==> status.Done?
  {
    ghost var data := Encode(o, x);
    w.todo := data;
    assert w.todo == data + [];
    status := WriteStored(w, o, x, []);
    PartOfGoal(old(w.sink), w.sink, w.todo, data);
  }

  /**
   * Writes nothing unless the index may be saved. A successful save appended exactly the encoding; a failed
   * one leaves a prefix of it; with a reliable writer the only failure is an index that may not be saved.
   */
  method SaveIndex(idx: Index, w: Writer, o: ByteOrder, procs: Int) returns (status: Status)
    requires procs > 0
    modifies w
    ensures status.Done? ==>
              idx.graphReady && Persistable(Snapshot(idx)) && w.sink == old(w.sink) + Encode(o, Snapshot(idx))
    ensures old(w.sink) <= w.sink <= old(w.sink) + Encode(o, Snapshot(idx))
    ensures !(idx.graphReady && Persistable(Snapshot(idx))) ==> w.sink == old(w.sink)
    ensures idx.graphReady && Persistable(Snapshot(idx)) && w.Reliable() ==> status.Done?
  {
    var ok := ValidatePersistableIndex(idx, procs);
    if !ok {
      return Failed;
    }
    var x := Snapshot(idx);
    status := WriteEncoding(w, o, x);
  }
}
