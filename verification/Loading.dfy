/** Loading an index from a reader. */
module Loading {
  import opened Order
  import opened Outcomes
  import opened Codec
  import opened Streams
  import opened Config
  import opened Layout
  import opened Graphs
  import opened Persistence
  import opened IndexModel
  import opened Saving

  // ---------- header and configuration ----------

  method ReadHeader(r: Reader, ghost o: ByteOrder) returns (out: Option<(int, int)>)
    requires o == LittleEndian()
    modifies r
    ensures Matches(out, r.rest, TakeHeader(o, old(r.rest), MAGIC))
  {
    var magic :- r.ReadFull(|MAGIC|);
    if magic != MAGIC {
      return None;
    }
    var version :- r.ReadUint32(o);
    if version != VERSION {
      return None;
    }
    var metric :- r.ReadUint32(o);
    if !ValidMetric(metric) {
      return None;
    }
    var dim :- ReadPositive(r, o, MAX_DIMENSION);
    return Some((metric, dim));
  }

  method ReadSizes(r: Reader, ghost o: ByteOrder) returns (out: Option<Sizes>)
    requires o == LittleEndian()
    modifies r
    ensures Matches(out, r.rest, TakeSizes(o, old(r.rest)))
    ensures out.Some? ==>
              var a := out.value;
              && a.m > 0 && a.efConstruction > 0 && a.k0 > 0 && a.candidateK > 0 && a.constructionL > 0
              && SizesFit(a)
  {
    var m :- ReadPositive(r, o, MAX_DEGREE);
    var efConstruction :- ReadPositive(r, o, MAX_DEGREE);
    var k0 :- ReadPositive(r, o, MAX_DEGREE);
    var candidateK :- ReadPositive(r, o, MAX_DEGREE);
    var constructionL :- ReadPositive(r, o, MAX_DEGREE);
    return Some(Sizes(m, efConstruction, k0, candidateK, constructionL));
  }

  method ReadRounds(r: Reader, ghost o: ByteOrder) returns (out: Option<Rounds>)
    requires o == LittleEndian()
    modifies r
    ensures Matches(out, r.rest, TakeRounds(o, old(r.rest)))
    ensures out.Some? ==>
              var b := out.value; RoundsFit(b) && !IsZero(b.alpha) && b.iterations > 0 && b.seed != 0
  {
    var alpha :- ReadUint64(r, o);
    if IsZero(alpha) {
      return None;
    }
    var iterations :- ReadPositive(r, o, MAX_DEGREE);
    var bits :- ReadUint64(r, o);
    var seed := ToI64(bits);
    if seed == 0 {
      return None;
    }
    return Some(Rounds(alpha, iterations, seed));
  }

  method ReadQuality(r: Reader, ghost o: ByteOrder) returns (out: Option<Quality>)
    requires o == LittleEndian()
    modifies r
    ensures Matches(out, r.rest, TakeQuality(o, old(r.rest)))
    ensures out.Some? ==>
              var c := out.value;
              QualityFits(c) && c.workers > 0 && !IsZero(c.candidateRecall) && c.candidateControls > 0
  {
    var workers :- ReadPositive(r, o, MAX_DEGREE);
    var recall :- ReadUint64(r, o);
    if IsZero(recall) {
      return None;
    }
    var controls :- ReadPositive(r, o, MAX_DEGREE);
    return Some(Quality(workers, recall, controls));
  }

  /** The stored fields are normalised like a caller's, which changes none of them. */
  method ReadConfig(r: Reader, ghost o: ByteOrder, metric: Int, dim: int, procs: Int) returns (out: Option<Config>)
    requires o == LittleEndian() && procs > 0
    modifies r
    ensures Matches(out, r.rest, TakeConfig(o, old(r.rest), metric, dim))
  {
    var a :- ReadSizes(r, o);
    var b :- ReadRounds(r, o);
    var c :- ReadQuality(r, o);
    var raw := Config(
      metric, dim, a.m, a.efConstruction, a.k0, a.candidateK, a.constructionL, b.alpha, b.iterations, b.seed,
      c.workers, c.candidateRecall, c.candidateControls);
    var normalized := NormalizeConfig(raw, procs);
    assert Resolve(raw, procs) == raw;
    match normalized {
      case Err(_) => return None;
      case Ok(cfg) => return Some(cfg);
    }
  }

  // ---------- rows ----------

  method ReadWords(r: Reader, ghost o: ByteOrder, n: nat) returns (out: Option<seq<int>>)
    requires o == LittleEndian()
    modifies r
    ensures Matches(out, r.rest, TakeAll(WordReader(o, WORD - 1), old(r.rest), n))
    ensures out.Some? ==> |out.value| == n
  {
    ghost var take, start := WordReader(o, WORD - 1), r.rest;
    var vs: seq<int> := [];
    for i := 0 to n
      invariant TakeAll(take, start, i) == Some((vs, r.rest))
    {
      var v := ReadAtMost(r, o, WORD - 1);
      if v.None? {
        AllFails(take, start, i + 1, n);
        return None;
      }
      vs := vs + [v.value];
    }
    return Some(vs);
  }

  /** The levels and the largest of them. */
  method ReadLevels(r: Reader, ghost o: ByteOrder, n: nat) returns (out: Option<seq<int>>, maxSeen: int)
    requires o == LittleEndian()
    modifies r
    ensures Matches(out, r.rest, TakeAll(WordReader(o, MAX_LAYERS - 1), old(r.rest), n))
    ensures out.Some? ==> |out.value| == n && (n > 0 ==> IsMaxLevel(out.value, maxSeen))
  {
    ghost var take, start := WordReader(o, MAX_LAYERS - 1), r.rest;
    var levels: seq<int> := [];
    maxSeen := 0;
    for i := 0 to n
      invariant TakeAll(take, start, i) == Some((levels, r.rest))
      invariant forall u :: 0 <= u < |levels| ==> 0 <= levels[u] <= maxSeen
      invariant maxSeen == 0 || maxSeen in levels
    {
      var level := ReadAtMost(r, o, MAX_LAYERS - 1);
      if level.None? {
        AllFails(take, start, i + 1, n);
        return None, maxSeen;
      }
      levels := levels + [level.value];
      assert levels[i] == level.value;
      if level.value > maxSeen {
        maxSeen := level.value;
      }
    }
    if n > 0 && maxSeen == 0 {
      assert levels[0] == 0;
    }
    return Some(levels), maxSeen;
  }

  method ReadRows(r: Reader, ghost o: ByteOrder, dim: int) returns (out: Option<Rows>, maxSeen: int)
    requires o == LittleEndian()
    modifies r
    ensures Matches(out, r.rest, TakeRows(o, old(r.rest), dim))
    ensures out.Some? ==> IsMaxLevel(out.value.levels, maxSeen) && |out.value.levels| == out.value.count
  {
    maxSeen := 0;
    var count := ReadPositive(r, o, MAX_COUNT);
    if count.None? {
      return None, maxSeen;
    }
    var values := CheckedVectorValueCount(count.value, dim);
    if values.None? {
      return None, maxSeen;
    }
    var vectors := ReadWords(r, o, values.value);
    if vectors.None? {
      return None, maxSeen;
    }
    var levels;
    levels, maxSeen := ReadLevels(r, o, count.value);
    if levels.None? {
      return None, maxSeen;
    }
    return Some(Rows(count.value, vectors.value, levels.value)), maxSeen;
  }

  // ---------- layers ----------

  /** Neighbours already known to be bad make the whole node unreadable. */
  lemma BadPrefix(
      o: ByteOrder, s: seq<byte>, count: int, u: int, maxDegree: int, ns: seq<int>, v: int)
    requires TakeAtMost(o, s, MAX_DEGREE).Some?
    requires var (degree, s1) := TakeAtMost(o, s, MAX_DEGREE).value;
             && |ns| < degree
             && TakeAll(WordReader(o, count - 1), s1, |ns| + 1).Some?
             && TakeAll(WordReader(o, count - 1), s1, |ns| + 1).value.0 == ns + [v]
    requires v == u || v in ns
    ensures TakeNode(o, s, count, u, maxDegree) == None
  {
    hide TakeAll, TakeAtMost, GoodNode;
    var (degree, s1) := TakeAtMost(o, s, MAX_DEGREE).value;
    var take := WordReader(o, count - 1);
    if TakeAll(take, s1, degree).Some? {
      AllPrefix(take, s1, |ns| + 1, degree);
      SpoiltNode(TakeAll(take, s1, degree).value.0, ns, v, count, u, maxDegree);
    }
  }

  lemma SpoiltNode(all: seq<int>, ns: seq<int>, v: int, count: int, u: int, maxDegree: int)
    requires |ns| < |all| && all[..|ns| + 1] == ns + [v] && (v == u || v in ns)
    ensures !GoodNode(all, count, u, maxDegree)
  {
    var i := |ns|;
    assert all[i] == (ns + [v])[i] == v;
    if v in ns {
      var j :| 0 <= j < i && ns[j] == v;
      assert all[j] == all[..i + 1][j] == v;
    }
  }

  /** Neighbours in range, none of them the node itself and none repeated. */
  ghost predicate Clean(ns: seq<int>, count: int, u: int) {
    && (forall k :: 0 <= k < |ns| ==> 0 <= ns[k] < count && ns[k] != u)
    && forall j, k :: 0 <= j < k < |ns| ==> ns[j] != ns[k]
  }

  lemma NoneIsClean(count: int, u: int)
    ensures Clean([], count, u)
  {
  }

  lemma CleanStep(ns: seq<int>, v: int, count: int, u: int)
    requires Clean(ns, count, u) && 0 <= v < count && v != u && v !in ns
    ensures Clean(ns + [v], count, u)
  {
  }

  lemma CleanIsGood(ns: seq<int>, count: int, u: int, maxDegree: int)
    requires Clean(ns, count, u) && |ns| <= maxDegree && |ns| <= MAX_DEGREE
    ensures GoodNode(ns, count, u, maxDegree)
  {
  }

  method ReadNode(r: Reader, ghost o: ByteOrder, count: int, u: int, maxDegree: int) returns (out: Option<seq<int>>)
    requires o == LittleEndian()
    modifies r
    ensures Matches(out, r.rest, TakeNode(o, old(r.rest), count, u, maxDegree))
  {
    hide GoodNode, Clean, TakeAtMost;
    ghost var start := r.rest;
    var degree :- ReadAtMost(r, o, MAX_DEGREE);
    if degree > maxDegree {
      return None;
    }
    ghost var take, words := WordReader(o, count - 1), r.rest;
    var neighbors: seq<int> := [];
    var seen: set<int> := {};
    NoneIsClean(count, u);
    for i := 0 to degree
      invariant TakeAll(take, words, i) == Some((neighbors, r.rest))
      invariant seen == set x | x in neighbors
      invariant Clean(neighbors, count, u)
    {
      var v := ReadAtMost(r, o, count - 1);
      if v.None? {
        AllFails(take, words, i + 1, degree);
        return None;
      }
      if v.value == u || v.value in seen {
        BadPrefix(o, start, count, u, maxDegree, neighbors, v.value);
        return None;
      }
      CleanStep(neighbors, v.value, count, u);
      seen := seen + {v.value};
      neighbors := neighbors + [v.value];
    }
    CleanIsGood(neighbors, count, u, maxDegree);
    return Some(neighbors);
  }

  method ReadLayer(r: Reader, ghost o: ByteOrder, count: nat, layer: nat, m: int) returns (out: Option<seq<seq<int>>>)
    requires o == LittleEndian()
    modifies r
    ensures Matches(out, r.rest, LayerReader(o, count, m)(old(r.rest), layer))
  {
    var maxDegree := LayerMaxDegree(m, layer);
    ghost var take, start := NodeReader(o, count, maxDegree), r.rest;
    var nodes: seq<seq<int>> := [];
    for u := 0 to count
      invariant TakeAll(take, start, u) == Some((nodes, r.rest))
    {
      ghost var here := r.rest;
      var neighbors := ReadNode(r, o, count, u, maxDegree);
      assert take(here, u) == TakeNode(o, here, count, u, maxDegree);
      if neighbors.None? {
        AllFails(take, start, u + 1, count);
        return None;
      }
      nodes := nodes + [neighbors.value];
    }
    return Some(nodes);
  }

  method ReadLayers(r: Reader, ghost o: ByteOrder, n: nat, count: nat, m: int)
    returns (out: Option<seq<seq<seq<int>>>>)
    requires o == LittleEndian()
    modifies r
    ensures Matches(out, r.rest, TakeAll(LayerReader(o, count, m), old(r.rest), n))
  {
    hide LayerReader, NodeReader, TakeNode;
    ghost var take, start := LayerReader(o, count, m), r.rest;
    var layers: seq<seq<seq<int>>> := [];
    for layer := 0 to n
      invariant TakeAll(take, start, layer) == Some((layers, r.rest))
    {
      var nodes := ReadLayer(r, o, count, layer, m);
      if nodes.None? {
        AllFails(take, start, layer + 1, n);
        return None;
      }
      layers := layers + [nodes.value];
    }
    return Some(layers);
  }

  method ReadTop(r: Reader, ghost o: ByteOrder, count: nat, m: int) returns (out: Option<Top>)
    requires o == LittleEndian()
    modifies r
    ensures Matches(out, r.rest, TakeTop(o, old(r.rest), count, m))
  {
    hide TakeAll, LayerReader, ValidLayers;
    var entryBits :- r.ReadUint32(o);
    var layerBits :- r.ReadUint32(o);
    var maxLayer := ToI32(layerBits);
    if maxLayer < 0 {
      return None;
    }
    if maxLayer >= MAX_LAYERS {
      return None;
    }
    var n :- ReadPositive(r, o, MAX_LAYERS);
    if n != maxLayer + 1 {
      return None;
    }
    var layers :- ReadLayers(r, o, n, count, m);
    return Some(Top(ToI32(entryBits), maxLayer, layers));
  }

  // ---------- the index ----------

  method ValidateLoadedIndex(cfg: Config, rows: Rows, top: Top, maxSeen: int) returns (ok: bool)
    requires IsMaxLevel(rows.levels, maxSeen)
    ensures ok <==> Consistent(cfg, rows, top)
  {
    if top.entryPoint < 0 || top.entryPoint >= |rows.levels| {
      return false;
    }
    if rows.levels[top.entryPoint] != top.maxLayer {
      return false;
    }
    if maxSeen != top.maxLayer {
      return false;
    }
    ok := ValidateLayerAdjacency(cfg.m, rows.levels, top.layers, |rows.levels|, top.entryPoint, top.maxLayer);
  }

  method LoadParts(r: Reader, ghost o: ByteOrder, procs: Int) returns (out: Option<Stored>)
    requires o == LittleEndian() && procs > 0
    modifies r
    ensures match Decode(o, old(r.rest))
            case None => out == None
            case Some((x, left)) => out == Some(x) && r.rest == left
  {
    var header :- ReadHeader(r, o);
    var cfg :- ReadConfig(r, o, header.0, header.1, procs);
    var rows, maxSeen := ReadRows(r, o, header.1);
    if rows.None? {
      return None;
    }
    var top :- ReadTop(r, o, |rows.value.levels|, cfg.m);
    var ok := ValidateLoadedIndex(cfg, rows.value, top, maxSeen);
    return if ok then Some(Assemble(cfg, header.1, rows.value, top)) else None;
  }

  /** Assemble the index object. */
  method Restore(x: Stored) returns (idx: Index)
    requires Loadable(x)
    ensures fresh(idx) && idx.Valid() && idx.graphReady && Snapshot(idx) == x
  {
    idx := new Index(x.cfg);
    assert AllWithin(RowsOf(x).vectors, WORD - 1);
    idx.vectors, idx.dim, idx.count := x.vectors, x.dim, x.count;
    idx.layers, idx.levels := x.layers, x.levels;
    idx.entryPoint, idx.maxLayer, idx.graphReady := x.entryPoint, x.maxLayer, true;
  }

  /** Loads exactly what decodes: the fresh index holds it, is valid and ready, and the tail is left unread. */
  method LoadIndex(r: Reader, procs: Int) returns (out: Option<Index>)
    requires procs > 0
    modifies r
    ensures match Decode(LittleEndian(), old(r.rest))
            case None => out == None
            case Some((x, left)) =>
              && out.Some? && fresh(out.value) && out.value.Valid() && out.value.graphReady
              && Snapshot(out.value) == x && r.rest == left
  {
    ghost var o := LittleEndian();
    ghost var s := r.rest;
    var parts := LoadParts(r, o, procs);
    if parts.None? {
      return None;
    }
    LittleEndianIsLawful();
    EncodeDecode(o, s);
    var idx := Restore(parts.value);
    return Some(idx);
  }
}
