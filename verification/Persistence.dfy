/** The binary index format: what is written, what is accepted, and why the two are inverse. */
module Persistence {
  import opened Order
  import opened Outcomes
  import opened Codec
  import opened Config
  import opened Graphs
  import opened Layout

  const MAGIC: seq<byte> := [0x46, 0x48, 0x4E, 0x53, 0x57, 0x49, 0x44, 0x58]
  const VERSION := 1
  const MAX_COUNT := 0x7FFF_FFFF
  const MAX_DIMENSION := 0x10_0000
  const MAX_VALUES := 0x4000_0000
  const MAX_LAYERS := 1024
  const MAX_DEGREE := 0x10_0000

  /** Everything an index file holds. */
  datatype Stored = Stored(
    cfg: Config, dim: int, count: int, vectors: seq<int>, levels: seq<int>,
    entryPoint: int, maxLayer: int, layers: seq<seq<seq<int>>>)

  // ---------- header ----------

  function PutHeader(o: ByteOrder, magic: seq<byte>, metric: int, dim: int): seq<byte> {
    magic + o.put32(VERSION) + o.put32(metric) + o.put32(dim)
  }

  function TakeMagic(s: seq<byte>, magic: seq<byte>): Option<seq<byte>> {
    if magic <= s then Some(s[|magic|..]) else None
  }

  function TakeHeader(o: ByteOrder, s: seq<byte>, magic: seq<byte>): Read<(int, int)> {
    var s0 :- TakeMagic(s, magic);
    var (version, s1) :- o.take32(s0);
    if version != VERSION then None
    else
      var (metric, s2) :- o.take32(s1);
      if !ValidMetric(metric) then None
      else
        var (dim, s3) :- TakePositive(o, s2, MAX_DIMENSION);
        Some(((metric, dim), s3))
  }

  lemma HeaderComplete(o: ByteOrder, magic: seq<byte>, metric: int, dim: int, rest: seq<byte>)
    requires Lawful(o) && ValidMetric(metric) && 0 < dim <= MAX_DIMENSION
    ensures TakeHeader(o, PutHeader(o, magic, metric, dim) + rest, magic) == Some(((metric, dim), rest))
  {
    var s2 := o.put32(dim) + rest;
    var s1 := o.put32(metric) + s2;
    var s0 := o.put32(VERSION) + s1;
    assert PutHeader(o, magic, metric, dim) + rest == magic + s0;
    assert (magic + s0)[|magic|..] == s0;
    Take32Put(o, VERSION, s1);
    Take32Put(o, metric, s2);
    AtMostPut(o, dim, MAX_DIMENSION, rest);
  }

  lemma HeaderSound(o: ByteOrder, s: seq<byte>, magic: seq<byte>)
    requires Lawful(o) && TakeHeader(o, s, magic).Some?
    ensures var ((metric, dim), rest) := TakeHeader(o, s, magic).value;
            && s == PutHeader(o, magic, metric, dim) + rest
            && ValidMetric(metric) && 0 < dim <= MAX_DIMENSION
  {
    var ((metric, dim), rest) := TakeHeader(o, s, magic).value;
    var s0 := TakeMagic(s, magic).value;
    var s1 := o.take32(s0).value.1;
    var s2 := o.take32(s1).value.1;
    Put32Take(o, s0);
    Put32Take(o, s1);
    PutAtMost(o, s2, MAX_DIMENSION);
    assert s == magic + s0;
  }

  // ---------- configuration ----------

  /** The five sizes that open the configuration block. */
  function PutSizes(o: ByteOrder, c: Config): seq<byte> {
    o.put32(c.m) + o.put32(c.efConstruction) + o.put32(c.k0) + o.put32(c.candidateK) + o.put32(c.constructionL)
  }

  /** Angle, refresh rounds and seed. */
  function PutRounds(o: ByteOrder, c: Config): seq<byte> {
    Put64(o, c.alpha) + o.put32(c.iterations) + Put64(o, c.seed)
  }

  /** Workers, recall target and control nodes. */
  function PutQuality(o: ByteOrder, c: Config): seq<byte> {
    o.put32(c.workers) + Put64(o, c.candidateRecall) + o.put32(c.candidateControls)
  }

  datatype Sizes = Sizes(m: int, efConstruction: int, k0: int, candidateK: int, constructionL: int)
  datatype Rounds = Rounds(alpha: int, iterations: int, seed: int)
  datatype Quality = Quality(workers: int, candidateRecall: int, candidateControls: int)

  function TakeSizes(o: ByteOrder, s: seq<byte>): Read<Sizes> {
    var (m, s1) :- TakePositive(o, s, MAX_DEGREE);
    var (efConstruction, s2) :- TakePositive(o, s1, MAX_DEGREE);
    var (k0, s3) :- TakePositive(o, s2, MAX_DEGREE);
    var (candidateK, s4) :- TakePositive(o, s3, MAX_DEGREE);
    var (constructionL, s5) :- TakePositive(o, s4, MAX_DEGREE);
    Some((Sizes(m, efConstruction, k0, candidateK, constructionL), s5))
  }

  /** Bit patterns outside 64 bits are never read; the type makes the test below total. */
  predicate ZeroFloat(bits: int) {
    0 <= bits < LONG && IsZero(bits)
  }

  function TakeRounds(o: ByteOrder, s: seq<byte>): Read<Rounds> {
    var (alpha, s1) :- Take64(o, s);
    if ZeroFloat(alpha) then None
    else
      var (iterations, s2) :- TakePositive(o, s1, MAX_DEGREE);
      var (seedBits, s3) :- Take64(o, s2);
      if Signed64(seedBits) == 0 then None else Some((Rounds(alpha, iterations, Signed64(seedBits)), s3))
  }

  function TakeQuality(o: ByteOrder, s: seq<byte>): Read<Quality> {
    var (workers, s1) :- TakePositive(o, s, MAX_DEGREE);
    var (recall, s2) :- Take64(o, s1);
    if ZeroFloat(recall) then None
    else
      var (controls, s3) :- TakePositive(o, s2, MAX_DEGREE);
      Some((Quality(workers, recall, controls), s3))
  }

  predicate SizesFit(a: Sizes) {
    IsInt64(a.m) && IsInt64(a.efConstruction) && IsInt64(a.k0) && IsInt64(a.candidateK) && IsInt64(a.constructionL)
  }

  predicate RoundsFit(b: Rounds) {
    0 <= b.alpha < LONG && IsInt64(b.iterations) && IsInt64(b.seed)
  }

  predicate QualityFits(c: Quality) {
    IsInt64(c.workers) && 0 <= c.candidateRecall < LONG && IsInt64(c.candidateControls)
  }

  function SizesOf(c: Config): Sizes {
    Sizes(c.m, c.efConstruction, c.k0, c.candidateK, c.constructionL)
  }

  function RoundsOf(c: Config): Rounds {
    Rounds(c.alpha, c.iterations, c.seed)
  }

  function QualityOf(c: Config): Quality {
    Quality(c.workers, c.candidateRecall, c.candidateControls)
  }

  lemma PartsOf(c: Config)
    ensures ToConfig(c.metric, c.dim, SizesOf(c), RoundsOf(c), QualityOf(c)) == Some(c)
  {
  }

  /** Every field read fits its type; the test only makes the function total. */
  function ToConfig(metric: int, dim: int, a: Sizes, b: Rounds, c: Quality): Option<Config> {
    if IsInt64(metric) && SizesFit(a) && RoundsFit(b) && QualityFits(c) then
      Some(Config(metric, dim, a.m, a.efConstruction, a.k0, a.candidateK, a.constructionL, b.alpha, b.iterations,
                  b.seed, c.workers, c.candidateRecall, c.candidateControls))
    else None
  }

  /** No field read is zero, so filling in defaults changes nothing and only the checks remain. */
  function TakeConfig(o: ByteOrder, s: seq<byte>, metric: int, dim: int): Read<Config> {
    var (a, s1) :- TakeSizes(o, s);
    var (b, s2) :- TakeRounds(o, s1);
    var (c, s3) :- TakeQuality(o, s2);
    var cfg :- ToConfig(metric, dim, a, b, c);
    if Usable(cfg) then Some((cfg, s3)) else None
  }

  function PutConfig(o: ByteOrder, c: Config): seq<byte> {
    PutSizes(o, c) + (PutRounds(o, c) + PutQuality(o, c))
  }

  predicate Small(v: int) {
    0 < v <= MAX_DEGREE
  }

  predicate SmallSizes(c: Config) {
    Small(c.m) && Small(c.efConstruction) && Small(c.k0) && Small(c.candidateK) && Small(c.constructionL)
  }

  predicate SmallRounds(c: Config) {
    Small(c.iterations) && IsInt64(c.seed)
  }

  predicate SmallQuality(c: Config) {
    Small(c.workers) && Small(c.candidateControls)
  }

  /** The configurations a file can carry. */
  predicate StorableConfig(c: Config) {
    Usable(c) && SmallSizes(c) && SmallRounds(c) && SmallQuality(c)
  }

  lemma SizesComplete(o: ByteOrder, c: Config, rest: seq<byte>)
    requires Lawful(o) && SmallSizes(c)
    ensures TakeSizes(o, PutSizes(o, c) + rest) == Some((SizesOf(c), rest))
  {
    var s5 := o.put32(c.constructionL) + rest;
    var s4 := o.put32(c.candidateK) + s5;
    var s3 := o.put32(c.k0) + s4;
    var s2 := o.put32(c.efConstruction) + s3;
    assert PutSizes(o, c) + rest == o.put32(c.m) + s2;
    AtMostPut(o, c.m, MAX_DEGREE, s2);
    AtMostPut(o, c.efConstruction, MAX_DEGREE, s3);
    AtMostPut(o, c.k0, MAX_DEGREE, s4);
    AtMostPut(o, c.candidateK, MAX_DEGREE, s5);
    AtMostPut(o, c.constructionL, MAX_DEGREE, rest);
  }

  lemma SizesSound(o: ByteOrder, s: seq<byte>, c: Config)
    requires Lawful(o) && TakeSizes(o, s).Some?
    requires TakeSizes(o, s).value.0 == SizesOf(c)
    ensures s == PutSizes(o, c) + TakeSizes(o, s).value.1 && SmallSizes(c)
  {
    var s1 := TakePositive(o, s, MAX_DEGREE).value.1;
    var s2 := TakePositive(o, s1, MAX_DEGREE).value.1;
    var s3 := TakePositive(o, s2, MAX_DEGREE).value.1;
    var s4 := TakePositive(o, s3, MAX_DEGREE).value.1;
    PutAtMost(o, s, MAX_DEGREE);
    PutAtMost(o, s1, MAX_DEGREE);
    PutAtMost(o, s2, MAX_DEGREE);
    PutAtMost(o, s3, MAX_DEGREE);
    PutAtMost(o, s4, MAX_DEGREE);
  }

  lemma RoundsComplete(o: ByteOrder, c: Config, rest: seq<byte>)
    requires Lawful(o) && SmallRounds(c) && !IsZero(c.alpha) && c.seed != 0
    ensures TakeRounds(o, PutRounds(o, c) + rest) == Some((RoundsOf(c), rest))
  {
    var s3 := Put64(o, c.seed) + rest;
    var s2 := o.put32(c.iterations) + s3;
    assert PutRounds(o, c) + rest == Put64(o, c.alpha) + s2;
    Put64Wraps(o, c.seed);
    SignedSurvives(c.seed);
    Take64Put(o, c.alpha, s2);
    AtMostPut(o, c.iterations, MAX_DEGREE, s3);
    Take64Put(o, ToU64(c.seed), rest);
  }

  lemma RoundsSound(o: ByteOrder, s: seq<byte>, c: Config)
    requires Lawful(o) && TakeRounds(o, s).Some?
    requires TakeRounds(o, s).value.0 == RoundsOf(c)
    ensures s == PutRounds(o, c) + TakeRounds(o, s).value.1 && SmallRounds(c)
  {
    var s1 := Take64(o, s).value.1;
    var s2 := TakePositive(o, s1, MAX_DEGREE).value.1;
    var (bits, s3) := Take64(o, s2).value;
    Put64Take(o, s);
    PutAtMost(o, s1, MAX_DEGREE);
    Put64Take(o, s2);
    assert ToU64(c.seed) == bits;
    Put64Wraps(o, c.seed);
  }

  lemma QualityComplete(o: ByteOrder, c: Config, rest: seq<byte>)
    requires Lawful(o) && SmallQuality(c) && !IsZero(c.candidateRecall)
    ensures TakeQuality(o, PutQuality(o, c) + rest) == Some((QualityOf(c), rest))
  {
    var s2 := o.put32(c.candidateControls) + rest;
    var s1 := Put64(o, c.candidateRecall) + s2;
    assert PutQuality(o, c) + rest == o.put32(c.workers) + s1;
    AtMostPut(o, c.workers, MAX_DEGREE, s1);
    Take64Put(o, c.candidateRecall, s2);
    AtMostPut(o, c.candidateControls, MAX_DEGREE, rest);
  }

  lemma QualitySound(o: ByteOrder, s: seq<byte>, c: Config)
    requires Lawful(o) && TakeQuality(o, s).Some?
    requires TakeQuality(o, s).value.0 == QualityOf(c)
    ensures s == PutQuality(o, c) + TakeQuality(o, s).value.1 && SmallQuality(c)
  {
    var s1 := TakePositive(o, s, MAX_DEGREE).value.1;
    var s2 := Take64(o, s1).value.1;
    PutAtMost(o, s, MAX_DEGREE);
    Put64Take(o, s1);
    PutAtMost(o, s2, MAX_DEGREE);
  }

  /** A storable configuration reads back as itself, and whatever is read was stored exactly so. */
  lemma ConfigComplete(o: ByteOrder, c: Config, rest: seq<byte>)
    requires Lawful(o) && StorableConfig(c)
    ensures TakeConfig(o, PutConfig(o, c) + rest, c.metric, c.dim) == Some((c, rest))
  {
    var s2 := PutQuality(o, c) + rest;
    var s1 := PutRounds(o, c) + s2;
    assert PutConfig(o, c) + rest == PutSizes(o, c) + s1;
    SizesComplete(o, c, s1);
    RoundsComplete(o, c, s2);
    QualityComplete(o, c, rest);
    PartsOf(c);
  }

  lemma ConfigSound(o: ByteOrder, s: seq<byte>, metric: int, dim: int)
    requires Lawful(o) && TakeConfig(o, s, metric, dim).Some?
    ensures var (c, rest) := TakeConfig(o, s, metric, dim).value;
            && s == PutConfig(o, c) + rest && StorableConfig(c) && c.metric == metric && c.dim == dim
  {
    hide Lawful, PutSizes, PutRounds, PutQuality, TakeSizes, TakeRounds, TakeQuality, Usable;
    var (c, rest) := TakeConfig(o, s, metric, dim).value;
    var s1 := TakeSizes(o, s).value.1;
    var s2 := TakeRounds(o, s1).value.1;
    SizesSound(o, s, c);
    RoundsSound(o, s1, c);
    QualitySound(o, s2, c);
    assert PutConfig(o, c) + rest == PutSizes(o, c) + (PutRounds(o, c) + (PutQuality(o, c) + rest));
  }

  // ---------- adjacency ----------

  function NodeWriter(o: ByteOrder): seq<int> -> seq<byte> {
    (ns: seq<int>) => o.put32(|ns|) + PutAll(o.put32, ns)
  }

  function LayerWriter(o: ByteOrder): seq<seq<int>> -> seq<byte> {
    (nodes: seq<seq<int>>) => PutAll(NodeWriter(o), nodes)
  }

  /** Distinct in-range neighbours of u within both degree limits. */
  predicate GoodNode(ns: seq<int>, count: int, u: int, maxDegree: int) {
    && |ns| <= maxDegree && |ns| <= MAX_DEGREE
    && (forall i :: 0 <= i < |ns| ==> 0 <= ns[i] < count && ns[i] != u)
    && (forall i, j :: 0 <= i < j < |ns| ==> ns[i] != ns[j])
  }

  function TakeNode(o: ByteOrder, s: seq<byte>, count: int, u: int, maxDegree: int): Read<seq<int>> {
    var (degree, s1) :- TakeAtMost(o, s, MAX_DEGREE);
    if degree > maxDegree || degree < 0 then None
    else
      var (ns, s2) :- TakeAll(WordReader(o, count - 1), s1, degree);
      if GoodNode(ns, count, u, maxDegree) then Some((ns, s2)) else None
  }

  function NodeReader(o: ByteOrder, count: int, maxDegree: int): (seq<byte>, nat) -> Read<seq<int>> {
    (s: seq<byte>, u: nat) => TakeNode(o, s, count, u, maxDegree)
  }

  function LayerReader(o: ByteOrder, count: nat, m: int): (seq<byte>, nat) -> Read<seq<seq<int>>> {
    (s: seq<byte>, l: nat) => TakeAll(NodeReader(o, count, LayerMaxDegree(m, l)), s, count)
  }

  function NodeTest(count: int, maxDegree: int): (seq<int>, nat) -> bool {
    (ns: seq<int>, u: nat) => GoodNode(ns, count, u, maxDegree)
  }

  predicate GoodNodes(nodes: seq<seq<int>>, count: nat, maxDegree: int) {
    |nodes| == count && forall u :: 0 <= u < count ==> GoodNode(nodes[u], count, u, maxDegree)
  }

  function LayerTest(count: nat, m: int): (seq<seq<int>>, nat) -> bool {
    (nodes: seq<seq<int>>, l: nat) => GoodNodes(nodes, count, LayerMaxDegree(m, l))
  }

  predicate GoodLayers(layers: seq<seq<seq<int>>>, count: nat, m: int) {
    forall l :: 0 <= l < |layers| ==> GoodNodes(layers[l], count, LayerMaxDegree(m, l))
  }

  lemma NodeReadsBack(o: ByteOrder, ns: seq<int>, count: int, u: nat, maxDegree: int)
    requires Lawful(o) && GoodNode(ns, count, u, maxDegree) && count <= MAX_COUNT
    ensures ReadsBack(NodeWriter(o), NodeReader(o, count, maxDegree), ns, u)
  {
    forall rest
      ensures NodeReader(o, count, maxDegree)(NodeWriter(o)(ns) + rest, u) == Some((ns, rest))
    {
      var s1 := PutAll(o.put32, ns) + rest;
      assert NodeWriter(o)(ns) + rest == o.put32(|ns|) + s1;
      AtMostPut(o, |ns|, MAX_DEGREE, s1);
      WordsComplete(o, ns, count - 1, rest);
    }
  }

  lemma NodeReadsOnly(o: ByteOrder, count: int, u: nat, maxDegree: int)
    requires Lawful(o)
    ensures ReadsOnly(NodeWriter(o), NodeReader(o, count, maxDegree), NodeTest(count, maxDegree), u)
  {
    forall s | NodeReader(o, count, maxDegree)(s, u).Some?
      ensures var (ns, rest) := NodeReader(o, count, maxDegree)(s, u).value;
              s == NodeWriter(o)(ns) + rest && NodeTest(count, maxDegree)(ns, u)
    {
      NodeSound(o, s, count, u, maxDegree);
    }
  }

  lemma NodeSound(o: ByteOrder, s: seq<byte>, count: int, u: int, maxDegree: int)
    requires Lawful(o) && TakeNode(o, s, count, u, maxDegree).Some?
    ensures var (ns, rest) := TakeNode(o, s, count, u, maxDegree).value;
            s == NodeWriter(o)(ns) + rest && GoodNode(ns, count, u, maxDegree)
  {
    var (degree, s1) := TakeAtMost(o, s, MAX_DEGREE).value;
    var (ns, rest) := TakeNode(o, s, count, u, maxDegree).value;
    PutAtMost(o, s, MAX_DEGREE);
    WordsSound(o, s1, degree, count - 1);
    assert NodeWriter(o)(ns) + rest == o.put32(|ns|) + (PutAll(o.put32, ns) + rest);
  }

  lemma LayerReadsBack(o: ByteOrder, nodes: seq<seq<int>>, count: nat, l: nat, m: int)
    requires Lawful(o) && GoodNodes(nodes, count, LayerMaxDegree(m, l)) && count <= MAX_COUNT
    ensures ReadsBack(LayerWriter(o), LayerReader(o, count, m), nodes, l)
  {
    var maxDegree := LayerMaxDegree(m, l);
    forall u | 0 <= u < |nodes|
      ensures ReadsBack(NodeWriter(o), NodeReader(o, count, maxDegree), nodes[u], u)
    {
      NodeReadsBack(o, nodes[u], count, u, maxDegree);
    }
    forall rest
      ensures LayerReader(o, count, m)(LayerWriter(o)(nodes) + rest, l) == Some((nodes, rest))
    {
      AllComplete(NodeWriter(o), NodeReader(o, count, maxDegree), nodes, rest);
    }
  }

  lemma LayerReadsOnly(o: ByteOrder, count: nat, l: nat, m: int)
    requires Lawful(o)
    ensures ReadsOnly(LayerWriter(o), LayerReader(o, count, m), LayerTest(count, m), l)
  {
    var maxDegree := LayerMaxDegree(m, l);
    forall u | 0 <= u < count
      ensures ReadsOnly(NodeWriter(o), NodeReader(o, count, maxDegree), NodeTest(count, maxDegree), u)
    {
      NodeReadsOnly(o, count, u, maxDegree);
    }
    forall s | LayerReader(o, count, m)(s, l).Some?
      ensures var (nodes, rest) := LayerReader(o, count, m)(s, l).value;
              s == LayerWriter(o)(nodes) + rest && LayerTest(count, m)(nodes, l)
    {
      AllSound(NodeWriter(o), NodeReader(o, count, maxDegree), NodeTest(count, maxDegree), s, count);
      var nodes := LayerReader(o, count, m)(s, l).value.0;
      forall u | 0 <= u < count
        ensures GoodNode(nodes[u], count, u, maxDegree)
      {
        assert NodeTest(count, maxDegree)(nodes[u], u);
      }
    }
  }

  lemma LayersComplete(o: ByteOrder, layers: seq<seq<seq<int>>>, count: nat, m: int, rest: seq<byte>)
    requires Lawful(o) && GoodLayers(layers, count, m) && count <= MAX_COUNT
    ensures TakeAll(LayerReader(o, count, m), PutAll(LayerWriter(o), layers) + rest, |layers|) == Some((layers, rest))
  {
    forall l | 0 <= l < |layers|
      ensures ReadsBack(LayerWriter(o), LayerReader(o, count, m), layers[l], l)
    {
      LayerReadsBack(o, layers[l], count, l, m);
    }
    AllComplete(LayerWriter(o), LayerReader(o, count, m), layers, rest);
  }

  lemma LayersSound(o: ByteOrder, s: seq<byte>, n: nat, count: nat, m: int)
    requires Lawful(o) && TakeAll(LayerReader(o, count, m), s, n).Some?
    ensures var (layers, rest) := TakeAll(LayerReader(o, count, m), s, n).value;
            s == PutAll(LayerWriter(o), layers) + rest && GoodLayers(layers, count, m)
  {
    forall l | 0 <= l < n
      ensures ReadsOnly(LayerWriter(o), LayerReader(o, count, m), LayerTest(count, m), l)
    {
      LayerReadsOnly(o, count, l, m);
    }
    AllSound(LayerWriter(o), LayerReader(o, count, m), LayerTest(count, m), s, n);
    var layers := TakeAll(LayerReader(o, count, m), s, n).value.0;
    forall l | 0 <= l < |layers|
      ensures GoodNodes(layers[l], count, LayerMaxDegree(m, l))
    {
      assert LayerTest(count, m)(layers[l], l);
    }
  }

  // ---------- vectors and levels ----------

  /** How many coordinates a file of this shape holds, unless the storage limit forbids it. */
  function VectorValues(count: int, dim: int): (values: Option<nat>)
    ensures values.Some? ==> count > 0 && dim > 0 && values.value == count * dim
  {
    if count <= 0 || dim <= 0 then None
    else if count > MAX_VALUES / dim then None
    else
      ProductIsNat(count, dim);
      Some(count * dim)
  }

  lemma ProductIsNat(count: int, dim: int)
    requires count > 0 && dim > 0
    ensures count * dim >= 0
  {
  }

  datatype Rows = Rows(count: int, vectors: seq<int>, levels: seq<int>)

  function PutRows(o: ByteOrder, r: Rows): seq<byte> {
    o.put32(r.count) + PutAll(o.put32, r.vectors) + PutAll(o.put32, r.levels)
  }

  function TakeRows(o: ByteOrder, s: seq<byte>, dim: int): Read<Rows> {
    var (count, s1) :- TakePositive(o, s, MAX_COUNT);
    var values :- VectorValues(count, dim);
    var (vectors, s2) :- TakeAll(WordReader(o, WORD - 1), s1, values);
    var (levels, s3) :- TakeAll(WordReader(o, MAX_LAYERS - 1), s2, count);
    Some((Rows(count, vectors, levels), s3))
  }

  predicate AllWithin(vs: seq<int>, max: int) {
    forall i :: 0 <= i < |vs| ==> 0 <= vs[i] <= max
  }

  predicate StorableRows(r: Rows, dim: int) {
    && 0 < r.count <= MAX_COUNT && VectorValues(r.count, dim) == Some(|r.vectors|) && |r.levels| == r.count
    && AllWithin(r.vectors, WORD - 1) && AllWithin(r.levels, MAX_LAYERS - 1)
  }

  lemma RowsComplete(o: ByteOrder, r: Rows, dim: int, rest: seq<byte>)
    requires Lawful(o) && StorableRows(r, dim)
    ensures TakeRows(o, PutRows(o, r) + rest, dim) == Some((r, rest))
  {
    var s2 := PutAll(o.put32, r.levels) + rest;
    var s1 := PutAll(o.put32, r.vectors) + s2;
    assert PutRows(o, r) + rest == o.put32(r.count) + s1;
    AtMostPut(o, r.count, MAX_COUNT, s1);
    WordsComplete(o, r.vectors, WORD - 1, s2);
    WordsComplete(o, r.levels, MAX_LAYERS - 1, rest);
  }

  lemma RowsSound(o: ByteOrder, s: seq<byte>, dim: int)
    requires Lawful(o) && TakeRows(o, s, dim).Some?
    ensures var (r, rest) := TakeRows(o, s, dim).value; s == PutRows(o, r) + rest && StorableRows(r, dim)
  {
    hide TakeAll, PutAll, Lawful, WordReader;
    var (count, s1) := TakePositive(o, s, MAX_COUNT).value;
    var values := VectorValues(count, dim).value;
    var (vectors, s2) := TakeAll(WordReader(o, WORD - 1), s1, values).value;
    PutAtMost(o, s, MAX_COUNT);
    WordsSound(o, s1, values, WORD - 1);
    WordsSound(o, s2, count, MAX_LAYERS - 1);
  }

  // ---------- entry point and layers ----------

  datatype Top = Top(entryPoint: int, maxLayer: int, layers: seq<seq<seq<int>>>)

  function PutTop(o: ByteOrder, t: Top): seq<byte> {
    o.put32(t.entryPoint) + o.put32(t.maxLayer) + o.put32(|t.layers|) + PutAll(LayerWriter(o), t.layers)
  }

  function Signed32(bits: int): int {
    if 0 <= bits < WORD then ToI32(bits) else 0
  }

  /** The top layer, read as a signed word and bounded. */
  function TakeMaxLayer(o: ByteOrder, s: seq<byte>): Read<int> {
    var (bits, rest) :- o.take32(s);
    if 0 <= Signed32(bits) < MAX_LAYERS then Some((Signed32(bits), rest)) else None
  }

  /** The top layer followed by the layer count, which must be one more. */
  function TakeShape(o: ByteOrder, s: seq<byte>): (r: Read<int>)
    ensures r.Some? ==> 0 <= r.value.0 < MAX_LAYERS
  {
    var (maxLayer, s1) :- TakeMaxLayer(o, s);
    var (n, s2) :- TakePositive(o, s1, MAX_LAYERS);
    if n != maxLayer + 1 then None else Some((maxLayer, s2))
  }

  function TakeEntry(o: ByteOrder, s: seq<byte>): Read<int> {
    var (bits, rest) :- o.take32(s);
    Some((Signed32(bits), rest))
  }

  function TakeTop(o: ByteOrder, s: seq<byte>, count: nat, m: int): Read<Top> {
    var (entryPoint, s1) :- TakeEntry(o, s);
    var (maxLayer, s2) :- TakeShape(o, s1);
    var (layers, s3) :- TakeAll(LayerReader(o, count, m), s2, maxLayer + 1);
    Some((Top(entryPoint, maxLayer, layers), s3))
  }

  predicate StorableTop(t: Top, count: nat, m: int) {
    && 0 <= t.maxLayer < MAX_LAYERS && |t.layers| == t.maxLayer + 1 && GoodLayers(t.layers, count, m)
  }

  lemma ShapeComplete(o: ByteOrder, maxLayer: int, rest: seq<byte>)
    requires Lawful(o) && 0 <= maxLayer < MAX_LAYERS
    ensures TakeShape(o, o.put32(maxLayer) + (o.put32(maxLayer + 1) + rest)) == Some((maxLayer, rest))
  {
    Take32Put(o, maxLayer, o.put32(maxLayer + 1) + rest);
    AtMostPut(o, maxLayer + 1, MAX_LAYERS, rest);
  }

  lemma ShapeSound(o: ByteOrder, s: seq<byte>)
    requires Lawful(o) && TakeShape(o, s).Some?
    ensures var (t, rest) := TakeShape(o, s).value; s == o.put32(t) + (o.put32(t + 1) + rest)
  {
    Put32Take(o, s);
    PutAtMost(o, TakeMaxLayer(o, s).value.1, MAX_LAYERS);
  }

  /** An entry point that is a node was written as that very word. */
  lemma EntrySound(o: ByteOrder, s: seq<byte>)
    requires Lawful(o) && TakeEntry(o, s).Some? && TakeEntry(o, s).value.0 >= 0
    ensures var (e, rest) := TakeEntry(o, s).value; s == o.put32(e) + rest
  {
    Put32Take(o, s);
  }

  lemma JoinTop(entry: seq<byte>, top: seq<byte>, size: seq<byte>, layers: seq<byte>, rest: seq<byte>)
    ensures entry + (top + (size + (layers + rest))) == entry + top + size + layers + rest
  {
  }

  lemma TopComplete(o: ByteOrder, t: Top, count: nat, m: int, rest: seq<byte>)
    requires Lawful(o) && StorableTop(t, count, m) && 0 <= t.entryPoint < count <= MAX_COUNT
    ensures TakeTop(o, PutTop(o, t) + rest, count, m) == Some((t, rest))
  {
    hide TakeAll, PutAll, Lawful, GoodLayers, LayerWriter, LayerReader;
    var s2 := PutAll(LayerWriter(o), t.layers) + rest;
    var s1 := o.put32(t.maxLayer) + (o.put32(t.maxLayer + 1) + s2);
    JoinTop(
      o.put32(t.entryPoint), o.put32(t.maxLayer), o.put32(t.maxLayer + 1), PutAll(LayerWriter(o), t.layers), rest);
    assert PutTop(o, t) + rest == o.put32(t.entryPoint) + s1;
    Take32Put(o, t.entryPoint, s1);
    ShapeComplete(o, t.maxLayer, s2);
    LayersComplete(o, t.layers, count, m, rest);
  }

  lemma LayersOfTop(o: ByteOrder, s: seq<byte>, maxLayer: int, count: nat, m: int)
    requires Lawful(o) && 0 <= maxLayer < MAX_LAYERS && TakeAll(LayerReader(o, count, m), s, maxLayer + 1).Some?
    ensures var (layers, rest) := TakeAll(LayerReader(o, count, m), s, maxLayer + 1).value;
            && s == PutAll(LayerWriter(o), layers) + rest
            && forall entry: int :: StorableTop(Top(entry, maxLayer, layers), count, m)
  {
    LayersSound(o, s, maxLayer + 1, count, m);
  }

  lemma TopSound(o: ByteOrder, s: seq<byte>, count: nat, m: int)
    requires Lawful(o) && TakeTop(o, s, count, m).Some? && TakeTop(o, s, count, m).value.0.entryPoint >= 0
    ensures var (t, rest) := TakeTop(o, s, count, m).value; s == PutTop(o, t) + rest && StorableTop(t, count, m)
  {
    hide Lawful, TakeAll, PutAll, LayerReader, LayerWriter, TakeEntry, TakeShape, GoodLayers;
    var (entry, s1) := TakeEntry(o, s).value;
    var (maxLayer, s2) := TakeShape(o, s1).value;
    EntrySound(o, s);
    ShapeSound(o, s1);
    LayersOfTop(o, s2, maxLayer, count, m);
    var (layers, rest) := TakeAll(LayerReader(o, count, m), s2, maxLayer + 1).value;
    var t := Top(entry, maxLayer, layers);
    assert TakeTop(o, s, count, m) == Some((t, rest));
    assert StorableTop(t, count, m);
    var body := PutAll(LayerWriter(o), layers);
    assert s == o.put32(entry) + (o.put32(maxLayer) + (o.put32(maxLayer + 1) + (body + rest)));
    JoinTop(o.put32(entry), o.put32(maxLayer), o.put32(maxLayer + 1), body, rest);
    assert PutTop(o, t) == o.put32(entry) + o.put32(maxLayer) + o.put32(maxLayer + 1) + body;
  }

  // ---------- the whole file ----------

  function RowsOf(x: Stored): Rows {
    Rows(x.count, x.vectors, x.levels)
  }

  function TopOf(x: Stored): Top {
    Top(x.entryPoint, x.maxLayer, x.layers)
  }

  function Encode(o: ByteOrder, x: Stored): seq<byte> {
    PutHeader(o, MAGIC, x.cfg.metric, x.dim) + PutConfig(o, x.cfg) + PutRows(o, RowsOf(x)) + PutTop(o, TopOf(x))
  }

  /** The checks on the assembled index, after everything has been read. */
  ghost predicate Consistent(cfg: Config, r: Rows, t: Top) {
    && 0 <= t.entryPoint < |r.levels|
    && r.levels[t.entryPoint] == t.maxLayer
    && IsMaxLevel(r.levels, t.maxLayer)
    && ValidGraph(cfg.m, r.levels, t.layers, t.entryPoint, t.maxLayer)
  }

  function Assemble(cfg: Config, dim: int, r: Rows, t: Top): Stored {
    Stored(cfg, dim, r.count, r.vectors, r.levels, t.entryPoint, t.maxLayer, t.layers)
  }

  ghost function Decode(o: ByteOrder, s: seq<byte>): Read<Stored> {
    var ((metric, dim), s1) :- TakeHeader(o, s, MAGIC);
    var (cfg, s2) :- TakeConfig(o, s1, metric, dim);
    var (rows, s3) :- TakeRows(o, s2, dim);
    DecodeGraph(o, s3, cfg, dim, rows)
  }

  /** The rest of the file, once the configuration and the rows are known. */
  ghost function DecodeGraph(o: ByteOrder, s: seq<byte>, cfg: Config, dim: int, rows: Rows): Read<Stored> {
    var (top, rest) :- TakeTop(o, s, |rows.levels|, cfg.m);
    if Consistent(cfg, rows, top) then Some((Assemble(cfg, dim, rows, top), rest)) else None
  }

  /** No node has more neighbours than a file may record. */
  predicate SmallDegrees(layers: seq<seq<seq<int>>>) {
    forall l, u :: 0 <= l < |layers| && 0 <= u < |layers[l]| ==> |layers[l][u]| <= MAX_DEGREE
  }

  /** What an index must satisfy to survive a trip through a file. */
  ghost predicate Loadable(x: Stored) {
    && StorableConfig(x.cfg) && x.cfg.dim == x.dim && 0 < x.dim <= MAX_DIMENSION
    && StorableRows(RowsOf(x), x.dim)
    && 0 <= x.maxLayer < MAX_LAYERS && SmallDegrees(x.layers)
    && Consistent(x.cfg, RowsOf(x), TopOf(x))
  }

  lemma ValidNodeIsGood(levels: seq<int>, layer: int, maxDegree: int, u: int, ns: seq<int>)
    requires 0 <= u < |levels| && ValidNode(levels, layer, maxDegree, u, ns) && |ns| <= MAX_DEGREE && maxDegree >= 0
    ensures GoodNode(ns, |levels|, u, maxDegree)
  {
    assert forall i :: 0 <= i < |ns| ==> ns[i] in ns;
  }

  lemma ValidIsGood(m: int, levels: seq<int>, layers: seq<seq<seq<int>>>)
    requires ValidLayers(m, levels, layers) && SmallDegrees(layers) && 0 < m < HALF
    ensures GoodLayers(layers, |levels|, m)
  {
    forall l | 0 <= l < |layers|
      ensures GoodNodes(layers[l], |levels|, LayerMaxDegree(m, l))
    {
      assert ValidAdjacency(levels, l, LayerMaxDegree(m, l), layers[l]);
      forall u | 0 <= u < |levels|
        ensures GoodNode(layers[l][u], |levels|, u, LayerMaxDegree(m, l))
      {
        assert ValidNode(levels, l, LayerMaxDegree(m, l), u, layers[l][u]);
        ValidNodeIsGood(levels, l, LayerMaxDegree(m, l), u, layers[l][u]);
      }
    }
  }

  lemma GoodIsSmall(layers: seq<seq<seq<int>>>, count: nat, m: int)
    requires GoodLayers(layers, count, m)
    ensures SmallDegrees(layers)
  {
    forall l, u | 0 <= l < |layers| && 0 <= u < |layers[l]|
      ensures |layers[l][u]| <= MAX_DEGREE
    {
      assert GoodNodes(layers[l], count, LayerMaxDegree(m, l));
    }
  }

  lemma Nested(a: seq<byte>, b: seq<byte>, c: seq<byte>, d: seq<byte>, rest: seq<byte>)
    ensures a + (b + (c + (d + rest))) == a + b + c + d + rest
  {
  }

  /** Everything before the graph reads back. */
  lemma DecodeReachesGraph(o: ByteOrder, x: Stored, rest: seq<byte>)
    requires Lawful(o) && StorableConfig(x.cfg) && x.cfg.dim == x.dim && 0 < x.dim <= MAX_DIMENSION
    requires StorableRows(RowsOf(x), x.dim)
    ensures Decode(o, Encode(o, x) + rest) == DecodeGraph(o, PutTop(o, TopOf(x)) + rest, x.cfg, x.dim, RowsOf(x))
  {
    var s3 := PutTop(o, TopOf(x)) + rest;
    var s2 := PutRows(o, RowsOf(x)) + s3;
    var s1 := PutConfig(o, x.cfg) + s2;
    var header := PutHeader(o, MAGIC, x.cfg.metric, x.dim);
    Nested(header, PutConfig(o, x.cfg), PutRows(o, RowsOf(x)), PutTop(o, TopOf(x)), rest);
    assert Encode(o, x) + rest == header + s1;
    HeaderComplete(o, MAGIC, x.cfg.metric, x.dim, s1);
    ConfigComplete(o, x.cfg, s2);
    RowsComplete(o, RowsOf(x), x.dim, s3);
  }

  /** Every loadable index reads back as itself, and the reader stops exactly at its end. */
  lemma DecodeEncode(o: ByteOrder, x: Stored, rest: seq<byte>)
    requires Lawful(o) && Loadable(x)
    ensures Decode(o, Encode(o, x) + rest) == Some((x, rest))
  {
    DecodeReachesGraph(o, x, rest);
    ValidIsGood(x.cfg.m, x.levels, x.layers);
    TopComplete(o, TopOf(x), x.count, x.cfg.m, rest);
  }

  /** The rows and the layers after the configuration. */
  lemma BodySound(o: ByteOrder, s: seq<byte>, cfg: Config, dim: int)
    requires Lawful(o) && TakeRows(o, s, dim).Some?
    requires var (rows, s1) := TakeRows(o, s, dim).value;
             TakeTop(o, s1, |rows.levels|, cfg.m).Some? &&
             Consistent(cfg, rows, TakeTop(o, s1, |rows.levels|, cfg.m).value.0)
    ensures var (rows, s1) := TakeRows(o, s, dim).value;
            var (top, rest) := TakeTop(o, s1, |rows.levels|, cfg.m).value;
            && s == PutRows(o, rows) + (PutTop(o, top) + rest)
            && StorableRows(rows, dim) && 0 <= top.maxLayer < MAX_LAYERS && SmallDegrees(top.layers)
  {
    var (rows, s1) := TakeRows(o, s, dim).value;
    RowsSound(o, s, dim);
    TopSound(o, s1, |rows.levels|, cfg.m);
    GoodIsSmall(TakeTop(o, s1, |rows.levels|, cfg.m).value.0.layers, |rows.levels|, cfg.m);
  }

  /** Whatever is accepted is a loadable index, and saving it again gives the very bytes consumed. */
  lemma EncodeDecode(o: ByteOrder, s: seq<byte>)
    requires Lawful(o) && Decode(o, s).Some?
    ensures var (x, rest) := Decode(o, s).value; s == Encode(o, x) + rest && Loadable(x)
  {
    var ((metric, dim), s1) := TakeHeader(o, s, MAGIC).value;
    var (cfg, s2) := TakeConfig(o, s1, metric, dim).value;
    var (rows, s3) := TakeRows(o, s2, dim).value;
    var (top, rest) := TakeTop(o, s3, |rows.levels|, cfg.m).value;
    HeaderSound(o, s, MAGIC);
    ConfigSound(o, s1, metric, dim);
    BodySound(o, s2, cfg, dim);
    var x := Assemble(cfg, dim, rows, top);
    assert Decode(o, s) == Some((x, rest));
    assert RowsOf(x) == rows && TopOf(x) == top;
    Nested(PutHeader(o, MAGIC, metric, dim), PutConfig(o, cfg), PutRows(o, rows), PutTop(o, top), rest);
  }

  /** Exactly the loadable indexes survive saving and loading. */
  lemma RoundTripExactly(x: Stored, rest: seq<byte>)
    ensures var o := LittleEndian(); Decode(o, Encode(o, x) + rest) == Some((x, rest)) <==> Loadable(x)
  {
    var o := LittleEndian();
    LittleEndianIsLawful();
    if Loadable(x) {
      DecodeEncode(o, x, rest);
    }
    if Decode(o, Encode(o, x) + rest) == Some((x, rest)) {
      EncodeDecode(o, Encode(o, x) + rest);
    }
  }

  /** A file determines its index and its length: no encoding is a proper prefix of another. */
  lemma PrefixFree(x: Stored, y: Stored, tail: seq<byte>, rest: seq<byte>)
    requires Loadable(x) && Loadable(y)
    requires Encode(LittleEndian(), x) + tail == Encode(LittleEndian(), y) + rest
    ensures x == y && tail == rest
  {
    LittleEndianIsLawful();
    DecodeEncode(LittleEndian(), x, tail);
    DecodeEncode(LittleEndian(), y, rest);
  }

  // ---------- what may be saved ----------

  /** Saving tests the defaults-filled configuration but requires the counts themselves to be set. */
  predicate SavableConfig(c: Config) {
    && Usable(Resolve(c, 1)) && SmallSizes(c)
    && Small(c.iterations) && Small(c.workers) && Small(c.candidateControls)
  }

  /** The three fields saving lets pass as zero. */
  predicate Settled(c: Config) {
    !IsZero(c.alpha) && c.seed != 0 && !IsZero(c.candidateRecall)
  }

  /** What saving checks before it writes. */
  ghost predicate Persistable(x: Stored) {
    && 0 < x.count <= MAX_COUNT && 0 < x.dim <= MAX_DIMENSION
    && VectorValues(x.count, x.dim) == Some(|x.vectors|) && |x.levels| == x.count
    && 0 <= x.entryPoint < x.count
    && 0 <= x.maxLayer < MAX_LAYERS && |x.layers| == x.maxLayer + 1
    && SavableConfig(x.cfg)
    && ValidGraph(x.cfg.m, x.levels, x.layers, x.entryPoint, x.maxLayer)
  }

  /** What the fields of a running index satisfy by their Go types alone. */
  predicate FitsItsTypes(x: Stored) {
    IsInt64(x.cfg.seed) && AllWithin(x.vectors, WORD - 1)
  }

  /** Saving accepts every loadable index. */
  lemma LoadableIsPersistable(x: Stored)
    requires Loadable(x)
    ensures Persistable(x) && FitsItsTypes(x)
  {
  }

  /**
   * What saving does not check although loading insists on it: a configuration without zero fields, the
   * configured dimension, levels in range with the top layer as their maximum, and the degree limit.
   */
  ghost predicate Unchecked(x: Stored) {
    && Settled(x.cfg) && x.cfg.dim == x.dim
    && AllWithin(x.levels, MAX_LAYERS - 1) && IsMaxLevel(x.levels, x.maxLayer)
    && SmallDegrees(x.layers)
  }

  /** A saved index loads back exactly when the unchecked conditions hold. */
  lemma SavedLoadsExactly(x: Stored, rest: seq<byte>)
    requires Persistable(x) && FitsItsTypes(x)
    ensures var o := LittleEndian(); Decode(o, Encode(o, x) + rest) == Some((x, rest)) <==> Unchecked(x)
  {
    hide Decode, Encode;
    RoundTripExactly(x, rest);
  }

  /** Degrees stay in range whenever M does not exceed half the degree limit. */
  lemma ModestDegrees(m: int, levels: seq<int>, layers: seq<seq<seq<int>>>)
    requires ValidLayers(m, levels, layers) && 0 < m && 2 * m <= MAX_DEGREE
    ensures SmallDegrees(layers)
  {
    forall l, u | 0 <= l < |layers| && 0 <= u < |layers[l]|
      ensures |layers[l][u]| <= MAX_DEGREE
    {
      assert ValidAdjacency(levels, l, LayerMaxDegree(m, l), layers[l]);
      assert ValidNode(levels, l, LayerMaxDegree(m, l), u, layers[l][u]);
    }
  }

  // ---------- nodes with too many neighbours ----------

  lemma NodeRefuses(o: ByteOrder, ns: seq<int>, count: int, u: nat, maxDegree: int)
    requires Lawful(o) && MAX_DEGREE < |ns| < WORD
    ensures Refuses(NodeWriter(o), NodeReader(o, count, maxDegree), ns, u)
  {
    forall rest
      ensures NodeReader(o, count, maxDegree)(NodeWriter(o)(ns) + rest, u) == None
    {
      var s1 := PutAll(o.put32, ns) + rest;
      assert NodeWriter(o)(ns) + rest == o.put32(|ns|) + s1;
      Take32Put(o, |ns|, s1);
    }
  }

  /** Fits a node list up to the degree limit of the format. */
  predicate GoodOrWide(ns: seq<int>, count: int, u: int, maxDegree: int) {
    GoodNode(ns, count, u, maxDegree) || MAX_DEGREE < |ns| < WORD
  }

  predicate GoodOrWideNodes(nodes: seq<seq<int>>, count: nat, maxDegree: int) {
    |nodes| == count && forall u :: 0 <= u < count ==> GoodOrWide(nodes[u], count, u, maxDegree)
  }

  lemma NodeDecides(o: ByteOrder, ns: seq<int>, count: int, u: nat, maxDegree: int)
    requires Lawful(o) && GoodOrWide(ns, count, u, maxDegree) && count <= MAX_COUNT
    ensures ReadsBack(NodeWriter(o), NodeReader(o, count, maxDegree), ns, u) ||
            Refuses(NodeWriter(o), NodeReader(o, count, maxDegree), ns, u)
  {
    if GoodNode(ns, count, u, maxDegree) {
      NodeReadsBack(o, ns, count, u, maxDegree);
    } else {
      NodeRefuses(o, ns, count, u, maxDegree);
    }
  }

  lemma LayerRefuses(o: ByteOrder, nodes: seq<seq<int>>, count: nat, l: nat, m: int, wide: nat)
    requires Lawful(o) && GoodOrWideNodes(nodes, count, LayerMaxDegree(m, l)) && count <= MAX_COUNT
    requires wide < count && |nodes[wide]| > MAX_DEGREE
    ensures Refuses(LayerWriter(o), LayerReader(o, count, m), nodes, l)
  {
    var maxDegree := LayerMaxDegree(m, l);
    var put, take := NodeWriter(o), NodeReader(o, count, maxDegree);
    forall u | 0 <= u < |nodes|
      ensures ReadsBack(put, take, nodes[u], u) || Refuses(put, take, nodes[u], u)
    {
      NodeDecides(o, nodes[u], count, u, maxDegree);
    }
    NodeRefuses(o, nodes[wide], count, wide, maxDegree);
    forall rest
      ensures LayerReader(o, count, m)(LayerWriter(o)(nodes) + rest, l) == None
    {
      OneRefused(put, take, nodes, wide, rest);
    }
  }

  lemma LayerDecides(o: ByteOrder, nodes: seq<seq<int>>, count: nat, l: nat, m: int)
    requires Lawful(o) && GoodOrWideNodes(nodes, count, LayerMaxDegree(m, l)) && count <= MAX_COUNT
    ensures ReadsBack(LayerWriter(o), LayerReader(o, count, m), nodes, l) ||
            Refuses(LayerWriter(o), LayerReader(o, count, m), nodes, l)
  {
    if u :| 0 <= u < count && |nodes[u]| > MAX_DEGREE {
      LayerRefuses(o, nodes, count, l, m, u);
    } else {
      LayerReadsBack(o, nodes, count, l, m);
    }
  }

  lemma LayersRefused(o: ByteOrder, layers: seq<seq<seq<int>>>, count: nat, m: int, rest: seq<byte>)
    requires Lawful(o) && count <= MAX_COUNT && !SmallDegrees(layers)
    requires forall l :: 0 <= l < |layers| ==> GoodOrWideNodes(layers[l], count, LayerMaxDegree(m, l))
    ensures TakeAll(LayerReader(o, count, m), PutAll(LayerWriter(o), layers) + rest, |layers|) == None
  {
    var put, take := LayerWriter(o), LayerReader(o, count, m);
    forall l | 0 <= l < |layers|
      ensures ReadsBack(put, take, layers[l], l) || Refuses(put, take, layers[l], l)
    {
      LayerDecides(o, layers[l], count, l, m);
    }
    var bad, wide :| 0 <= bad < |layers| && 0 <= wide < |layers[bad]| && |layers[bad][wide]| > MAX_DEGREE;
    LayerRefuses(o, layers[bad], count, bad, m, wide);
    OneRefused(put, take, layers, bad, rest);
  }

  lemma ValidIsGoodOrWide(m: int, levels: seq<int>, layers: seq<seq<seq<int>>>, l: nat)
    requires ValidLayers(m, levels, layers) && 0 < m < HALF && l < |layers| && |levels| <= MAX_COUNT
    ensures GoodOrWideNodes(layers[l], |levels|, LayerMaxDegree(m, l))
  {
    assert ValidAdjacency(levels, l, LayerMaxDegree(m, l), layers[l]);
    forall u | 0 <= u < |levels|
      ensures GoodOrWide(layers[l][u], |levels|, u, LayerMaxDegree(m, l))
    {
      var ns := layers[l][u];
      assert ValidNode(levels, l, LayerMaxDegree(m, l), u, ns);
      if |ns| <= MAX_DEGREE {
        ValidNodeIsGood(levels, l, LayerMaxDegree(m, l), u, ns);
      } else {
        assert forall i :: 0 <= i < |ns| ==> ns[i] in ns;
        DistinctInRange(|levels|, ns);
      }
    }
  }

  lemma TopRefused(o: ByteOrder, x: Stored, rest: seq<byte>)
    requires Lawful(o) && Persistable(x) && !SmallDegrees(x.layers)
    ensures TakeTop(o, PutTop(o, TopOf(x)) + rest, x.count, x.cfg.m) == None
  {
    var t := TopOf(x);
    var s2 := PutAll(LayerWriter(o), t.layers) + rest;
    var s1 := o.put32(t.maxLayer) + (o.put32(t.maxLayer + 1) + s2);
    JoinTop(
      o.put32(t.entryPoint), o.put32(t.maxLayer), o.put32(t.maxLayer + 1), PutAll(LayerWriter(o), t.layers), rest);
    assert PutTop(o, t) + rest == o.put32(t.entryPoint) + s1;
    Take32Put(o, t.entryPoint, s1);
    ShapeComplete(o, t.maxLayer, s2);
    forall l | 0 <= l < |x.layers|
      ensures GoodOrWideNodes(x.layers[l], x.count, LayerMaxDegree(x.cfg.m, l))
    {
      ValidIsGoodOrWide(x.cfg.m, x.levels, x.layers, l);
    }
    LayersRefused(o, t.layers, x.count, x.cfg.m, rest);
  }

  /**
   * An index with its configuration and levels in order loads back after saving when every node
   * is within the degree limit of the format, and otherwise cannot be loaded at all.
   */
  lemma SavedLoadsOrFails(o: ByteOrder, x: Stored, rest: seq<byte>)
    requires Lawful(o) && Persistable(x) && FitsItsTypes(x)
    requires Settled(x.cfg) && x.cfg.dim == x.dim
    requires AllWithin(x.levels, MAX_LAYERS - 1) && IsMaxLevel(x.levels, x.maxLayer)
    ensures Decode(o, Encode(o, x) + rest) == if SmallDegrees(x.layers) then Some((x, rest)) else None
  {
    if SmallDegrees(x.layers) {
      DecodeEncode(o, x, rest);
    } else {
      DecodeReachesGraph(o, x, rest);
      TopRefused(o, x, rest);
    }
  }
}
