/** Where everything lies in an index file and in a packed SimpleFlat index, byte by byte. */
module FileLayout {
  import opened Outcomes
  import opened Codec
  import opened Config
  import opened Vectors
  import opened Persistence
  import opened FlatBinary

  // ---------- reading words by position ----------

  /** The little-endian word at a position. */
  function WordAt(s: seq<byte>, at: nat): int
    requires at + 4 <= |s|
  {
    var a: int, b: int, c: int, d: int := s[at], s[at + 1], s[at + 2], s[at + 3];
    a + 256 * b + 65536 * c + 16777216 * d
  }

  function LongAt(s: seq<byte>, at: nat): int
    requires at + 8 <= |s|
  {
    WordAt(s, at) + 4294967296 * WordAt(s, at + 4)
  }

  /** The words from a position on are the given numbers, each reduced to 32 bits. */
  ghost predicate WordsFrom(s: seq<byte>, at: nat, ws: seq<int>) {
    && at + 4 * |ws| <= |s|
    && forall i :: 0 <= i < |ws| ==> WordAt(s, at + 4 * i) == ws[i] % 4294967296
  }

  lemma WordOfPut(v: int)
    ensures |Put32(v)| == 4 && WordAt(Put32(v), 0) == v % 4294967296
  {
    WordOfBytes(ToU32(v));
  }

  lemma {:induction false} WordsOfAll(ws: seq<int>)
    ensures |PutAll(Put32, ws)| == 4 * |ws| && WordsFrom(PutAll(Put32, ws), 0, ws)
  {
    if ws != [] {
      var front, last := ws[..|ws| - 1], ws[|ws| - 1];
      var a, b := PutAll(Put32, front), Put32(last);
      WordsOfAll(front);
      WordOfPut(last);
      forall i | 0 <= i < |ws|
        ensures WordAt(a + b, 4 * i) == ws[i] % 4294967296
      {
        if i < |front| {
          WordInFront(a, b, 4 * i);
          assert WordAt(a, 0 + 4 * i) == front[i] % 4294967296;
        } else {
          WordBehind(a, b, 0);
        }
      }
    }
  }

  lemma WordInFront(a: seq<byte>, b: seq<byte>, at: nat)
    requires at + 4 <= |a|
    ensures WordAt(a + b, at) == WordAt(a, at)
  {
  }

  lemma WordBehind(a: seq<byte>, b: seq<byte>, at: nat)
    requires at + 4 <= |b|
    ensures WordAt(a + b, |a| + at) == WordAt(b, at)
  {
  }

  lemma WordsBehind(a: seq<byte>, b: seq<byte>, ws: seq<int>)
    requires WordsFrom(b, 0, ws)
    ensures WordsFrom(a + b, |a|, ws)
  {
    forall i | 0 <= i < |ws|
      ensures WordAt(a + b, |a| + 4 * i) == ws[i] % 4294967296
    {
      WordBehind(a, b, 4 * i);
      assert WordAt(b, 0 + 4 * i) == ws[i] % 4294967296;
    }
  }

  /** The words of a part of a list follow the words before it. */
  lemma WordsOfPart(s: seq<byte>, at: nat, a: seq<int>, b: seq<int>)
    requires WordsFrom(s, at, a + b)
    ensures WordsFrom(s, at, a) && WordsFrom(s, at + 4 * |a|, b)
  {
    forall i | 0 <= i < |a|
      ensures WordAt(s, at + 4 * i) == a[i] % 4294967296
    {
      assert (a + b)[i] == a[i];
    }
    forall i | 0 <= i < |b|
      ensures WordAt(s, at + 4 * |a| + 4 * i) == b[i] % 4294967296
    {
      assert (a + b)[|a| + i] == b[i];
      assert at + 4 * (|a| + i) == at + 4 * |a| + 4 * i;
    }
  }

  lemma {:induction false} PutAllAppend<T>(put: T -> seq<byte>, a: seq<T>, b: seq<T>)
    ensures PutAll(put, a + b) == PutAll(put, a) + PutAll(put, b)
  {
    if b == [] {
      assert a + b == a;
    } else {
      var front, last := b[..|b| - 1], b[|b| - 1];
      PutAllAppend(put, a, front);
      SplitLast(a, b);
      PutTwice(put, a + front, front, last);
      BytesJoin(PutAll(put, a), PutAll(put, front), put(last));
    }
  }

  lemma SplitLast<T>(a: seq<T>, b: seq<T>)
    requires b != []
    ensures b == b[..|b| - 1] + [b[|b| - 1]] && a + b == (a + b[..|b| - 1]) + [b[|b| - 1]]
  {
  }

  lemma PutTwice<T>(put: T -> seq<byte>, a: seq<T>, b: seq<T>, x: T)
    ensures PutAll(put, a + [x]) == PutAll(put, a) + put(x) && PutAll(put, b + [x]) == PutAll(put, b) + put(x)
  {
    PutAllSnoc(put, a, x);
    PutAllSnoc(put, b, x);
  }

  lemma BytesJoin(a: seq<byte>, b: seq<byte>, c: seq<byte>)
    ensures a + b + c == a + (b + c)
  {
  }

  lemma PutOne<T>(put: T -> seq<byte>, x: T)
    ensures PutAll(put, [x]) == put(x)
  {
    assert [x][..0] == [];
  }

  // ---------- an index file as words ----------

  function SizeWords(c: Config): seq<int> {
    [c.m, c.efConstruction, c.k0, c.candidateK, c.constructionL]
  }

  /** A wide field is two words, low word first; a negative one is reduced to 64 bits. */
  function RoundWords(c: Config): seq<int> {
    var seed := c.seed % 18446744073709551616;
    [c.alpha % 4294967296, c.alpha / 4294967296, c.iterations, seed % 4294967296, seed / 4294967296]
  }

  function QualityWords(c: Config): seq<int> {
    [c.workers, c.candidateRecall % 4294967296, c.candidateRecall / 4294967296, c.candidateControls]
  }

  /** A node's list: how many neighbours, then the neighbours. */
  function NodeWords(ns: seq<int>): seq<int> {
    [|ns|] + ns
  }

  /** The lists of a layer, node after node. */
  function LayerWords(nodes: seq<seq<int>>): seq<int> {
    if nodes == [] then [] else LayerWords(nodes[..|nodes| - 1]) + NodeWords(nodes[|nodes| - 1])
  }

  /** All layers, from 0 up. */
  function GraphWords(layers: seq<seq<seq<int>>>): seq<int> {
    if layers == [] then [] else GraphWords(layers[..|layers| - 1]) + LayerWords(layers[|layers| - 1])
  }

  /** Everything behind the magic bytes. */
  function FileWords(x: Stored): seq<int> {
    [1, x.cfg.metric, x.dim] + SizeWords(x.cfg) + RoundWords(x.cfg) + QualityWords(x.cfg) + [x.count]
    + x.vectors + x.levels + [x.entryPoint, x.maxLayer, |x.layers|] + GraphWords(x.layers)
  }

  lemma {:induction false} LayerIsWords(nodes: seq<seq<int>>)
    ensures PutAll(NodeWriter(LittleEndian()), nodes) == PutAll(Put32, LayerWords(nodes))
  {
    if nodes != [] {
      var front, ns := nodes[..|nodes| - 1], nodes[|nodes| - 1];
      LayerIsWords(front);
      PutOne(Put32, |ns|);
      PutAllAppend(Put32, [|ns|], ns);
      PutAllAppend(Put32, LayerWords(front), NodeWords(ns));
    }
  }

  lemma {:induction false} GraphIsWords(layers: seq<seq<seq<int>>>)
    ensures PutAll(LayerWriter(LittleEndian()), layers) == PutAll(Put32, GraphWords(layers))
  {
    if layers != [] {
      var front, nodes := layers[..|layers| - 1], layers[|layers| - 1];
      GraphIsWords(front);
      LayerIsWords(nodes);
      PutAllAppend(Put32, GraphWords(front), LayerWords(nodes));
    }
  }

  lemma PutFive(a: int, b: int, c: int, d: int, e: int)
    ensures PutAll(Put32, [a, b, c]) == Put32(a) + Put32(b) + Put32(c)
    ensures PutAll(Put32, [a, b, c, d]) == Put32(a) + Put32(b) + Put32(c) + Put32(d)
    ensures PutAll(Put32, [a, b, c, d, e]) == Put32(a) + Put32(b) + Put32(c) + Put32(d) + Put32(e)
  {
    hide Put32;
    PutOne(Put32, a);
    PutAllSnoc(Put32, [a], b);
    PutAllSnoc(Put32, [a, b], c);
    PutAllSnoc(Put32, [a, b, c], d);
    PutAllSnoc(Put32, [a, b, c, d], e);
    assert [a] + [b] == [a, b] && [a, b] + [c] == [a, b, c] && [a, b, c] + [d] == [a, b, c, d];
    assert [a, b, c, d] + [e] == [a, b, c, d, e];
  }

  lemma WideHalves(v: int)
    ensures ToU64(v) == v % 18446744073709551616
    ensures 0 <= v < 18446744073709551616 ==> ToU64(v) == v
  {
  }

  lemma ConfigIsWords(c: Config)
    ensures PutConfig(LittleEndian(), c) == PutAll(Put32, SizeWords(c) + RoundWords(c) + QualityWords(c))
  {
    hide Put32, PutAll, ToU64;
    var a, b, d := SizeWords(c), RoundWords(c), QualityWords(c);
    WideHalves(c.alpha);
    WideHalves(c.seed);
    WideHalves(c.candidateRecall);
    PutFive(a[0], a[1], a[2], a[3], a[4]);
    PutFive(b[0], b[1], b[2], b[3], b[4]);
    PutFive(d[0], d[1], d[2], d[3], 0);
    assert a == [a[0], a[1], a[2], a[3], a[4]] && b == [b[0], b[1], b[2], b[3], b[4]];
    assert d == [d[0], d[1], d[2], d[3]];
    PutAllAppend(Put32, a, b);
    PutAllAppend(Put32, a + b, d);
    RoundsJoin(Put32(b[0]), Put32(b[1]), Put32(b[2]), Put32(b[3]), Put32(b[4]));
    QualityJoin(Put32(d[0]), Put32(d[1]), Put32(d[2]), Put32(d[3]));
    assert PutSizes(LittleEndian(), c) == PutAll(Put32, a);
    assert PutRounds(LittleEndian(), c) == PutAll(Put32, b);
    assert PutQuality(LittleEndian(), c) == PutAll(Put32, d);
    PartsJoin(PutAll(Put32, a), PutAll(Put32, b), PutAll(Put32, d));
  }

  lemma PartsJoin(a: seq<byte>, b: seq<byte>, c: seq<byte>)
    ensures a + (b + c) == a + b + c
  {
  }

  lemma RoundsJoin(a: seq<byte>, b: seq<byte>, c: seq<byte>, d: seq<byte>, e: seq<byte>)
    ensures (a + b) + c + (d + e) == a + b + c + d + e
  {
  }

  lemma QualityJoin(a: seq<byte>, b: seq<byte>, c: seq<byte>, d: seq<byte>)
    ensures a + (b + c) + d == a + b + c + d
  {
  }

  lemma HeaderIsWords(metric: int, dim: int)
    ensures PutHeader(LittleEndian(), MAGIC, metric, dim) == MAGIC + PutAll(Put32, [1, metric, dim])
  {
    hide Put32, PutAll;
    PutFive(1, metric, dim, 0, 0);
    HeaderJoin(MAGIC, Put32(1), Put32(metric), Put32(dim));
  }

  lemma HeaderJoin(magic: seq<byte>, a: seq<byte>, b: seq<byte>, c: seq<byte>)
    ensures magic + a + b + c == magic + (a + b + c)
  {
  }

  lemma RowsAreWords(r: Rows)
    ensures PutRows(LittleEndian(), r) == PutAll(Put32, [r.count] + r.vectors + r.levels)
  {
    hide Put32, PutAll;
    PutOne(Put32, r.count);
    PutAllAppend(Put32, [r.count], r.vectors);
    PutAllAppend(Put32, [r.count] + r.vectors, r.levels);
  }

  lemma TopIsWords(t: Top)
    ensures PutTop(LittleEndian(), t) ==
            PutAll(Put32, [t.entryPoint, t.maxLayer, |t.layers|] + GraphWords(t.layers))
  {
    hide Put32, PutAll, LayerWriter, GraphWords;
    GraphIsWords(t.layers);
    PutFive(t.entryPoint, t.maxLayer, |t.layers|, 0, 0);
    PutAllAppend(Put32, [t.entryPoint, t.maxLayer, |t.layers|], GraphWords(t.layers));
  }

  lemma FourParts(magic: seq<byte>, h: seq<int>, c: seq<int>, r: seq<int>, t: seq<int>)
    ensures (magic + PutAll(Put32, h)) + PutAll(Put32, c) + PutAll(Put32, r) + PutAll(Put32, t) ==
            magic + PutAll(Put32, h + c + r + t)
  {
    hide Put32, PutAll;
    PutAllAppend(Put32, h, c);
    PutAllAppend(Put32, h + c, r);
    PutAllAppend(Put32, h + c + r, t);
  }

  /** A file is the magic bytes and those words. */
  lemma FileIsWords(x: Stored)
    ensures Encode(LittleEndian(), x) == MAGIC + PutAll(Put32, FileWords(x))
  {
    hide Put32, PutAll, PutHeader, PutConfig, PutRows, PutTop, GraphWords, SizeWords, RoundWords, QualityWords;
    var config := SizeWords(x.cfg) + RoundWords(x.cfg) + QualityWords(x.cfg);
    var rows, top := [x.count] + x.vectors + x.levels, [x.entryPoint, x.maxLayer, |x.layers|] + GraphWords(x.layers);
    HeaderIsWords(x.cfg.metric, x.dim);
    ConfigIsWords(x.cfg);
    RowsAreWords(RowsOf(x));
    TopIsWords(TopOf(x));
    FourParts(MAGIC, [1, x.cfg.metric, x.dim], config, rows, top);
    assert FileWords(x) == [1, x.cfg.metric, x.dim] + config + rows + top;
  }

  // ---------- the layout by literal positions ----------

  /** The header and the configuration. */
  ghost predicate HeadLaidOut(s: seq<byte>, x: Stored) {
    && |s| >= 80
    && s[..8] == [70, 72, 78, 83, 87, 73, 68, 88]
    && WordAt(s, 8) == 1
    && WordAt(s, 12) == x.cfg.metric % 4294967296 && WordAt(s, 16) == x.dim % 4294967296
    && WordAt(s, 20) == x.cfg.m % 4294967296 && WordAt(s, 24) == x.cfg.efConstruction % 4294967296
    && WordAt(s, 28) == x.cfg.k0 % 4294967296 && WordAt(s, 32) == x.cfg.candidateK % 4294967296
    && WordAt(s, 36) == x.cfg.constructionL % 4294967296
    && LongAt(s, 40) == x.cfg.alpha
    && WordAt(s, 48) == x.cfg.iterations % 4294967296
    && LongAt(s, 52) == x.cfg.seed % 18446744073709551616
    && WordAt(s, 60) == x.cfg.workers % 4294967296
    && LongAt(s, 64) == x.cfg.candidateRecall
    && WordAt(s, 72) == x.cfg.candidateControls % 4294967296
    && WordAt(s, 76) == x.count % 4294967296
  }

  /** The coordinates from byte 80 on, the levels, entry point, top layer and layer count, and the lists. */
  ghost predicate BodyLaidOut(s: seq<byte>, x: Stored) {
    var levels := 80 + 4 * |x.vectors|;
    var entry := levels + 4 * |x.levels|;
    && |s| == entry + 12 + 4 * |GraphWords(x.layers)|
    && WordsFrom(s, 80, x.vectors) && WordsFrom(s, levels, x.levels)
    && WordAt(s, entry) == x.entryPoint % 4294967296
    && WordAt(s, entry + 4) == x.maxLayer % 4294967296
    && WordAt(s, entry + 8) == |x.layers| % 4294967296
    && WordsFrom(s, entry + 12, GraphWords(x.layers))
  }

  lemma HalvesJoin(v: int)
    requires 0 <= v < 18446744073709551616
    ensures 0 <= v / 4294967296 < 4294967296
    ensures v % 4294967296 + 4294967296 * (v / 4294967296 % 4294967296) == v
    ensures v % 4294967296 % 4294967296 == v % 4294967296
  {
  }

  lemma FixedAt(s: seq<byte>, at: nat, ws: seq<int>, i: nat)
    requires WordsFrom(s, at, ws) && i < |ws|
    ensures at + 4 * i + 4 <= |s| && WordAt(s, at + 4 * i) == ws[i] % 4294967296
  {
  }

  lemma PairAt(s: seq<byte>, at: nat, ws: seq<int>, i: nat, v: int)
    requires WordsFrom(s, at, ws) && i + 1 < |ws| && 0 <= v < 18446744073709551616
    requires ws[i] == v % 4294967296 && ws[i + 1] == v / 4294967296
    ensures at + 4 * i + 8 <= |s| && LongAt(s, at + 4 * i) == v
  {
    HalvesJoin(v);
    FixedAt(s, at, ws, i);
    FixedAt(s, at, ws, i + 1);
  }

  lemma SizesAt(s: seq<byte>, c: Config)
    requires WordsFrom(s, 20, SizeWords(c))
    ensures |s| >= 40
    ensures WordAt(s, 20) == c.m % 4294967296 && WordAt(s, 24) == c.efConstruction % 4294967296
    ensures WordAt(s, 28) == c.k0 % 4294967296 && WordAt(s, 32) == c.candidateK % 4294967296
    ensures WordAt(s, 36) == c.constructionL % 4294967296
  {
    hide WordAt;
    FixedAt(s, 20, SizeWords(c), 0);
    FixedAt(s, 20, SizeWords(c), 1);
    FixedAt(s, 20, SizeWords(c), 2);
    FixedAt(s, 20, SizeWords(c), 3);
    FixedAt(s, 20, SizeWords(c), 4);
  }

  lemma RoundsAt(s: seq<byte>, c: Config)
    requires WordsFrom(s, 40, RoundWords(c))
    ensures |s| >= 60
    ensures LongAt(s, 40) == c.alpha && WordAt(s, 48) == c.iterations % 4294967296
    ensures LongAt(s, 52) == c.seed % 18446744073709551616
  {
    hide WordAt, LongAt;
    PairAt(s, 40, RoundWords(c), 0, c.alpha);
    FixedAt(s, 40, RoundWords(c), 2);
    PairAt(s, 40, RoundWords(c), 3, c.seed % 18446744073709551616);
  }

  lemma QualityAt(s: seq<byte>, c: Config)
    requires WordsFrom(s, 60, QualityWords(c))
    ensures |s| >= 76
    ensures WordAt(s, 60) == c.workers % 4294967296 && LongAt(s, 64) == c.candidateRecall
    ensures WordAt(s, 72) == c.candidateControls % 4294967296
  {
    hide WordAt, LongAt;
    FixedAt(s, 60, QualityWords(c), 0);
    PairAt(s, 60, QualityWords(c), 1, c.candidateRecall);
    FixedAt(s, 60, QualityWords(c), 3);
  }

  lemma ThreeAt(s: seq<byte>, at: nat, a: int, b: int, c: int)
    requires WordsFrom(s, at, [a, b, c])
    ensures at + 12 <= |s| && WordAt(s, at) == a % 4294967296
    ensures WordAt(s, at + 4) == b % 4294967296 && WordAt(s, at + 8) == c % 4294967296
  {
    hide WordAt;
    FixedAt(s, at, [a, b, c], 0);
    FixedAt(s, at, [a, b, c], 1);
    FixedAt(s, at, [a, b, c], 2);
  }

  /** The parts of a file one after another. */
  lemma PartsAt(s: seq<byte>, x: Stored)
    requires WordsFrom(s, 8, FileWords(x))
    ensures WordsFrom(s, 8, [1, x.cfg.metric, x.dim]) && WordsFrom(s, 20, SizeWords(x.cfg))
    ensures WordsFrom(s, 40, RoundWords(x.cfg)) && WordsFrom(s, 60, QualityWords(x.cfg)) && WordsFrom(s, 76, [x.count])
    ensures var n := |x.vectors| + |x.levels|;
            && WordsFrom(s, 80, x.vectors) && WordsFrom(s, 80 + 4 * |x.vectors|, x.levels)
            && WordsFrom(s, 80 + 4 * n, [x.entryPoint, x.maxLayer, |x.layers|])
            && WordsFrom(s, 92 + 4 * n, GraphWords(x.layers))
  {
    hide WordsFrom, GraphWords;
    var a, b, c, d := [1, x.cfg.metric, x.dim], SizeWords(x.cfg), RoundWords(x.cfg), QualityWords(x.cfg);
    var e, f, g, h := [x.count], x.vectors, x.levels, [x.entryPoint, x.maxLayer, |x.layers|];
    WordsOfPart(s, 8, a + b + c + d + e + f + g + h, GraphWords(x.layers));
    WordsOfPart(s, 8, a + b + c + d + e + f + g, h);
    WordsOfPart(s, 8, a + b + c + d + e + f, g);
    WordsOfPart(s, 8, a + b + c + d + e, f);
    WordsOfPart(s, 8, a + b + c + d, e);
    WordsOfPart(s, 8, a + b + c, d);
    WordsOfPart(s, 8, a + b, c);
    WordsOfPart(s, 8, a, b);
  }

  /** Where everything lies in an index file. */
  lemma FileIsLaidOut(x: Stored)
    ensures HeadLaidOut(Encode(LittleEndian(), x), x) && BodyLaidOut(Encode(LittleEndian(), x), x)
  {
    hide Put32, PutAll, FileWords, GraphWords, WordAt, LongAt, SizeWords, RoundWords, QualityWords;
    var s := Encode(LittleEndian(), x);
    FileIsWords(x);
    WordsOfAll(FileWords(x));
    WordsBehind(MAGIC, PutAll(Put32, FileWords(x)), FileWords(x));
    PartsAt(s, x);
    FileSize(x);
    ThreeAt(s, 8, 1, x.cfg.metric, x.dim);
    SizesAt(s, x.cfg);
    RoundsAt(s, x.cfg);
    QualityAt(s, x.cfg);
    FixedAt(s, 76, [x.count], 0);
    ThreeAt(s, 80 + 4 * (|x.vectors| + |x.levels|), x.entryPoint, x.maxLayer, |x.layers|);
  }

  lemma FileSize(x: Stored)
    ensures |FileWords(x)| == 21 + |x.vectors| + |x.levels| + |GraphWords(x.layers)|
  {
  }

  // ---------- where a node's list lies ----------

  /** How many words come before the list of node u of layer l. */
  function WordsBefore(layers: seq<seq<seq<int>>>, l: nat, u: nat): nat
    requires l < |layers| && u <= |layers[l]|
    decreases l, u
  {
    if u > 0 then WordsBefore(layers, l, u - 1) + 1 + |layers[l][u - 1]|
    else if l > 0 then WordsBefore(layers, l - 1, |layers[l - 1]|)
    else 0
  }

  lemma GraphStep(layers: seq<seq<seq<int>>>, l: nat)
    requires l < |layers|
    ensures GraphWords(layers[..l + 1]) == GraphWords(layers[..l]) + LayerWords(layers[l])
  {
    assert layers[..l + 1][..l] == layers[..l];
  }

  lemma LayerStep(nodes: seq<seq<int>>, u: nat)
    requires u < |nodes|
    ensures LayerWords(nodes[..u + 1]) == LayerWords(nodes[..u]) + NodeWords(nodes[u])
  {
    assert nodes[..u + 1][..u] == nodes[..u];
  }

  lemma {:induction false} WordsBeforeIs(layers: seq<seq<seq<int>>>, l: nat, u: nat)
    requires l < |layers| && u <= |layers[l]|
    ensures WordsBefore(layers, l, u) == |GraphWords(layers[..l])| + |LayerWords(layers[l][..u])|
    decreases l, u
  {
    if u > 0 {
      WordsBeforeIs(layers, l, u - 1);
      LayerStep(layers[l], u - 1);
    } else if l > 0 {
      WordsBeforeIs(layers, l - 1, |layers[l - 1]|);
      GraphStep(layers, l - 1);
      assert layers[l - 1][..|layers[l - 1]|] == layers[l - 1];
    }
  }

  lemma {:induction false} GraphPrefix(layers: seq<seq<seq<int>>>, l: nat)
    requires l <= |layers|
    ensures GraphWords(layers[..l]) <= GraphWords(layers)
    decreases |layers| - l
  {
    if l == |layers| {
      assert layers[..l] == layers;
    } else {
      GraphStep(layers, l);
      GraphPrefix(layers, l + 1);
    }
  }

  lemma {:induction false} LayerPrefix(nodes: seq<seq<int>>, u: nat)
    requires u <= |nodes|
    ensures LayerWords(nodes[..u]) <= LayerWords(nodes)
    decreases |nodes| - u
  {
    if u == |nodes| {
      assert nodes[..u] == nodes;
    } else {
      LayerStep(nodes, u);
      LayerPrefix(nodes, u + 1);
    }
  }

  /** b lies in `whole` behind a. */
  lemma SliceBehind(a: seq<int>, b: seq<int>, whole: seq<int>)
    requires a + b <= whole
    ensures |a| + |b| <= |whole| && whole[|a|..|a| + |b|] == b
  {
  }

  lemma PrefixesJoin(a: seq<int>, b: seq<int>, c: seq<int>, whole: seq<int>)
    requires b <= c && a + c <= whole
    ensures a + b <= whole
  {
  }

  lemma NodeSlice(layers: seq<seq<seq<int>>>, l: nat, u: nat)
    requires l < |layers| && u < |layers[l]|
    ensures var at, ws := WordsBefore(layers, l, u), NodeWords(layers[l][u]);
            at + |ws| <= |GraphWords(layers)| && GraphWords(layers)[at..at + |ws|] == ws
  {
    hide GraphWords, LayerWords, NodeWords, WordsBefore;
    var before, part := GraphWords(layers[..l]), LayerWords(layers[l][..u]);
    var ws := NodeWords(layers[l][u]);
    WordsBeforeIs(layers, l, u);
    GraphPrefix(layers, l + 1);
    GraphStep(layers, l);
    LayerPrefix(layers[l], u + 1);
    LayerStep(layers[l], u);
    PrefixesJoin(before, part + ws, LayerWords(layers[l]), GraphWords(layers));
    assert before + (part + ws) == before + part + ws;
    SliceBehind(before + part, ws, GraphWords(layers));
  }

  /** The list of node u of layer l: its degree, then its neighbours, behind the lists of everything before it. */
  lemma NodeIsLaidOut(x: Stored, l: nat, u: nat, j: nat)
    requires l < |x.layers| && u < |x.layers[l]| && j < |x.layers[l][u]|
    ensures var s, at := Encode(LittleEndian(), x),
                92 + 4 * (|x.vectors| + |x.levels| + WordsBefore(x.layers, l, u));
            && at + 4 * j + 8 <= |s| && WordAt(s, at) == |x.layers[l][u]| % 4294967296
            && WordAt(s, at + 4 + 4 * j) == x.layers[l][u][j] % 4294967296
  {
    hide WordAt, GraphWords, WordsBefore, Encode, WordsFrom;
    var s, words := Encode(LittleEndian(), x), GraphWords(x.layers);
    var base, k := 92 + 4 * (|x.vectors| + |x.levels|), WordsBefore(x.layers, l, u);
    GraphIsLaidOut(x);
    NodeWordsAt(x.layers, l, u, j);
    FixedAt(s, base, words, k);
    FixedAt(s, base, words, k + 1 + j);
    assert base + 4 * (k + 1 + j) == base + 4 * k + 4 + 4 * j;
  }

  lemma GraphIsLaidOut(x: Stored)
    ensures WordsFrom(Encode(LittleEndian(), x), 92 + 4 * (|x.vectors| + |x.levels|), GraphWords(x.layers))
  {
    hide Encode, GraphWords, HeadLaidOut, WordAt, WordsFrom;
    FileIsLaidOut(x);
  }

  lemma NodeWordsAt(layers: seq<seq<seq<int>>>, l: nat, u: nat, j: nat)
    requires l < |layers| && u < |layers[l]| && j < |layers[l][u]|
    ensures var words, k := GraphWords(layers), WordsBefore(layers, l, u);
            k + 1 + j < |words| && words[k] == |layers[l][u]| && words[k + 1 + j] == layers[l][u][j]
  {
    hide GraphWords, WordsBefore;
    var words, k, ws := GraphWords(layers), WordsBefore(layers, l, u), NodeWords(layers[l][u]);
    NodeSlice(layers, l, u);
    assert words[k] == words[k..k + |ws|][0] && words[k + 1 + j] == words[k..k + |ws|][1 + j];
  }

  // ---------- the limits of the format ----------

  ghost predicate Fits20(v: int) {
    0 < v <= 1048576
  }

  /** The limits in numbers: 2^20 sizes and neighbours, 2^31 - 1 vectors, 2^30 coordinates, 1024 layers. */
  ghost predicate FitsFormat(x: Stored) {
    && Fits20(x.dim) && 0 < x.count <= 2147483647 && |x.vectors| == x.count * x.dim <= 1073741824
    && (forall i :: 0 <= i < |x.vectors| ==> 0 <= x.vectors[i] < 4294967296)
    && |x.levels| == x.count && (forall u :: 0 <= u < |x.levels| ==> 0 <= x.levels[u] < 1024)
    && 0 <= x.maxLayer < 1024
    && (forall l, u :: 0 <= l < |x.layers| && 0 <= u < |x.layers[l]| ==> |x.layers[l][u]| <= 1048576)
    && Fits20(x.cfg.m) && Fits20(x.cfg.efConstruction) && Fits20(x.cfg.k0) && Fits20(x.cfg.candidateK)
    && Fits20(x.cfg.constructionL) && Fits20(x.cfg.iterations) && Fits20(x.cfg.workers)
    && Fits20(x.cfg.candidateControls)
  }

  lemma QuotientBound(count: int, dim: int)
    requires count > 0 && dim > 0
    ensures count <= 1073741824 / dim <==> count * dim <= 1073741824
  {
    var q, r := 1073741824 / dim, 1073741824 % dim;
    assert 1073741824 == q * dim + r;
    if count <= q {
      ScaleMonotone(dim, count, q);
    } else {
      ScaleMonotone(dim, q + 1, count);
    }
  }

  /** A file can carry exactly the consistent indexes with usable configurations within these limits. */
  lemma LoadableExactly(x: Stored)
    ensures Loadable(x) <==>
            && FitsFormat(x) && Usable(x.cfg) && x.cfg.dim == x.dim && Consistent(x.cfg, RowsOf(x), TopOf(x))
  {
    hide Consistent, Usable;
    if x.count > 0 && x.dim > 0 {
      QuotientBound(x.count, x.dim);
    }
  }

  // ---------- a packed SimpleFlat index ----------

  lemma LongOfPut(v: int)
    ensures |Put64(LittleEndian(), v)| == 8 && LongAt(Put64(LittleEndian(), v), 0) == v % 18446744073709551616
  {
    var u := v % 18446744073709551616;
    WideHalves(v);
    HalvesJoin(u);
    var lo, hi := Put32(u % 4294967296), Put32(u / 4294967296);
    WordOfPut(u % 4294967296);
    WordOfPut(u / 4294967296);
    hide Put32, WordAt;
    WordInFront(lo, hi, 0);
    WordBehind(lo, hi, 0);
  }

  /** The 64-bit words from a position on are the given numbers. */
  ghost predicate LongsFrom(s: seq<byte>, at: nat, vs: seq<int>) {
    && at + 8 * |vs| <= |s|
    && forall i :: 0 <= i < |vs| ==> LongAt(s, at + 8 * i) == vs[i] % 18446744073709551616
  }

  lemma LongInFront(a: seq<byte>, b: seq<byte>, at: nat)
    requires at + 8 <= |a|
    ensures LongAt(a + b, at) == LongAt(a, at)
  {
    hide WordAt;
    WordInFront(a, b, at);
    WordInFront(a, b, at + 4);
  }

  lemma LongBehind(a: seq<byte>, b: seq<byte>, at: nat)
    requires at + 8 <= |b|
    ensures LongAt(a + b, |a| + at) == LongAt(b, at)
  {
    hide WordAt;
    WordBehind(a, b, at);
    WordBehind(a, b, at + 4);
  }

  lemma {:induction false} LongsOfAll(vs: seq<int>)
    ensures var s := PutAll(LongWriter(LittleEndian()), vs); |s| == 8 * |vs| && LongsFrom(s, 0, vs)
  {
    hide LongAt, Put64;
    if vs != [] {
      var front, last := vs[..|vs| - 1], vs[|vs| - 1];
      var a, b := PutAll(LongWriter(LittleEndian()), front), Put64(LittleEndian(), last);
      LongsOfAll(front);
      LongOfPut(last);
      forall i | 0 <= i < |vs|
        ensures LongAt(a + b, 8 * i) == vs[i] % 18446744073709551616
      {
        if i < |front| {
          LongInFront(a, b, 8 * i);
          assert LongAt(a, 0 + 8 * i) == front[i] % 18446744073709551616;
        } else {
          LongBehind(a, b, 0);
        }
      }
    }
  }

  lemma LongsBehind(a: seq<byte>, b: seq<byte>, vs: seq<int>)
    requires LongsFrom(b, 0, vs)
    ensures LongsFrom(a + b, |a|, vs)
  {
    hide LongAt;
    forall i | 0 <= i < |vs|
      ensures LongAt(a + b, |a| + 8 * i) == vs[i] % 18446744073709551616
    {
      LongBehind(a, b, 8 * i);
      assert LongAt(b, 0 + 8 * i) == vs[i] % 18446744073709551616;
    }
  }

  /** The ids block: count, dimension and ids as 64-bit words. The other block: the coordinates as 32-bit words. */
  lemma PackIsLaidOut(ids: seq<int>, data: seq<int>, dim: int)
    ensures var bs := Pack(LittleEndian(), ids, data, dim);
            && |bs.ids| == 16 + 8 * |ids| && LongAt(bs.ids, 0) == |ids| % 18446744073709551616
            && LongAt(bs.ids, 8) == dim % 18446744073709551616 && LongsFrom(bs.ids, 16, ids)
            && |bs.vectors| == 4 * |data| && WordsFrom(bs.vectors, 0, data)
  {
    hide LongAt, WordAt, Put64, PutAll, Put32;
    var count, width := Put64(LittleEndian(), |ids|), Put64(LittleEndian(), dim);
    var list := PutAll(LongWriter(LittleEndian()), ids);
    LongOfPut(|ids|);
    LongOfPut(dim);
    LongsOfAll(ids);
    WordsOfAll(data);
    LongsBehind(count + width, list, ids);
    LongInFront(count, width, 0);
    LongInFront(count + width, list, 0);
    LongBehind(count, width, 0);
    LongInFront(count + width, list, 8);
  }
}
