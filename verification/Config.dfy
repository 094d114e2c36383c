/** Index configuration, its defaults and its checks. */
module Config {
  import opened Outcomes

  /** A float64 by its IEEE 754 bit pattern. */
  type Float64 = x: int | 0 <= x < 0x1_0000_0000_0000_0000

  const SIGN: int := 0x8000_0000_0000_0000
  const INFINITY: int := 0x7FF0_0000_0000_0000
  const SIXTY: int := 0x404E_0000_0000_0000
  const ONE_EIGHTY: int := 0x4066_8000_0000_0000
  const ONE: int := 0x3FF0_0000_0000_0000
  const DEFAULT_ALPHA: Float64 := 0x4050_C000_0000_0000
  const DEFAULT_RECALL: Float64 := 0x3FEF_5C28_F5C2_8F5C

  function Magnitude(x: Float64): int {
    if x >= SIGN then x - SIGN else x
  }

  predicate IsNaN(x: Float64) {
    Magnitude(x) > INFINITY
  }

  predicate IsInf(x: Float64) {
    Magnitude(x) == INFINITY
  }

  /** Both zeros compare equal to 0. */
  predicate IsZero(x: Float64) {
    Magnitude(x) == 0
  }

  /** x < c for a positive finite c; non-negative patterns order like their values. */
  predicate LessThan(x: Float64, c: int) {
    !IsNaN(x) && (x >= SIGN || x < c)
  }

  predicate GreaterThan(x: Float64, c: int) {
    !IsNaN(x) && x < SIGN && x > c
  }

  predicate AtMostZero(x: Float64) {
    !IsNaN(x) && (x >= SIGN || x == 0)
  }

  /** A Go int or int64 on a 64-bit platform. */
  type Int = x: int | -SIGN <= x < SIGN

  const HALF: int := 0x4000_0000_0000_0000

  /** 2 * x as a 64-bit int computes it, for x >= -HALF. */
  function Doubled(x: int): (r: int)
    ensures 0 <= x < HALF ==> r == 2 * x
    ensures HALF <= x < SIGN ==> r < 0
  {
    if x < HALF then 2 * x else 2 * x - 2 * SIGN
  }

  /** The metric is an integer code; 0 is L2 and 1 is cosine. The dimension is the length of a vector. */
  datatype Config = Config(
    metric: Int, dim: int, m: Int, efConstruction: Int, k0: Int, candidateK: Int, constructionL: Int,
    alpha: Float64, iterations: Int, seed: Int, workers: Int, candidateRecall: Float64, candidateControls: Int)

  predicate ValidMetric(metric: int) {
    metric == 0 || metric == 1
  }

  /** Zero fields replaced by their defaults, aliases resolved first. */
  function Resolve(cfg: Config, procs: Int): Config {
    var ef := if cfg.efConstruction == 0 then 200 else cfg.efConstruction;
    var l := if cfg.constructionL == 0 then ef else cfg.constructionL;
    Config(
      cfg.metric,
      cfg.dim,
      if cfg.m == 0 then 32 else cfg.m,
      ef,
      if cfg.k0 == 0 then 200 else cfg.k0,
      if cfg.candidateK == 0 then l else cfg.candidateK,
      l,
      if IsZero(cfg.alpha) then DEFAULT_ALPHA else cfg.alpha,
      if cfg.iterations == 0 then 2 else cfg.iterations,
      if cfg.seed == 0 then 1 else cfg.seed,
      if cfg.workers == 0 then procs else cfg.workers,
      if IsZero(cfg.candidateRecall) then DEFAULT_RECALL else cfg.candidateRecall,
      if cfg.candidateControls == 0 then 100 else cfg.candidateControls)
  }

  /** A configuration the engine may rely on. */
  predicate Usable(cfg: Config) {
    && ValidMetric(cfg.metric) && cfg.dim >= 0
    && cfg.m > 0 && cfg.efConstruction > 0 && cfg.k0 > 0
    && 0 < cfg.candidateK <= cfg.constructionL
    && SIXTY <= cfg.alpha <= ONE_EIGHTY
    && cfg.iterations > 0 && cfg.seed != 0 && cfg.workers > 0
    && 0 < cfg.candidateRecall <= ONE
    && cfg.candidateControls > 0
  }

  /** Fill the zero fields one after another: first the sizes. */
  method FillSizes(cfg: Config, ghost procs: Int) returns (c: Config)
    ensures c == Resolve(cfg, procs).(
              alpha := cfg.alpha, iterations := cfg.iterations, seed := cfg.seed, workers := cfg.workers,
              candidateRecall := cfg.candidateRecall, candidateControls := cfg.candidateControls)
  {
    c := cfg;
    if c.m == 0 { c := c.(m := 32); }
    if c.efConstruction == 0 { c := c.(efConstruction := 200); }
    if c.constructionL == 0 { c := c.(constructionL := c.efConstruction); }
    if c.candidateK == 0 { c := c.(candidateK := c.constructionL); }
    if c.k0 == 0 { c := c.(k0 := 200); }
  }

  method FillDefaults(cfg: Config, procs: Int) returns (c: Config)
    ensures c == Resolve(cfg, procs)
  {
    c := FillSizes(cfg, procs);
    if IsZero(c.alpha) { c := c.(alpha := DEFAULT_ALPHA); }
    if c.iterations == 0 { c := c.(iterations := 2); }
    if c.seed == 0 { c := c.(seed := 1); }
    if c.workers == 0 { c := c.(workers := procs); }
    if IsZero(c.candidateRecall) { c := c.(candidateRecall := DEFAULT_RECALL); }
    if c.candidateControls == 0 { c := c.(candidateControls := 100); }
  }

  /** What filling in defaults leaves to check. */
  predicate NoZeroField(c: Config) {
    && ValidMetric(c.metric) && c.dim >= 0
    && c.m != 0 && c.efConstruction != 0 && c.constructionL != 0 && c.candidateK != 0 && c.k0 != 0
    && !IsZero(c.alpha) && c.iterations != 0 && c.seed != 0 && c.workers != 0
    && !IsZero(c.candidateRecall) && c.candidateControls != 0
  }

  method CheckFields(c: Config) returns (ok: bool)
    requires NoZeroField(c)
    ensures ok <==> Usable(c)
  {
    if c.m < 0 || c.efConstruction < 0 || c.k0 < 0 || c.candidateK < 0 || c.constructionL < 0 {
      return false;
    }
    if c.constructionL < c.candidateK {
      return false;
    }
    if IsNaN(c.alpha) || IsInf(c.alpha) {
      return false;
    }
    if LessThan(c.alpha, SIXTY) || GreaterThan(c.alpha, ONE_EIGHTY) {
      return false;
    }
    if c.iterations < 0 || c.workers < 0 {
      return false;
    }
    if IsNaN(c.candidateRecall) || IsInf(c.candidateRecall) {
      return false;
    }
    if AtMostZero(c.candidateRecall) || GreaterThan(c.candidateRecall, ONE) {
      return false;
    }
    return c.candidateControls > 0;
  }

  /** Accepts exactly the configurations whose defaults-filled form is usable, and returns that form. */
  method NormalizeConfig(cfg: Config, procs: Int) returns (out: Outcome<Config>)
    requires procs > 0
    ensures out == if Usable(Resolve(cfg, procs)) then Ok(Resolve(cfg, procs)) else Err(BadConfig)
  {
    if !ValidMetric(cfg.metric) {
      return Err(BadConfig);
    }
    if cfg.dim < 0 {
      return Err(BadConfig);
    }
    var c := FillDefaults(cfg, procs);
    var ok := CheckFields(c);
    return if ok then Ok(c) else Err(BadConfig);
  }

  /** Normalising a usable configuration returns it unchanged, on any machine. */
  lemma ResolveIdempotent(cfg: Config, procs: Int)
    ensures Usable(cfg) ==> Resolve(cfg, procs) == cfg
    ensures Usable(Resolve(cfg, procs)) ==> Resolve(Resolve(cfg, procs), procs) == Resolve(cfg, procs)
  {
  }

  /** What New accepts, by the fields as given: nothing negative, zeros meaning the defaults. */
  lemma AcceptedExactly(c: Config, procs: Int)
    requires procs > 0
    ensures Usable(Resolve(c, procs)) <==>
            && (c.metric == 0 || c.metric == 1) && c.dim >= 0 && c.m >= 0 && c.efConstruction >= 0 && c.k0 >= 0
            && c.candidateK >= 0 && c.constructionL >= 0 && c.iterations >= 0 && c.workers >= 0
            && c.candidateControls >= 0
            && c.candidateK <= (if c.constructionL > 0 then c.constructionL
                                else if c.efConstruction > 0 then c.efConstruction else 200)
            && (IsZero(c.alpha) || SIXTY <= c.alpha <= ONE_EIGHTY)
            && (IsZero(c.candidateRecall) || 0 < c.candidateRecall <= ONE)
  {
  }

  /** The all-zero configuration resolves to the published defaults and is usable. */
  lemma ZeroConfigIsUsable(procs: Int)
    requires procs > 0
    ensures var zero := Config(0, 0, 0, 0, 0, 0, 0, 0, 0, 0, 0, 0, 0);
            Resolve(zero, procs) ==
              Config(0, 0, 32, 200, 200, 200, 200, DEFAULT_ALPHA, 2, 1, procs, DEFAULT_RECALL, 100)
            && Usable(Resolve(zero, procs))
  {
  }

  /** The degree bound of a layer; on layer 0 the doubling may wrap. */
  function LayerMaxDegree(m: int, layer: int): int {
    if layer == 0 then Doubled(m) else m
  }

  /** The bound meant: twice M on layer 0, M above it. */
  function DegreeBound(m: int, layer: int): int {
    if layer == 0 then 2 * m else m
  }

  /** A usable configuration whose base-layer bound does not wrap. */
  predicate Buildable(cfg: Config) {
    Usable(cfg) && cfg.m < HALF
  }
}
