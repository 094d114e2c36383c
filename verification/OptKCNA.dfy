/** Candidate lists acquired by searching a graph, and their refresh over an alpha-pruned graph. */
module OptKCNA {
  import opened Order
  import opened Sorting
  import opened Outcomes
  import opened Prune
  import opened Transpose
  import opened PrunedLayer
  import opened Beams
  import opened BeamTheorems
  import opened GraphSearch
  import opened MarkTables
  import opened TableBeams
  import opened Parallel

  /** Search results without the source, cut to the limit; the limit is tested after an append. */
  function WithoutSource(source: int, results: seq<Result>): seq<Result> {
    if results == [] then []
    else
      var rest := WithoutSource(source, results[..|results| - 1]);
      var last := results[|results| - 1];
      if last.id == source then rest else rest + [last]
  }

  function FromResults(source: int, results: seq<Result>, limit: int): seq<Result> {
    Take(WithoutSource(source, results), Cap(limit))
  }

  lemma {:induction false} WithoutSourceMember(source: int, results: seq<Result>, r: Result)
    ensures r in WithoutSource(source, results) <==> r in results && r.id != source
  {
    if results != [] {
      WithoutSourceMember(source, results[..|results| - 1], r);
      assert results == results[..|results| - 1] + [results[|results| - 1]];
    }
  }

  lemma {:induction false} WithoutSourcePrefix(source: int, results: seq<Result>, i: nat)
    requires i <= |results|
    ensures WithoutSource(source, results[..i]) <= WithoutSource(source, results)
  {
    if i == |results| {
      assert results[..i] == results;
    } else {
      assert results[..|results| - 1][..i] == results[..i];
      WithoutSourcePrefix(source, results[..|results| - 1], i);
    }
  }

  method CandidatesFromResults(source: int, results: seq<Result>, limit: int) returns (out: seq<Result>)
    ensures out == FromResults(source, results, limit)
  {
    out := [];
    for i := 0 to |results|
      invariant out == WithoutSource(source, results[..i]) && |out| < Cap(limit)
    {
      assert results[..i + 1][..i] == results[..i];
      if results[i].id == source {
        continue;
      }
      out := out + [results[i]];
      if |out| >= limit {
        WithoutSourcePrefix(source, results, i + 1);
        FullPrefix(out, WithoutSource(source, results), Cap(limit));
        return;
      }
    }
    assert results[..|results|] == results;
  }

  lemma FullPrefix(a: seq<Result>, b: seq<Result>, k: int)
    requires a <= b && |a| == k
    ensures Take(b, k) == a
  {
  }

  // ---------- acquisition by graph search ----------

  /** What one node acquires by searching the graph with its own vector. */
  function AcquiredAt(adj: seq<seq<int>>, d: (int, int) -> real, k: int, ef: int, u: int): seq<Result> {
    FromResults(u, Search(adj, To(d, u), [u], ef).best, k)
  }

  function Acquired(adj: seq<seq<int>>, d: (int, int) -> real, k: int, ef: int): (lists: seq<seq<Result>>)
    ensures |lists| == |adj|
    ensures forall u :: 0 <= u < |adj| ==> lists[u] == AcquiredAt(adj, d, k, ef, u)
  {
    seq(|adj|, u requires 0 <= u < |adj| => AcquiredAt(adj, d, k, ef, u))
  }

  /** Acquired candidates are nodes reachable from the source, never the source itself. */
  lemma AcquiredFacts(adj: seq<seq<int>>, d: (int, int) -> real, k: int, ef: int, u: nat, r: Result)
    requires u < |adj| && r in AcquiredAt(adj, d, k, ef, u)
    ensures 0 <= r.id < |adj| && r.id != u && Reachable(adj, [u], r.id) && r.distance == d(r.id, u)
  {
    var b := Search(adj, To(d, u), [u], ef);
    SearchInv(adj, To(d, u), [u], ef);
    WithoutSourceMember(u, b.best, r);
    BestMember(Tag(To(d, u), b.visited), ef, r);
    TagMember(To(d, u), b.visited, r);
    VisitedIsReachable(adj, To(d, u), [u], ef);
  }

  lemma AcquiredInRange(adj: seq<seq<int>>, d: (int, int) -> real, k: int, ef: int)
    ensures ListsInRange(|adj|, IdLists(Acquired(adj, d, k, ef)))
  {
    var lists := Acquired(adj, d, k, ef);
    forall u, i | 0 <= u < |adj| && 0 <= i < |lists[u]|
      ensures 0 <= IdLists(lists)[u][i] < |adj|
    {
      assert lists[u] == AcquiredAt(adj, d, k, ef, u);
      AcquiredFacts(adj, d, k, ef, u, lists[u][i]);
    }
  }

  /** A node's search with its worker's table, whatever other nodes left in it. */
  function AcquireWork(adj: seq<seq<int>>, d: (int, int) -> real, k: int, ef: int): Work<Table, seq<Result>> {
    (t: Table, u: int) =>
      if MarkTables.Valid(t) then
        var s := SearchOn(adj, To(d, u), [u], ef, t);
        (s.table, Ok(FromResults(u, s.beam.best, k)))
      else (t, Ok([]))
  }

  function AcquireValue(adj: seq<seq<int>>, d: (int, int) -> real, k: int, ef: int): int -> Outcome<seq<Result>> {
    (u: int) => Ok(AcquiredAt(adj, d, k, ef, u))
  }

  function ValidTable(): Table -> bool {
    (t: Table) => MarkTables.Valid(t)
  }

  /** What a node acquires does not depend on what the search scratch held before. */
  lemma AcquireIsScratchFree(adj: seq<seq<int>>, d: (int, int) -> real, k: int, ef: int)
    ensures ScratchFree(AcquireWork(adj, d, k, ef), ValidTable(), AcquireValue(adj, d, k, ef))
  {
    var fn, valid, pure := AcquireWork(adj, d, k, ef), ValidTable(), AcquireValue(adj, d, k, ef);
    forall t: Table, u: int | valid(t)
      ensures valid(fn(t, u).0) && fn(t, u).1 == pure(u)
    {
      SearchOnIsSearch(adj, To(d, u), [u], ef, t);
    }
  }

  /** The imperative search of one node does exactly the node's work on its scratch. */
  method AcquireNode(adj: seq<seq<int>>, d: (int, int) -> real, k: int, ef: int, u: nat, scratch: Scratch)
    returns (list: seq<Result>)
    requires scratch.Valid()
    modifies scratch, scratch.visited, scratch.candidates, scratch.results
    ensures scratch.Valid()
    ensures (scratch.AsTable(), Ok(list)) == AcquireWork(adj, d, k, ef)(old(scratch.AsTable()), u)
  {
    SearchOnIsSearch(adj, To(d, u), [u], ef, scratch.AsTable());
    var results := GraphSearchLayerFromEntries(adj, To(d, u), [u], ef, scratch);
    list := CandidatesFromResults(u, results, k);
  }

  /** One reserved search table per worker. */
  function MakeScratches(workers: nat, count: nat): (scratch: seq<Table>)
    ensures |scratch| == workers && forall i :: 0 <= i < workers ==> MarkTables.Valid(scratch[i])
  {
    seq(workers, _ => ReserveTable(Table([], 0, 0), count))
  }

  /** Every node searches the graph from itself, for any number of workers in any order. */
  method AcquireCandidatesByGraphSearch(
      adjacency: seq<seq<int>>, d: (int, int) -> real, candidateK: int, searchEf: int, workers: int)
    returns (out: seq<seq<Result>>)
    ensures out == Acquired(adjacency, d, candidateK, searchEf)
  {
    var count := |adjacency|;
    AcquireIsScratchFree(adjacency, d, candidateK, searchEf);
    var scratches := MakeScratches(EffectiveWorkerCount(workers, count), count);
    var lists, _ := FillNodes(
      count, workers, AcquireWork(adjacency, d, candidateK, searchEf), scratches, ValidTable(),
      AcquireValue(adjacency, d, candidateK, searchEf));
    assert lists == Acquired(adjacency, d, candidateK, searchEf);
    out := lists;
  }

  // ---------- one refresh round ----------

  datatype OptKCNAConfig = OptKCNAConfig(
    candidateK: int, searchEf: int, maxDegree: int, alphaInRange: bool, workers: int)

  predicate ValidInput(count: nat, lists: nat, cfg: OptKCNAConfig) {
    && cfg.candidateK > 0 && cfg.searchEf >= cfg.candidateK && cfg.maxDegree > 0
    && cfg.alphaInRange && cfg.workers >= 0 && lists == count
  }

  /** Prune the current candidates with the alpha rule, then search that graph from every node. */
  function Refreshed(d: (int, int) -> real, angle: (int, int, int) -> bool, cfg: OptKCNAConfig, lists: seq<seq<Result>>)
    : (next: seq<seq<Result>>)
    ensures |next| == |lists|
  {
    Acquired(Layer(d, Alpha(angle), IdLists(lists), cfg.maxDegree), d, cfg.candidateK, cfg.searchEf)
  }

  lemma RefreshedInRange(
      d: (int, int) -> real, angle: (int, int, int) -> bool, cfg: OptKCNAConfig, lists: seq<seq<Result>>)
    ensures ListsInRange(|lists|, IdLists(Refreshed(d, angle, cfg, lists)))
  {
    AcquiredInRange(Layer(d, Alpha(angle), IdLists(lists), cfg.maxDegree), d, cfg.candidateK, cfg.searchEf);
  }

  method OptKCNA(
      candidates: seq<seq<Result>>, cfg: OptKCNAConfig, count: nat, d: (int, int) -> real,
      angle: (int, int, int) -> bool)
    returns (out: Outcome<seq<seq<Result>>>)
    ensures out.Ok? <==> ValidInput(count, |candidates|, cfg) &&
                         FirstBadList(count, IdLists(candidates)) == None
    ensures out.Ok? ==> out.value == Refreshed(d, angle, cfg, candidates)
  {
    if cfg.candidateK <= 0 {
      return Err(KNotPositive);
    }
    if cfg.searchEf < cfg.candidateK {
      return Err(SearchEfBelowCandidateK);
    }
    if cfg.maxDegree <= 0 {
      return Err(MaxDegreeNotPositive);
    }
    if !cfg.alphaInRange || cfg.workers < 0 {
      return Err(BadConfig);
    }
    if |candidates| != count {
      return Err(CandidateCountMismatch);
    }
    if count == 0 {
      assert Refreshed(d, angle, cfg, candidates) == [];
      return Ok([]);
    }
    var alphaGraph := BuildPrunedLayer(candidates, cfg.maxDegree, Alpha(angle), d, cfg.workers);
    if alphaGraph.Err? {
      return Err(alphaGraph.error);
    }
    var refreshed := AcquireCandidatesByGraphSearch(alphaGraph.value, d, cfg.candidateK, cfg.searchEf, cfg.workers);
    return Ok(refreshed);
  }

  // ---------- refinement until the recall estimate is high enough ----------

  /** At most n refreshes, stopping as soon as the estimate is high enough. */
  function Refined(
      d: (int, int) -> real, angle: (int, int, int) -> bool, cfg: OptKCNAConfig,
      enough: seq<seq<Result>> -> bool, lists: seq<seq<Result>>, n: int): (r: seq<seq<Result>>)
    ensures |r| == |lists|
    decreases n
  {
    if n <= 0 || enough(lists) then lists
    else Refined(d, angle, cfg, enough, Refreshed(d, angle, cfg, lists), n - 1)
  }

  /** The number of workers plays no part in what the refinement computes. */
  lemma {:induction false} RefinedIgnoresWorkers(
      d: (int, int) -> real, angle: (int, int, int) -> bool, cfg: OptKCNAConfig, workers: int,
      enough: seq<seq<Result>> -> bool, lists: seq<seq<Result>>, n: int)
    ensures Refined(d, angle, cfg.(workers := workers), enough, lists, n) == Refined(d, angle, cfg, enough, lists, n)
    decreases n
  {
    hide Acquired, Layer;
    if !(n <= 0 || enough(lists)) {
      RefinedIgnoresWorkers(d, angle, cfg, workers, enough, Refreshed(d, angle, cfg, lists), n - 1);
    }
  }

  lemma {:induction false} RefinedInRange(
      d: (int, int) -> real, angle: (int, int, int) -> bool, cfg: OptKCNAConfig,
      enough: seq<seq<Result>> -> bool, lists: seq<seq<Result>>, n: int)
    requires ListsInRange(|lists|, IdLists(lists))
    ensures ListsInRange(|lists|, IdLists(Refined(d, angle, cfg, enough, lists, n)))
    decreases n
  {
    if !(n <= 0 || enough(lists)) {
      RefreshedInRange(d, angle, cfg, lists);
      RefinedInRange(d, angle, cfg, enough, Refreshed(d, angle, cfg, lists), n - 1);
    }
  }

  // ---------- acquisition and refreshes without the loops ----------

  /** The list without u's own entry, if it has one. */
  ghost predicate OthersOf(u: int, w: seq<Result>, rest: seq<Result>) {
    if u in Ids(w) then exists i :: 0 <= i < |w| && w[i].id == u && rest == w[..i] + w[i + 1..] else rest == w
  }

  /**
   * What a node acquires from a graph: some settled search of the given width with the node as query and only entry,
   * its own entry left out, and of the others the first k, at least one.
   */
  ghost predicate AcquiredBy(
      adj: seq<seq<int>>, d: (int, int) -> real, k: int, ef: int, u: int, list: seq<Result>)
  {
    exists w, rest :: AcquiredFrom(adj, d, k, ef, u, list, w, rest)
  }

  ghost predicate AcquiredFrom(
      adj: seq<seq<int>>, d: (int, int) -> real, k: int, ef: int, u: int, list: seq<Result>, w: seq<Result>,
      rest: seq<Result>)
  {
    && Settled(adj, To(d, u), [u], ef, w) && (forall r :: r in w ==> r.distance == d(r.id, u))
    && OthersOf(u, w, rest)
    && list == if |rest| <= k || |rest| <= 1 then rest else if k < 1 then rest[..1] else rest[..k]
  }

  lemma {:induction false} SourceLeavesOne(u: int, w: seq<Result>)
    requires Distinct(Ids(w))
    ensures OthersOf(u, w, WithoutSource(u, w))
  {
    if w != [] {
      var front, last := w[..|w| - 1], w[|w| - 1];
      assert w == front + [last];
      FrontIsDistinct(w);
      SourceLeavesOne(u, front);
      if last.id == u {
        LastIsSource(u, front, last);
      } else {
        LastIsOther(u, front, last, WithoutSource(u, front));
      }
    }
  }

  lemma LastIsSource(u: int, front: seq<Result>, last: Result)
    requires last.id == u && u !in Ids(front)
    ensures OthersOf(u, front + [last], front)
  {
    var w := front + [last];
    assert Ids(w)[|front|] == u;
    assert w[|front|].id == u && front == w[..|front|] + w[|front| + 1..];
  }

  lemma LastIsOther(u: int, front: seq<Result>, last: Result, rest: seq<Result>)
    requires last.id != u && OthersOf(u, front, rest)
    ensures OthersOf(u, front + [last], rest + [last])
  {
    var w := front + [last];
    LongerIds(front, last);
    if u in Ids(front) {
      var i :| 0 <= i < |front| && front[i].id == u && rest == front[..i] + front[i + 1..];
      CutLonger(front, last, i);
      assert w[i].id == u;
    }
  }

  lemma LongerIds(front: seq<Result>, last: Result)
    ensures forall u :: u in Ids(front + [last]) <==> u in Ids(front) || u == last.id
  {
    assert Ids(front + [last]) == Ids(front) + [last.id];
  }

  lemma CutLonger(front: seq<Result>, last: Result, i: nat)
    requires i < |front|
    ensures var w := front + [last]; w[..i] + w[i + 1..] == front[..i] + front[i + 1..] + [last]
  {
    var w := front + [last];
    assert w[..i] == front[..i] && w[i + 1..] == front[i + 1..] + [last];
  }

  lemma FrontIsDistinct(w: seq<Result>)
    requires Distinct(Ids(w)) && w != []
    ensures Distinct(Ids(w[..|w| - 1])) && w[|w| - 1].id !in Ids(w[..|w| - 1])
  {
    var front := w[..|w| - 1];
    assert forall i :: 0 <= i < |front| ==> Ids(front)[i] == Ids(w)[i];
    assert forall i :: 0 <= i < |front| ==> Ids(w)[i] != Ids(w)[|w| - 1];
  }

  lemma AcquiredIsSettled(adj: seq<seq<int>>, d: (int, int) -> real, k: int, ef: int, u: int)
    requires ef > 0
    ensures AcquiredBy(adj, d, k, ef, u, AcquiredAt(adj, d, k, ef, u))
  {
    hide Search, WithoutSource, OthersOf;
    var w := Search(adj, To(d, u), [u], ef).best;
    SearchSettles(adj, To(d, u), [u], ef);
    SourceLeavesOne(u, w);
    assert AcquiredFrom(adj, d, k, ef, u, AcquiredAt(adj, d, k, ef, u), w, WithoutSource(u, w));
  }

  /** All nodes' lists. */
  ghost predicate AllAcquired(
      adj: seq<seq<int>>, d: (int, int) -> real, k: int, ef: int, lists: seq<seq<Result>>)
  {
    |lists| == |adj| && forall u :: 0 <= u < |adj| ==> AcquiredBy(adj, d, k, ef, u, lists[u])
  }

  lemma AcquiredIsAllAcquired(adj: seq<seq<int>>, d: (int, int) -> real, k: int, ef: int)
    requires ef > 0
    ensures AllAcquired(adj, d, k, ef, Acquired(adj, d, k, ef))
  {
    hide AcquiredBy, AcquiredAt;
    forall u | 0 <= u < |adj|
      ensures AcquiredBy(adj, d, k, ef, u, Acquired(adj, d, k, ef)[u])
    {
      AcquiredIsSettled(adj, d, k, ef, u);
    }
  }

  /** One refresh: a layer pruned in alpha mode from the current lists, then acquisition from it. */
  ghost predicate RefreshedBy(
      d: (int, int) -> real, angle: (int, int, int) -> bool, k: int, ef: int, maxDegree: int,
      lists: seq<seq<Result>>, next: seq<seq<Result>>)
  {
    exists f, g :: RefreshedFrom(d, angle, k, ef, maxDegree, lists, next, f, g)
  }

  ghost predicate RefreshedFrom(
      d: (int, int) -> real, angle: (int, int, int) -> bool, k: int, ef: int, maxDegree: int,
      lists: seq<seq<Result>>, next: seq<seq<Result>>, f: seq<seq<int>>, g: seq<seq<int>>)
  {
    LayerFrom(d, Alpha(angle), IdLists(lists), maxDegree, f, g) && AllAcquired(g, d, k, ef, next)
  }

  lemma RefreshIsRefreshed(
      d: (int, int) -> real, angle: (int, int, int) -> bool, cfg: OptKCNAConfig, lists: seq<seq<Result>>)
    requires cfg.searchEf > 0
    ensures RefreshedBy(d, angle, cfg.candidateK, cfg.searchEf, cfg.maxDegree, lists, Refreshed(d, angle, cfg, lists))
  {
    hide AllAcquired, Acquired, LayerFrom, Layer, Forward;
    var ids := IdLists(lists);
    var f, g := Forward(d, Alpha(angle), ids, cfg.maxDegree), Layer(d, Alpha(angle), ids, cfg.maxDegree);
    LayerExactly(d, Alpha(angle), ids, cfg.maxDegree, f, g);
    AcquiredIsAllAcquired(g, d, cfg.candidateK, cfg.searchEf);
    assert RefreshedFrom(d, angle, cfg.candidateK, cfg.searchEf, cfg.maxDegree, lists,
                         Refreshed(d, angle, cfg, lists), f, g);
  }

  /** The state before was not good enough, and this one is a refresh of it. */
  ghost predicate StateFollows(
      d: (int, int) -> real, angle: (int, int, int) -> bool, k: int, ef: int, maxDegree: int,
      enough: seq<seq<Result>> -> bool, states: seq<seq<seq<Result>>>, i: nat)
    requires 1 <= i < |states|
  {
    !enough(states[i - 1]) && RefreshedBy(d, angle, k, ef, maxDegree, states[i - 1], states[i])
  }

  /**
   * The states of the refinement: the first are the given lists, each is a refresh of the one before, which was not
   * good enough, and the last is good enough or the n-th refresh.
   */
  ghost predicate RefinementOf(
      d: (int, int) -> real, angle: (int, int, int) -> bool, k: int, ef: int, maxDegree: int,
      enough: seq<seq<Result>> -> bool, lists: seq<seq<Result>>, n: int, states: seq<seq<seq<Result>>>)
  {
    && states != [] && states[0] == lists
    && (forall i :: 1 <= i < |states| ==> StateFollows(d, angle, k, ef, maxDegree, enough, states, i))
    && (if n <= 0 then |states| == 1 else |states| <= n + 1 && (|states| == n + 1 || enough(states[|states| - 1])))
  }

  lemma {:induction false} RefinedIsRefinement(
      d: (int, int) -> real, angle: (int, int, int) -> bool, cfg: OptKCNAConfig,
      enough: seq<seq<Result>> -> bool, lists: seq<seq<Result>>, n: int) returns (states: seq<seq<seq<Result>>>)
    requires cfg.searchEf > 0
    ensures RefinementOf(d, angle, cfg.candidateK, cfg.searchEf, cfg.maxDegree, enough, lists, n, states)
    ensures states[|states| - 1] == Refined(d, angle, cfg, enough, lists, n)
    decreases n
  {
    hide RefreshedBy, Refreshed;
    if n <= 0 || enough(lists) {
      states := [lists];
    } else {
      var next := Refreshed(d, angle, cfg, lists);
      var rest := RefinedIsRefinement(d, angle, cfg, enough, next, n - 1);
      RefreshIsRefreshed(d, angle, cfg, lists);
      states := [lists] + rest;
      forall i | 1 <= i < |states|
        ensures StateFollows(d, angle, cfg.candidateK, cfg.searchEf, cfg.maxDegree, enough, states, i)
      {
        if i > 1 {
          assert StateFollows(d, angle, cfg.candidateK, cfg.searchEf, cfg.maxDegree, enough, rest, i - 1);
        }
      }
    }
  }

  /**
   * Refreshes until the estimate is high enough. It fails only when a refresh is called for that the parameters do
   * not allow.
   */
  method RefineCandidatesUntilRecall(
      candidates: seq<seq<Result>>, cfg: OptKCNAConfig, d: (int, int) -> real, angle: (int, int, int) -> bool,
      enough: seq<seq<Result>> -> bool, maxIterations: int)
    returns (out: Outcome<seq<seq<Result>>>)
    requires ListsInRange(|candidates|, IdLists(candidates))
    ensures out.Ok? <==> maxIterations <= 0 || enough(candidates) || ValidInput(|candidates|, |candidates|, cfg)
    ensures out.Ok? ==> out.value == Refined(d, angle, cfg, enough, candidates, maxIterations)
  {
    hide Refined;
    var lists, iterations := candidates, 0;
    while iterations < maxIterations && !enough(lists)
      invariant |lists| == |candidates| && ListsInRange(|lists|, IdLists(lists))
      invariant if iterations == 0 then lists == candidates
                else maxIterations > 0 && !enough(candidates) && ValidInput(|lists|, |lists|, cfg)
      invariant Refined(d, angle, cfg, enough, candidates, maxIterations) ==
                Refined(d, angle, cfg, enough, lists, maxIterations - iterations)
      decreases maxIterations - iterations
    {
      var refreshed := RefreshOnce(lists, cfg, d, angle, enough, maxIterations - iterations);
      if refreshed.Err? {
        return refreshed;
      }
      lists := refreshed.value;
      iterations := iterations + 1;
    }
    RefinedDone(d, angle, cfg, enough, lists, maxIterations - iterations);
    out := Ok(lists);
  }

  lemma RefinedDone(
      d: (int, int) -> real, angle: (int, int, int) -> bool, cfg: OptKCNAConfig,
      enough: seq<seq<Result>> -> bool, lists: seq<seq<Result>>, n: int)
    requires n <= 0 || enough(lists)
    ensures Refined(d, angle, cfg, enough, lists, n) == lists
  {
  }

  /** One loop iteration leaves the remaining refinement to do. */
  method RefreshOnce(
      lists: seq<seq<Result>>, cfg: OptKCNAConfig, d: (int, int) -> real, angle: (int, int, int) -> bool,
      ghost enough: seq<seq<Result>> -> bool, ghost left: int)
    returns (out: Outcome<seq<seq<Result>>>)
    requires ListsInRange(|lists|, IdLists(lists)) && left > 0 && !enough(lists)
    ensures out.Ok? <==> ValidInput(|lists|, |lists|, cfg)
    ensures out.Ok? ==>
              var next := out.value;
              && |next| == |lists| && ListsInRange(|next|, IdLists(next))
              && Refined(d, angle, cfg, enough, lists, left) == Refined(d, angle, cfg, enough, next, left - 1)
  {
    InRangeHasNoBad(|lists|, IdLists(lists));
    out := OptKCNA(lists, cfg, |lists|, d, angle);
    RefreshedInRange(d, angle, cfg, lists);
  }
}
