/** One pruned adjacency layer: forward pruning, reverse edges, pruning again. */
module PrunedLayer {
  import opened Order
  import opened Sorting
  import opened Outcomes
  import opened Prune
  import opened Transpose
  import Parallel

  /** RNG for final layers; alpha tests (source, accepted, candidate) on intermediate graphs. */
  datatype PruneMode = RNG | Alpha(angle: (int, int, int) -> bool)

  function FilterOf(mode: PruneMode, source: int): AngleFilter {
    match mode
    case RNG => NoFilter
    case Alpha(angle) => (candidate: int, accepted: int) => angle(source, accepted, candidate)
  }

  // ---------- the layer as a function ----------

  function Pruned(d: (int, int) -> real, mode: PruneMode, lists: seq<seq<int>>, m: int, u: nat): seq<int>
    requires u < |lists|
  {
    Ids(PruneIds(d, FilterOf(mode, u), u, lists[u], m))
  }

  /** Every node's own pruning. */
  function Forward(d: (int, int) -> real, mode: PruneMode, lists: seq<seq<int>>, m: int): (f: seq<seq<int>>)
    ensures |f| == |lists|
    ensures forall u :: 0 <= u < |lists| ==> f[u] == Pruned(d, mode, lists, m, u)
  {
    seq(|lists|, u requires 0 <= u < |lists| => Pruned(d, mode, lists, m, u))
  }

  /** Each node's forward edges and the sources of the edges that reach it. */
  function Merged(forward: seq<seq<int>>): (g: seq<seq<int>>)
    ensures |g| == |forward|
    ensures forall u :: 0 <= u < |forward| ==> g[u] == forward[u] + Sources(forward, u)
  {
    seq(|forward|, u requires 0 <= u < |forward| => forward[u] + Sources(forward, u))
  }

  function Layer(d: (int, int) -> real, mode: PruneMode, lists: seq<seq<int>>, m: int): (g: seq<seq<int>>)
    ensures |g| == |lists|
  {
    Forward(d, mode, Merged(Forward(d, mode, lists, m)), m)
  }

  /** The lowest node whose list names something that is not a node. */
  function FirstBadList(count: int, lists: seq<seq<int>>): Option<int> {
    if lists == [] then None
    else
      var u := |lists| - 1;
      var earlier := FirstBadList(count, lists[..u]);
      if earlier.Some? then earlier else FirstBad(count, u, lists[u])
  }

  lemma {:induction false} InRangeHasNoBad(count: int, lists: seq<seq<int>>)
    requires ListsInRange(count, lists)
    ensures FirstBadList(count, lists) == None
  {
    if lists != [] {
      var u := |lists| - 1;
      InRangeHasNoBad(count, lists[..u]);
      FirstBadExact(count, u, lists[u]);
    }
  }

  /** The list shape of one finished graph layer. */
  ghost predicate ValidLayer(count: int, adj: seq<seq<int>>, m: int) {
    && |adj| == count
    && forall u :: 0 <= u < count ==>
         Distinct(adj[u]) && InRange(count, adj[u]) && u !in adj[u] && |adj[u]| <= m
  }

  /** Pruned lists are distinct, without self, and within the bound; they name only listed candidates. */
  lemma PrunedFacts(d: (int, int) -> real, mode: PruneMode, lists: seq<seq<int>>, m: int, u: nat)
    requires u < |lists|
    ensures var p := Pruned(d, mode, lists, m, u);
            Distinct(p) && u !in p && |p| <= Cap(m) && forall x :: x in p ==> x in lists[u]
  {
    var r := PruneIds(d, FilterOf(mode, u), u, lists[u], m);
    PruneFacts(d, FilterOf(mode, u), u, lists[u], m);
    forall x | x in Ids(r)
      ensures x in lists[u] && x != u
    {
      IdsMember(r, x);
    }
  }

  lemma MergedInRange(lists: seq<seq<int>>)
    requires ListsInRange(|lists|, lists)
    ensures ListsInRange(|lists|, Merged(lists))
  {
    var g := Merged(lists);
    forall u, i | 0 <= u < |lists| && 0 <= i < |g[u]|
      ensures 0 <= g[u][i] < |lists|
    {
      if i >= |lists[u]| {
        assert g[u][i] in Sources(lists, u);
        SourcesMember(lists, u, g[u][i]);
      }
    }
  }

  lemma ForwardInRange(d: (int, int) -> real, mode: PruneMode, lists: seq<seq<int>>, m: int)
    requires forall u :: 0 <= u < |lists| ==> forall x :: x in lists[u] ==> x == u || 0 <= x < |lists|
    ensures ValidLayer(|lists|, Forward(d, mode, lists, m), Cap(m))
    ensures ListsInRange(|lists|, Forward(d, mode, lists, m))
  {
    var f := Forward(d, mode, lists, m);
    forall u | 0 <= u < |lists|
      ensures Distinct(f[u]) && InRange(|lists|, f[u]) && u !in f[u] && |f[u]| <= Cap(m)
    {
      PrunedFacts(d, mode, lists, m, u);
      assert forall i :: 0 <= i < |f[u]| ==> f[u][i] in f[u];
    }
  }

  /** A layer built from in-range candidates is a valid graph layer; a bound below one counts as one. */
  lemma LayerIsValid(d: (int, int) -> real, mode: PruneMode, lists: seq<seq<int>>, m: int)
    requires ListsInRange(|lists|, lists)
    ensures ValidLayer(|lists|, Layer(d, mode, lists, m), Cap(m))
  {
    assert forall u, x :: 0 <= u < |lists| && x in lists[u] ==> 0 <= x < |lists|;
    ForwardInRange(d, mode, lists, m);
    var f := Forward(d, mode, lists, m);
    MergedInRange(f);
    assert forall u, x :: 0 <= u < |lists| && x in Merged(f)[u] ==> 0 <= x < |lists|;
    ForwardInRange(d, mode, Merged(f), m);
  }

  /** Reverse repair: an edge of the finished layer is a forward edge in one direction or the other. */
  lemma LayerEdges(d: (int, int) -> real, mode: PruneMode, lists: seq<seq<int>>, m: int, u: int, v: int)
    requires 0 <= u < |lists| && v in Layer(d, mode, lists, m)[u]
    ensures var f := Forward(d, mode, lists, m);
            v in f[u] || (0 <= v < |lists| && u in f[v])
  {
    var f := Forward(d, mode, lists, m);
    PrunedFacts(d, mode, Merged(f), m, u);
    SourcesMember(f, u, v);
  }

  /** The first neighbour of the finished layer is no farther than any forward neighbour, in either direction. */
  lemma LayerKeepsNearest(d: (int, int) -> real, mode: PruneMode, lists: seq<seq<int>>, m: int, u: int, v: int)
    requires 0 <= u < |lists| && v != u
    requires v in Forward(d, mode, lists, m)[u] ||
             (0 <= v < |lists| && u in Forward(d, mode, lists, m)[v])
    ensures var g := Layer(d, mode, lists, m)[u];
            g != [] && !Better(Result(v, d(u, v)), Result(g[0], d(u, g[0])))
  {
    var f := Forward(d, mode, lists, m);
    SourcesMember(f, u, v);
    assert v in Merged(f)[u];
    var s := Normalize(d, u, Merged(f)[u]);
    NormalizeFacts(d, u, Merged(f)[u]);
    var p := PruneIds(d, FilterOf(mode, u), u, Merged(f)[u], m);
    PruneFacts(d, FilterOf(mode, u), u, Merged(f)[u], m);
    assert p[0] == s[0] && p[0] in p;
    var i :| 0 <= i < |s| && s[i] == Result(v, d(u, v));
    StrictTotalOrder(s[0], s[0], s[0]);
  }

  /** A node with any forward edge, in either direction, is never left isolated. */
  lemma LayerKeepsOne(d: (int, int) -> real, mode: PruneMode, lists: seq<seq<int>>, m: int, u: int, v: int)
    requires 0 <= u < |lists| && v != u
    requires v in Forward(d, mode, lists, m)[u] ||
             (0 <= v < |lists| && u in Forward(d, mode, lists, m)[v])
    ensures Layer(d, mode, lists, m)[u] != []
  {
    var f := Forward(d, mode, lists, m);
    SourcesMember(f, u, v);
    assert v in Merged(f)[u];
    PruneFacts(d, FilterOf(mode, u), u, Merged(f)[u], m);
  }

  // ---------- the layer without the loops ----------

  /** A listed node shadows v for u: nearer to u, nearer to v, and in alpha mode at an angle u-w-v above alpha. */
  ghost predicate Shadowed(d: (int, int) -> real, mode: PruneMode, u: int, list: seq<int>, v: int) {
    exists w :: w in list && Shadows(d, mode, u, w, v)
  }

  ghost predicate Shadows(d: (int, int) -> real, mode: PruneMode, u: int, w: int, v: int) {
    d(u, w) < d(u, v) && d(v, w) < d(u, v) && (mode.Alpha? ==> mode.angle(u, w, v))
  }

  /** The only list pruned from a pool of candidates of u in this mode. */
  ghost predicate PrunedBy(
      d: (int, int) -> real, mode: PruneMode, u: int, pool: set<int>, bound: int, list: seq<int>)
  {
    && |list| <= (if bound < 1 then 1 else bound)
    && (forall i, j :: 0 <= i < j < |list| ==> Before(d, u, list[i], list[j]))
    && (forall v :: v in list ==> v in pool && v != u && !Shadowed(d, mode, u, list, v))
    && (forall v :: v in pool && v != u ==>
          v in list || Shadowed(d, mode, u, list, v) || FullBefore(d, u, bound, list, v))
  }

  lemma ShadowedIsRuledOut(d: (int, int) -> real, mode: PruneMode, u: int, list: seq<int>, v: int)
    ensures Shadowed(d, mode, u, list, v) <==> RuledOut(d, FilterOf(mode, u), u, list, v)
  {
    assert forall w :: Shadows(d, mode, u, w, v) <==> RulesOut(d, FilterOf(mode, u), u, w, v);
  }

  lemma PrunedByIsPrunedTo(
      d: (int, int) -> real, mode: PruneMode, u: int, pool: set<int>, bound: int, list: seq<int>)
    ensures PrunedBy(d, mode, u, pool, bound, list) <==> PrunedTo(d, FilterOf(mode, u), u, pool, bound, list)
  {
    hide Shadowed, RuledOut, Before, FullBefore;
    forall v
      ensures Shadowed(d, mode, u, list, v) <==> RuledOut(d, FilterOf(mode, u), u, list, v)
    {
      ShadowedIsRuledOut(d, mode, u, list, v);
    }
  }

  /** The nodes u is joined to in one direction or the other. */
  ghost function BothWays(f: seq<seq<int>>, u: nat): set<int>
    requires u < |f|
  {
    Elements(f[u]) + set x | 0 <= x < |f| && u in f[x]
  }

  /** Forward lists pruned from the candidates, and final lists pruned from the forward edges taken both ways. */
  ghost predicate LayerFrom(
      d: (int, int) -> real, mode: PruneMode, lists: seq<seq<int>>, m: int, f: seq<seq<int>>, g: seq<seq<int>>)
  {
    && |f| == |g| == |lists|
    && (forall u :: 0 <= u < |lists| ==> PrunedBy(d, mode, u, Elements(lists[u]), m, f[u]))
    && (forall u :: 0 <= u < |lists| ==> PrunedBy(d, mode, u, BothWays(f, u), m, g[u]))
  }

  lemma PrunedExactlyBy(
      d: (int, int) -> real, mode: PruneMode, lists: seq<seq<int>>, m: int, u: nat, list: seq<int>)
    requires u < |lists|
    ensures PrunedBy(d, mode, u, Elements(lists[u]), m, list) <==> list == Pruned(d, mode, lists, m, u)
  {
    PrunedByIsPrunedTo(d, mode, u, Elements(lists[u]), m, list);
    PrunedExactly(d, FilterOf(mode, u), u, lists[u], m, list);
  }

  lemma MergedIsBothWays(f: seq<seq<int>>, u: nat)
    requires u < |f|
    ensures Elements(Merged(f)[u]) == BothWays(f, u)
  {
    forall x
      ensures x in Elements(Merged(f)[u]) <==> x in BothWays(f, u)
    {
      SourcesMember(f, u, x);
    }
  }

  /** The rule determines the layer, and the loops build it. */
  lemma LayerExactly(
      d: (int, int) -> real, mode: PruneMode, lists: seq<seq<int>>, m: int, f: seq<seq<int>>, g: seq<seq<int>>)
    ensures LayerFrom(d, mode, lists, m, f, g) <==>
            f == Forward(d, mode, lists, m) && g == Layer(d, mode, lists, m)
  {
    hide PrunedBy, Pruned, Merged, BothWays;
    if |f| == |g| == |lists| {
      forall u: nat | u < |lists|
        ensures PrunedBy(d, mode, u, Elements(lists[u]), m, f[u]) <==> f[u] == Pruned(d, mode, lists, m, u)
        ensures PrunedBy(d, mode, u, BothWays(f, u), m, g[u]) <==> g[u] == Pruned(d, mode, Merged(f), m, u)
      {
        PrunedExactlyBy(d, mode, lists, m, u, f[u]);
        MergedIsBothWays(f, u);
        PrunedExactlyBy(d, mode, Merged(f), m, u, g[u]);
      }
      assert f == Forward(d, mode, lists, m) <==> forall u :: 0 <= u < |f| ==> f[u] == Pruned(d, mode, lists, m, u);
      assert g == Forward(d, mode, Merged(f), m) <==>
             forall u :: 0 <= u < |g| ==> g[u] == Pruned(d, mode, Merged(f), m, u);
    }
  }

  /**
   * In a finished RNG layer no neighbour of u is nearer to a farther neighbour of u than u is, and every node u was
   * joined to is still listed, or has such a neighbour in the list, or is farther than a full list.
   */
  lemma LayerIsRNG(d: (int, int) -> real, lists: seq<seq<int>>, m: int, u: nat, v: int)
    requires u < |lists|
    ensures var g, f := Layer(d, RNG, lists, m)[u], Forward(d, RNG, lists, m);
            && (v in g ==> forall w :: w in g && d(u, w) < d(u, v) ==> d(v, w) >= d(u, v))
            && (v != u && (v in f[u] || (0 <= v < |f| && u in f[v])) ==>
                  || v in g
                  || (exists w :: w in g && d(u, w) < d(u, v) && d(v, w) < d(u, v))
                  || (|g| == Cap(m) && forall w :: w in g ==> d(u, w) <= d(u, v)))
  {
    var g, f := Layer(d, RNG, lists, m), Forward(d, RNG, lists, m);
    LayerExactly(d, RNG, lists, m, f, g);
    assert PrunedBy(d, RNG, u, BothWays(f, u), m, g[u]);
    if v in g[u] {
      forall w | w in g[u] && d(u, w) < d(u, v)
        ensures d(v, w) >= d(u, v)
      {
        assert !Shadowed(d, RNG, u, g[u], v);
        assert !Shadows(d, RNG, u, w, v);
      }
    } else if v != u && v in BothWays(f, u) && Shadowed(d, RNG, u, g[u], v) {
      var w :| w in g[u] && Shadows(d, RNG, u, w, v);
    }
  }

  // ---------- the loops ----------

  /** One node's work: the outcome of its own pruning. */
  function NodeOutcome(candidates: seq<seq<Result>>, maxDegree: int, mode: PruneMode, d: (int, int) -> real, u: int)
    : Outcome<seq<Result>>
  {
    if 0 <= u < |candidates| then
      PruneOutcome(|candidates|, d, FilterOf(mode, u), u, Ids(candidates[u]), maxDegree)
    else Err(CandidateOutOfRange(u))
  }

  function OutcomeOf(candidates: seq<seq<Result>>, maxDegree: int, mode: PruneMode, d: (int, int) -> real)
    : int -> Outcome<seq<Result>>
  {
    (u: int) => NodeOutcome(candidates, maxDegree, mode, d, u)
  }

  /** Pruning needs no worker-local scratch. */
  function PruneWork(candidates: seq<seq<Result>>, maxDegree: int, mode: PruneMode, d: (int, int) -> real)
    : Parallel.Work<(), seq<Result>>
  {
    (scratch: (), u: int) => (scratch, NodeOutcome(candidates, maxDegree, mode, d, u))
  }

  lemma NodeFails(
      candidates: seq<seq<Result>>, maxDegree: int, mode: PruneMode, d: (int, int) -> real, u: nat)
    requires u < |candidates| && maxDegree >= 0
    ensures match FirstBad(|candidates|, u, Ids(candidates[u]))
            case None => NodeOutcome(candidates, maxDegree, mode, d, u).Ok?
            case Some(id) => NodeOutcome(candidates, maxDegree, mode, d, u) == Err(CandidateOutOfRange(id))
  {
  }

  /** The lowest failing node is the lowest node with a bad candidate. */
  lemma {:induction false} FirstErrorIsFirstBad(
      candidates: seq<seq<Result>>, maxDegree: int, mode: PruneMode, d: (int, int) -> real, n: nat)
    requires n <= |candidates| && maxDegree >= 0
    ensures Parallel.FirstError(OutcomeOf(candidates, maxDegree, mode, d), n) ==
            match FirstBadList(|candidates|, IdLists(candidates)[..n])
            case None => None
            case Some(id) => Some(CandidateOutOfRange(id))
  {
    var lists := IdLists(candidates);
    if n > 0 {
      FirstErrorIsFirstBad(candidates, maxDegree, mode, d, n - 1);
      NodeFails(candidates, maxDegree, mode, d, n - 1);
      hide NodeOutcome, FirstBad;
      assert lists[..n][..n - 1] == lists[..n - 1];
      assert lists[..n][n - 1] == Ids(candidates[n - 1]);
    }
  }

  lemma AllPruned(
      candidates: seq<seq<Result>>, maxDegree: int, mode: PruneMode, d: (int, int) -> real, pruned: seq<seq<Result>>)
    requires |pruned| == |candidates|
    requires maxDegree >= 0
    requires forall u :: 0 <= u < |candidates| ==> NodeOutcome(candidates, maxDegree, mode, d, u) == Ok(pruned[u])
    ensures IdLists(pruned) == Forward(d, mode, IdLists(candidates), maxDegree)
  {
    var lists := IdLists(candidates);
    forall u | 0 <= u < |candidates|
      ensures Ids(pruned[u]) == Pruned(d, mode, lists, maxDegree, u)
    {
      assert NodeOutcome(candidates, maxDegree, mode, d, u) == Ok(pruned[u]);
    }
  }

  /** With a negative bound the first node already fails. */
  lemma NegativeBoundFails(candidates: seq<seq<Result>>, maxDegree: int, mode: PruneMode, d: (int, int) -> real)
    requires candidates != [] && maxDegree < 0
    ensures Parallel.FirstError(OutcomeOf(candidates, maxDegree, mode, d), |candidates|).Some?
  {
    var pure := OutcomeOf(candidates, maxDegree, mode, d);
    assert pure(0).Err?;
    assert Parallel.FirstError(pure, 1).Some?;
    Parallel.FirstErrorStays(pure, 1, |candidates|);
  }

  /** Prune every node in parallel: the same lists, or the same lowest-id error, for any number of workers. */
  method PruneEach(
      candidates: seq<seq<Result>>, maxDegree: int, mode: PruneMode, d: (int, int) -> real, workers: int)
    returns (out: Outcome<seq<seq<Result>>>)
    ensures maxDegree >= 0 ==>
              var bad := FirstBadList(|candidates|, IdLists(candidates));
              if bad.Some? then out == Err(CandidateOutOfRange(bad.value))
              else out.Ok? && IdLists(out.value) == Forward(d, mode, IdLists(candidates), maxDegree)
    ensures maxDegree < 0 && candidates != [] ==> out.Err?
  {
    var count := |candidates|;
    ghost var pure := OutcomeOf(candidates, maxDegree, mode, d);
    if maxDegree >= 0 {
      FirstErrorIsFirstBad(candidates, maxDegree, mode, d, count);
    } else if candidates != [] {
      NegativeBoundFails(candidates, maxDegree, mode, d);
    }
    assert IdLists(candidates)[..count] == IdLists(candidates);
    var scratch := seq(Parallel.EffectiveWorkerCount(workers, count), _ => ());
    var slots, err, _ := Parallel.ParallelForNodes(
      count, workers, PruneWork(candidates, maxDegree, mode, d), scratch, (s: ()) => true, pure);
    if err.Some? {
      return Err(err.value);
    }
    assert forall u :: 0 <= u < count ==> pure(u).Ok? && slots[u] == Some(pure(u).value);
    var pruned := seq(count, u requires 0 <= u < count => slots[u].value);
    if maxDegree >= 0 {
      AllPruned(candidates, maxDegree, mode, d, pruned);
    }
    return Ok(pruned);
  }

  /** Append u to the list of every id in `ids`. */
  function AddReverse(g: seq<seq<int>>, u: int, ids: seq<int>): (r: seq<seq<int>>)
    requires InRange(|g|, ids)
    ensures |r| == |g|
  {
    if ids == [] then g
    else
      var v := ids[|ids| - 1];
      var h := AddReverse(g, u, ids[..|ids| - 1]);
      h[v := h[v] + [u]]
  }

  /** The merged lists after the first u sources. */
  function MergeUpTo(f: seq<seq<int>>, u: nat): (g: seq<seq<int>>)
    requires u <= |f| && ListsInRange(|f|, f)
    ensures |g| == |f|
  {
    if u == 0 then seq(|f|, _ => [])
    else
      var g := MergeUpTo(f, u - 1);
      AddReverse(g[u - 1 := g[u - 1] + f[u - 1]], u - 1, f[u - 1])
  }

  lemma {:induction false} AddReverseMember(g: seq<seq<int>>, u: int, ids: seq<int>, v: nat, x: int)
    requires InRange(|g|, ids) && v < |g|
    ensures x in AddReverse(g, u, ids)[v] <==> x in g[v] || (x == u && v in ids)
  {
    if ids != [] {
      AddReverseMember(g, u, ids[..|ids| - 1], v, x);
      assert ids == ids[..|ids| - 1] + [ids[|ids| - 1]];
    }
  }

  lemma {:induction false} MergeMember(f: seq<seq<int>>, u: nat, v: nat, x: int)
    requires u <= |f| && v < |f| && ListsInRange(|f|, f)
    ensures x in MergeUpTo(f, u)[v] <==> (v < u && x in f[v]) || (0 <= x < u && v in f[x])
  {
    if u > 0 {
      var g := MergeUpTo(f, u - 1);
      MergeMember(f, u - 1, v, x);
      AddReverseMember(g[u - 1 := g[u - 1] + f[u - 1]], u - 1, f[u - 1], v, x);
    }
  }

  /** The list of u behind what others have appended to it, then u behind the list of each of its neighbours. */
  method MergeNode(before: seq<seq<Result>>, u: nat, list: seq<Result>, ghost f: seq<seq<int>>)
    returns (merged: seq<seq<Result>>)
    requires u < |f| && ListsInRange(|f|, f) && Ids(list) == f[u]
    requires |before| == |f| && IdLists(before) == MergeUpTo(f, u)
    ensures |merged| == |f| && IdLists(merged) == MergeUpTo(f, u + 1)
  {
    ghost var g := MergeUpTo(f, u);
    ghost var start := g[u := g[u] + f[u]];
    merged := before;
    assert Ids(merged[u] + list) == g[u] + f[u];
    merged := merged[u := merged[u] + list];
    assert IdLists(merged) == start;
    for j := 0 to |list|
      invariant |merged| == |f| && IdLists(merged) == AddReverse(start, u, f[u][..j])
    {
      var neighbor := list[j].id;
      ghost var h := IdLists(merged);
      assert f[u][j] == neighbor;
      assert f[u][..j + 1][..j] == f[u][..j];
      assert Ids(merged[neighbor] + [Result(u, 0.0)]) == h[neighbor] + [u];
      merged := merged[neighbor := merged[neighbor] + [Result(u, 0.0)]];
      assert IdLists(merged) == h[neighbor := h[neighbor] + [u]];
    }
    assert f[u][..|list|] == f[u];
  }

  /** Append every pruned edge in both directions. */
  method MergeReverse(forward: seq<seq<Result>>) returns (merged: seq<seq<Result>>)
    requires ListsInRange(|forward|, IdLists(forward))
    ensures IdLists(merged) == MergeUpTo(IdLists(forward), |forward|)
  {
    var count := |forward|;
    merged := seq(count, _ => []);
    ghost var f := IdLists(forward);
    assert IdLists(merged) == MergeUpTo(f, 0);
    hide MergeUpTo;
    for u := 0 to count
      invariant |merged| == count && IdLists(merged) == MergeUpTo(f, u)
    {
      merged := MergeNode(merged, u, forward[u], f);
    }
  }

  /**
   * Forward pruning, reverse merging, and pruning again. A bound below one still keeps one neighbour; a negative
   * one is fatal unless there is nothing to prune.
   */
  method BuildPrunedLayer(
      candidates: seq<seq<Result>>, maxDegree: int, mode: PruneMode, d: (int, int) -> real, workers: int)
    returns (out: Outcome<seq<seq<int>>>)
    ensures maxDegree >= 0 || candidates == [] ==>
              var bad := FirstBadList(|candidates|, IdLists(candidates));
              out == if bad.Some? then Err(CandidateOutOfRange(bad.value))
                     else Ok(Layer(d, mode, IdLists(candidates), maxDegree))
    ensures maxDegree < 0 && candidates != [] ==> out.Err?
  {
    var count := |candidates|;
    if count == 0 {
      assert Layer(d, mode, IdLists(candidates), maxDegree) == [];
      return Ok([]);
    }
    ghost var lists := IdLists(candidates);
    var first := PruneEach(candidates, maxDegree, mode, d, workers);
    if first.Err? {
      return Err(first.error);
    }
    ghost var f := Forward(d, mode, lists, maxDegree);
    NoBadIsInRange(count, lists);
    ForwardInRange(d, mode, lists, maxDegree);
    var merged := MergeReverse(first.value);
    SameLayer(d, mode, f, maxDegree);
    var second := PruneEach(merged, maxDegree, mode, d, workers);
    match second {
      case Err(error) => return Err(error);
      case Ok(pruned) => return Ok(IdLists(pruned));
    }
  }

  lemma {:induction false} NoBadIsInRange(count: int, lists: seq<seq<int>>)
    requires FirstBadList(count, lists) == None
    ensures forall u, x :: 0 <= u < |lists| && x in lists[u] ==> x == u || 0 <= x < count
  {
    if lists != [] {
      var last := |lists| - 1;
      NoBadIsInRange(count, lists[..last]);
      FirstBadExact(count, last, lists[last]);
    }
  }

  lemma SameNode(d: (int, int) -> real, mode: PruneMode, f: seq<seq<int>>, m: int, u: nat)
    requires u < |f| && ListsInRange(|f|, f)
    ensures Pruned(d, mode, MergeUpTo(f, |f|), m, u) == Pruned(d, mode, Merged(f), m, u)
  {
    var a, b := MergeUpTo(f, |f|)[u], Merged(f)[u];
    forall x
      ensures x in a <==> x in b
    {
      SourcesMember(f, u, x);
      MergeMember(f, |f|, u, x);
    }
    PruneIsSetFunction(|f|, d, FilterOf(mode, u), u, a, b, m);
  }

  /** The append order of the merge does not matter to the second pruning. */
  lemma SameLayer(d: (int, int) -> real, mode: PruneMode, f: seq<seq<int>>, m: int)
    requires ListsInRange(|f|, f)
    ensures FirstBadList(|f|, MergeUpTo(f, |f|)) == None
    ensures Forward(d, mode, MergeUpTo(f, |f|), m) == Forward(d, mode, Merged(f), m)
  {
    var merged := MergeUpTo(f, |f|);
    forall u, i | 0 <= u < |f| && 0 <= i < |merged[u]|
      ensures 0 <= merged[u][i] < |f|
    {
      assert merged[u][i] in merged[u];
      MergeMember(f, |f|, u, merged[u][i]);
    }
    InRangeHasNoBad(|f|, merged);
    forall u | 0 <= u < |f|
      ensures Forward(d, mode, merged, m)[u] == Forward(d, mode, Merged(f), m)[u]
    {
      SameNode(d, mode, f, m, u);
    }
  }
}
