/** The incremental HNSW baseline: insertion with neighbour selection and reverse-edge shrinking. */
module StandardHNSW {
  import opened Order
  import opened Sorting
  import opened Scans
  import opened Outcomes
  import opened Prune
  import opened Collector
  import opened Beams
  import opened BeamTheorems
  import opened GraphSearch
  import opened Config
  import opened Layout
  import opened Graphs

  // ---------- neighbour selection ----------

  /** A selected neighbour crowds out a candidate that is nearer to it than to the source. */
  predicate Crowds(d: (int, int) -> real, w: Result, v: Result) {
    d(v.id, w.id) < v.distance
  }

  predicate Crowded(d: (int, int) -> real, selected: seq<Result>, v: Result) {
    exists i :: 0 <= i < |selected| && Crowds(d, selected[i], v)
  }

  /** Greedy selection, nearest first, without a bound. */
  function Diverse(d: (int, int) -> real, s: seq<Result>): seq<Result> {
    if s == [] then []
    else
      var selected := Diverse(d, s[..|s| - 1]);
      if Crowded(d, selected, s[|s| - 1]) then selected else selected + [s[|s| - 1]]
  }

  /** Distances with the candidate's vector first, as a query takes them. */
  function Flip(d: (int, int) -> real): (int, int) -> real {
    (a: int, b: int) => d(b, a)
  }

  /** Candidates scored against the source's stored vector, nearest first. */
  function Scored(d: (int, int) -> real, source: int, ids: seq<int>): seq<Result> {
    Normalize(Flip(d), source, ids)
  }

  function Selected(d: (int, int) -> real, source: int, ids: seq<int>, maxDegree: int): seq<int> {
    Ids(Take(Diverse(d, Scored(d, source, ids)), maxDegree))
  }

  lemma {:induction false} DiversePrefix(d: (int, int) -> real, s: seq<Result>, i: nat)
    requires i <= |s|
    ensures Diverse(d, s[..i]) <= Diverse(d, s)
  {
    if i == |s| {
      assert s[..i] == s;
    } else {
      assert s[..|s| - 1][..i] == s[..i];
      DiversePrefix(d, s[..|s| - 1], i);
    }
  }

  lemma {:induction false} DiverseMember(d: (int, int) -> real, s: seq<Result>, r: Result)
    ensures r in Diverse(d, s) ==> r in s
  {
    if s != [] {
      DiverseMember(d, s[..|s| - 1], r);
      assert s == s[..|s| - 1] + [s[|s| - 1]];
    }
  }

  lemma {:induction false} DiverseDistinct(d: (int, int) -> real, s: seq<Result>)
    requires Distinct(Ids(s))
    ensures Distinct(Ids(Diverse(d, s)))
  {
    if s != [] {
      var front, last := s[..|s| - 1], s[|s| - 1];
      DistinctIdsFront(s);
      DiverseDistinct(d, front);
      var k := Diverse(d, front);
      forall i | 0 <= i < |k|
        ensures k[i].id != last.id
      {
        DiverseMember(d, front, k[i]);
        assert k[i] in k;
        var j :| 0 <= j < |front| && front[j] == k[i];
        assert Ids(s)[j] != Ids(s)[|s| - 1];
      }
    }
  }

  /** Selected neighbours never crowd each other: each is nearer to the source than to earlier ones. */
  lemma {:induction false} DiverseIsDiverse(d: (int, int) -> real, s: seq<Result>, i: nat, j: nat)
    requires i < j < |Diverse(d, s)|
    ensures !Crowds(d, Diverse(d, s)[i], Diverse(d, s)[j])
  {
    var front := s[..|s| - 1];
    if j < |Diverse(d, front)| {
      DiverseIsDiverse(d, front, i, j);
    }
  }

  lemma ScoredFacts(d: (int, int) -> real, source: int, ids: seq<int>)
    ensures var s := Scored(d, source, ids);
            && Sorted(s) && Distinct(Ids(s))
            && (forall r :: r in s <==> r.id in ids && r.id != source && r.distance == d(r.id, source))
  {
    NormalizeFacts(Flip(d), source, ids);
    forall r: Result | r.id in ids && r.id != source && r.distance == d(r.id, source)
      ensures r in Scored(d, source, ids)
    {
      assert r == Result(r.id, Flip(d)(source, r.id));
    }
  }

  /** Selection returns distinct listed neighbours within the bound, and the nearest one always. */
  lemma SelectedFacts(d: (int, int) -> real, source: int, ids: seq<int>, maxDegree: int)
    requires maxDegree >= 1
    ensures var t := Selected(d, source, ids, maxDegree);
            && Distinct(t) && |t| <= maxDegree && source !in t
            && (forall x :: x in t ==> x in ids)
            && ((exists x :: x in ids && x != source) ==> t != [] && t[0] == Scored(d, source, ids)[0].id)
  {
    var s := Scored(d, source, ids);
    var k := Diverse(d, s);
    var t := Selected(d, source, ids, maxDegree);
    ScoredFacts(d, source, ids);
    DiverseDistinct(d, s);
    assert forall i :: 0 <= i < |t| ==> t[i] == Ids(k)[i];
    forall x | x in t
      ensures x in ids && x != source
    {
      var i :| 0 <= i < |t| && t[i] == x;
      DiverseMember(d, s, k[i]);
      assert k[i] in k;
    }
    if exists x :: x in ids && x != source {
      var x :| x in ids && x != source;
      assert Result(x, d(x, source)) in s;
      FirstIsSelected(d, s);
    }
  }

  lemma FirstIsSelected(d: (int, int) -> real, s: seq<Result>)
    requires s != []
    ensures Diverse(d, s) != [] && Diverse(d, s)[0] == s[0]
  {
    DiversePrefix(d, s, 1);
    assert s[..1][..0] == [];
    assert Diverse(d, s[..1]) == [s[0]];
  }

  method IsCrowded(d: (int, int) -> real, selected: seq<Result>, candidate: Result) returns (crowded: bool)
    ensures crowded <==> Crowded(d, selected, candidate)
  {
    for j := 0 to |selected|
      invariant forall i :: 0 <= i < j ==> !Crowds(d, selected[i], candidate)
    {
      if d(candidate.id, selected[j].id) < candidate.distance {
        assert Crowds(d, selected[j], candidate);
        return true;
      }
    }
    return false;
  }

  function SelectOutcome(count: int, d: (int, int) -> real, source: int, ids: seq<int>, maxDegree: int)
    : Outcome<seq<int>>
  {
    if maxDegree <= 0 then Err(MaxDegreeNotPositive)
    else
      match FirstBad(count, source, ids)
      case Some(id) => Err(CandidateOutOfRange(id))
      case None => Ok(Selected(d, source, ids, maxDegree))
  }

  method SelectNeighbors(count: nat, d: (int, int) -> real, source: int, candidates: seq<Result>, maxDegree: int)
    returns (out: Outcome<seq<int>>)
    ensures out == SelectOutcome(count, d, source, Ids(candidates), maxDegree)
  {
    if maxDegree <= 0 {
      return Err(MaxDegreeNotPositive);
    }
    var normalized := NormalizePruneCandidates(count, Flip(d), source, candidates);
    match normalized {
      case Err(error) => return Err(error);
      case Ok(list) =>
        var selected := SelectDiverse(d, list, maxDegree);
        return Ok(Ids(selected));
    }
  }

  method SelectDiverse(d: (int, int) -> real, list: seq<Result>, maxDegree: int) returns (selected: seq<Result>)
    requires maxDegree >= 1
    ensures selected == Take(Diverse(d, list), maxDegree)
  {
    selected := [];
    for i := 0 to |list|
      invariant selected == Diverse(d, list[..i]) && |selected| < maxDegree
    {
      assert list[..i + 1][..i] == list[..i];
      var crowded := IsCrowded(d, selected, list[i]);
      if !crowded {
        selected := selected + [list[i]];
        if |selected| >= maxDegree {
          assert selected == Diverse(d, list[..i + 1]);
          DiversePrefix(d, list, i + 1);
          assert Diverse(d, list)[..maxDegree] == selected;
          return;
        }
      }
    }
    assert list[..|list|] == list;
  }

  // ---------- connecting one node on one layer ----------

  function AppendUnique(values: seq<int>, value: int): seq<int> {
    if value in values then values else values + [value]
  }

  /** A neighbour's list after the reverse edge, shrunk when it overflows. */
  function Linked(d: (int, int) -> real, neighbor: int, list: seq<int>, source: int, maxDegree: int): seq<int> {
    var longer := AppendUnique(list, source);
    if |longer| > maxDegree then Selected(d, neighbor, longer, maxDegree) else longer
  }

  /** The layer after the reverse edges of the first j neighbours. */
  function LinkAll(
      d: (int, int) -> real, adj: seq<seq<int>>, source: int, neighbors: seq<int>, maxDegree: int)
    : (r: seq<seq<int>>)
    requires InRange(|adj|, neighbors)
    ensures |r| == |adj|
  {
    if neighbors == [] then adj
    else
      var rest := LinkAll(d, adj, source, neighbors[..|neighbors| - 1], maxDegree);
      var n := neighbors[|neighbors| - 1];
      rest[n := Linked(d, n, rest[n], source, maxDegree)]
  }

  function Connected(
      d: (int, int) -> real, adj: seq<seq<int>>, source: int, neighbors: seq<int>, maxDegree: int)
    : (r: seq<seq<int>>)
    requires 0 <= source < |adj| && InRange(|adj|, neighbors)
    ensures |r| == |adj|
  {
    LinkAll(d, adj[source := neighbors], source, neighbors, maxDegree)
  }

  /** The nodes inserted so far that live on the layer. */
  predicate Lives(levels: seq<int>, layer: int, inserted: int, u: int) {
    0 <= u < inserted <= |levels| && levels[u] >= layer
  }

  ghost predicate NodeOk(levels: seq<int>, layer: int, maxDegree: int, inserted: int, u: int, list: seq<int>) {
    if Lives(levels, layer, inserted, u) then
      && |list| <= maxDegree && Distinct(list) && u !in list
      && forall v :: v in list ==> Lives(levels, layer, inserted, v)
    else list == []
  }

  ghost predicate LayerOk(levels: seq<int>, layer: int, maxDegree: int, inserted: int, adj: seq<seq<int>>) {
    |adj| == |levels| && forall u :: 0 <= u < |adj| ==> NodeOk(levels, layer, maxDegree, inserted, u, adj[u])
  }

  /** A reverse edge keeps a neighbour's list valid and non-empty, shrunk or not. */
  lemma LinkedFacts(
      d: (int, int) -> real, levels: seq<int>, layer: int, maxDegree: int, inserted: int, n: int, list: seq<int>,
      source: int)
    requires maxDegree >= 1 && NodeOk(levels, layer, maxDegree, inserted, n, list)
    requires Lives(levels, layer, inserted, n) && Lives(levels, layer, inserted, source) && n != source
    ensures NodeOk(levels, layer, maxDegree, inserted, n, Linked(d, n, list, source, maxDegree))
    ensures Linked(d, n, list, source, maxDegree) != []
  {
    var longer := AppendUnique(list, source);
    assert source in longer;
    SelectedFacts(d, n, longer, maxDegree);
  }

  lemma {:induction false} LinkAllFacts(
      d: (int, int) -> real, levels: seq<int>, layer: int, maxDegree: int, inserted: int, adj: seq<seq<int>>,
      source: int, neighbors: seq<int>)
    requires maxDegree >= 1 && LayerOk(levels, layer, maxDegree, inserted, adj)
    requires Lives(levels, layer, inserted, source) && InRange(|adj|, neighbors)
    requires forall n :: n in neighbors ==> Lives(levels, layer, inserted, n) && n != source
    ensures var r := LinkAll(d, adj, source, neighbors, maxDegree);
            && LayerOk(levels, layer, maxDegree, inserted, r)
            && r[source] == adj[source]
            && (forall u :: 0 <= u < |adj| ==> (u in neighbors || adj[u] != [] ==> r[u] != []))
  {
    if neighbors != [] {
      var front, n := neighbors[..|neighbors| - 1], neighbors[|neighbors| - 1];
      assert neighbors == front + [n];
      LinkAllFacts(d, levels, layer, maxDegree, inserted, adj, source, front);
      var rest := LinkAll(d, adj, source, front, maxDegree);
      assert n in neighbors;
      LinkedFacts(d, levels, layer, maxDegree, inserted, n, rest[n], source);
    }
  }

  /** Counting the new node as inserted changes nothing on a layer it has no edges on. */
  lemma LayerGrows(levels: seq<int>, layer: int, maxDegree: int, node: int, adj: seq<seq<int>>)
    requires 0 <= node < |levels| && maxDegree >= 0 && LayerOk(levels, layer, maxDegree, node, adj)
    ensures LayerOk(levels, layer, maxDegree, node + 1, adj)
  {
    forall u | 0 <= u < |adj|
      ensures NodeOk(levels, layer, maxDegree, node + 1, u, adj[u])
    {
      assert NodeOk(levels, layer, maxDegree, node, u, adj[u]);
    }
  }

  lemma StartOk(
      levels: seq<int>, layer: int, maxDegree: int, node: int, adj: seq<seq<int>>, neighbors: seq<int>)
    requires 0 <= node < |levels| && levels[node] >= layer && maxDegree >= 1
    requires LayerOk(levels, layer, maxDegree, node, adj)
    requires Distinct(neighbors) && |neighbors| <= maxDegree
    requires forall n :: n in neighbors ==> Lives(levels, layer, node, n)
    ensures LayerOk(levels, layer, maxDegree, node + 1, adj[node := neighbors])
  {
    LayerGrows(levels, layer, maxDegree, node, adj);
    var start := adj[node := neighbors];
    forall u | 0 <= u < |start|
      ensures NodeOk(levels, layer, maxDegree, node + 1, u, start[u])
    {
      assert NodeOk(levels, layer, maxDegree, node + 1, u, adj[u]);
    }
  }

  /** Connecting a new node keeps the layer valid; it and all its neighbours end up with an edge. */
  lemma ConnectedFacts(
      d: (int, int) -> real, levels: seq<int>, layer: int, maxDegree: int, node: int, adj: seq<seq<int>>,
      neighbors: seq<int>)
    requires 0 <= node < |levels| && levels[node] >= layer && maxDegree >= 1
    requires LayerOk(levels, layer, maxDegree, node, adj)
    requires Distinct(neighbors) && |neighbors| <= maxDegree
    requires forall n :: n in neighbors ==> Lives(levels, layer, node, n)
    ensures InRange(|adj|, neighbors)
    ensures var r := Connected(d, adj, node, neighbors, maxDegree);
            && LayerOk(levels, layer, maxDegree, node + 1, r)
            && r[node] == neighbors
            && (forall u :: 0 <= u < |adj| && u != node ==> (u in neighbors || adj[u] != [] ==> r[u] != []))
  {
    assert forall i :: 0 <= i < |neighbors| ==> neighbors[i] in neighbors;
    StartOk(levels, layer, maxDegree, node, adj, neighbors);
    var start := adj[node := neighbors];
    LinkAllFacts(d, levels, layer, maxDegree, node + 1, start, node, neighbors);
  }

  /** Scores of a neighbour's own list, skipping itself. */
  method ResultsFromNeighborIDs(d: (int, int) -> real, source: int, ids: seq<int>) returns (results: seq<Result>)
    ensures Ids(results) == Without(ids, source)
  {
    results := [];
    for i := 0 to |ids|
      invariant Ids(results) == Without(ids[..i], source)
    {
      WithoutStep(ids, i, source);
      if ids[i] == source {
        continue;
      }
      results := results + [Result(ids[i], d(ids[i], source))];
    }
    assert ids[..|ids|] == ids;
  }

  lemma FirstBadSnoc(count: int, source: int, ids: seq<int>, id: int)
    ensures FirstBad(count, source, ids + [id]) ==
            if FirstBad(count, source, ids).Some? then FirstBad(count, source, ids)
            else if id != source && !(0 <= id < count) then Some(id) else None
  {
    assert (ids + [id])[..|ids|] == ids;
  }

  lemma {:induction false} FirstBadWithout(count: int, source: int, ids: seq<int>)
    ensures FirstBad(count, source, Without(ids, source)) == FirstBad(count, source, ids)
  {
    if ids == [] {
      assert Without(ids, source) == ids;
    } else {
      var front, last := ids[..|ids| - 1], ids[|ids| - 1];
      FirstBadWithout(count, source, front);
      assert ids == front + [last];
      FirstBadSnoc(count, source, front, last);
      if last == source {
        assert Without(ids, source) == Without(front, source);
      } else {
        assert Without(ids, source) == Without(front, source) + [last];
        FirstBadSnoc(count, source, Without(front, source), last);
      }
    }
  }

  /** Selecting skips the source itself anyway. */
  lemma SelectWithout(count: int, d: (int, int) -> real, source: int, ids: seq<int>, maxDegree: int)
    ensures SelectOutcome(count, d, source, Without(ids, source), maxDegree) ==
            SelectOutcome(count, d, source, ids, maxDegree)
  {
    FirstBadWithout(count, source, ids);
    forall x | x != source
      ensures x in Without(ids, source) <==> x in ids
    {
      WithoutMember(ids, source, x);
    }
    NormalizeSet(Flip(d), source, Without(ids, source), ids);
  }

  /** A neighbour's list after the reverse edge, or why it cannot be shrunk. */
  function LinkOutcome(
      count: int, d: (int, int) -> real, neighbor: int, list: seq<int>, source: int, maxDegree: int)
    : Outcome<seq<int>>
  {
    var longer := AppendUnique(list, source);
    if |longer| <= maxDegree then Ok(longer) else SelectOutcome(count, d, neighbor, longer, maxDegree)
  }

  /** The reverse edges of the neighbours one after another, up to the first failure. */
  function LinkEach(d: (int, int) -> real, adj: seq<seq<int>>, source: int, neighbors: seq<int>, maxDegree: int)
    : (out: Outcome<seq<seq<int>>>)
    ensures out.Ok? ==> |out.value| == |adj|
  {
    if neighbors == [] then Ok(adj)
    else
      match LinkEach(d, adj, source, neighbors[..|neighbors| - 1], maxDegree)
      case Err(error) => Err(error)
      case Ok(rest) => LinkOne(d, rest, source, neighbors[|neighbors| - 1], maxDegree)
  }

  function LinkOne(d: (int, int) -> real, g: seq<seq<int>>, source: int, n: int, maxDegree: int)
    : (out: Outcome<seq<seq<int>>>)
    ensures out.Ok? ==> |out.value| == |g|
  {
    if n < 0 || n >= |g| then Err(NeighbourOutOfRange(n))
    else
      match LinkOutcome(|g|, d, n, g[n], source, maxDegree)
      case Err(error) => Err(error)
      case Ok(list) => Ok(g[n := list])
  }

  lemma {:induction false} LinkFails(
      d: (int, int) -> real, adj: seq<seq<int>>, source: int, neighbors: seq<int>, maxDegree: int, j: nat)
    requires j <= |neighbors| && LinkEach(d, adj, source, neighbors[..j], maxDegree).Err?
    ensures LinkEach(d, adj, source, neighbors, maxDegree) == LinkEach(d, adj, source, neighbors[..j], maxDegree)
  {
    if j == |neighbors| {
      assert neighbors[..j] == neighbors;
    } else {
      assert neighbors[..|neighbors| - 1][..j] == neighbors[..j];
      LinkFails(d, adj, source, neighbors[..|neighbors| - 1], maxDegree, j);
    }
  }

  lemma LinkOneSucceeds(
      d: (int, int) -> real, levels: seq<int>, layer: int, maxDegree: int, inserted: int, g: seq<seq<int>>,
      source: int, n: int)
    requires maxDegree >= 1 && LayerOk(levels, layer, maxDegree, inserted, g)
    requires Lives(levels, layer, inserted, source) && Lives(levels, layer, inserted, n)
    ensures LinkOne(d, g, source, n, maxDegree) == Ok(g[n := Linked(d, n, g[n], source, maxDegree)])
  {
    assert NodeOk(levels, layer, maxDegree, inserted, n, g[n]);
    FirstBadExact(|g|, n, AppendUnique(g[n], source));
  }

  /** On a valid layer the reverse edges cannot fail. */
  lemma {:induction false} LinkEachSucceeds(
      d: (int, int) -> real, levels: seq<int>, layer: int, maxDegree: int, inserted: int, adj: seq<seq<int>>,
      source: int, neighbors: seq<int>)
    requires maxDegree >= 1 && LayerOk(levels, layer, maxDegree, inserted, adj)
    requires Lives(levels, layer, inserted, source) && InRange(|adj|, neighbors)
    requires forall n :: n in neighbors ==> Lives(levels, layer, inserted, n) && n != source
    ensures LinkEach(d, adj, source, neighbors, maxDegree) == Ok(LinkAll(d, adj, source, neighbors, maxDegree))
  {
    if neighbors != [] {
      var front, n := neighbors[..|neighbors| - 1], neighbors[|neighbors| - 1];
      assert neighbors == front + [n];
      LinkEachSucceeds(d, levels, layer, maxDegree, inserted, adj, source, front);
      LinkAllFacts(d, levels, layer, maxDegree, inserted, adj, source, front);
      assert n in neighbors;
      LinkOneSucceeds(
        d, levels, layer, maxDegree, inserted, LinkAll(d, adj, source, front, maxDegree), source, n);
    }
  }

  lemma ConnectSucceeds(
      d: (int, int) -> real, levels: seq<int>, layer: int, maxDegree: int, node: int, adj: seq<seq<int>>,
      neighbors: seq<int>)
    requires 0 <= node < |levels| && levels[node] >= layer && maxDegree >= 1
    requires LayerOk(levels, layer, maxDegree, node, adj)
    requires Distinct(neighbors) && |neighbors| <= maxDegree
    requires forall n :: n in neighbors ==> Lives(levels, layer, node, n)
    ensures InRange(|adj|, neighbors)
    ensures LinkEach(d, adj[node := neighbors], node, neighbors, maxDegree) ==
            Ok(Connected(d, adj, node, neighbors, maxDegree))
  {
    assert forall i :: 0 <= i < |neighbors| ==> neighbors[i] in neighbors;
    StartOk(levels, layer, maxDegree, node, adj, neighbors);
    LinkEachSucceeds(d, levels, layer, maxDegree, node + 1, adj[node := neighbors], node, neighbors);
  }

  method Link(count: nat, d: (int, int) -> real, neighbor: int, list: seq<int>, source: int, maxDegree: int)
    returns (out: Outcome<seq<int>>)
    ensures out == LinkOutcome(count, d, neighbor, list, source, maxDegree)
  {
    var longer := AppendUnique(list, source);
    if |longer| <= maxDegree {
      return Ok(longer);
    }
    var candidates := ResultsFromNeighborIDs(d, neighbor, longer);
    SelectWithout(count, d, neighbor, longer, maxDegree);
    out := SelectNeighbors(count, d, neighbor, candidates, maxDegree);
  }

  /** The new node's list, then the reverse-edge loop, which stops at the first error. */
  method Connect(d: (int, int) -> real, adj: seq<seq<int>>, source: int, neighbors: seq<int>, maxDegree: int)
    returns (out: Outcome<seq<seq<int>>>)
    requires 0 <= source < |adj|
    ensures out == LinkEach(d, adj[source := neighbors], source, neighbors, maxDegree)
  {
    ghost var start := adj[source := neighbors];
    var g := adj[source := neighbors];
    for j := 0 to |neighbors|
      invariant |g| == |adj| && LinkEach(d, start, source, neighbors[..j], maxDegree) == Ok(g)
    {
      assert neighbors[..j + 1][..j] == neighbors[..j];
      var n := neighbors[j];
      if n < 0 || n >= |adj| {
        LinkFails(d, start, source, neighbors, maxDegree, j + 1);
        return Err(NeighbourOutOfRange(n));
      }
      var linked := Link(|adj|, d, n, g[n], source, maxDegree);
      if linked.Err? {
        LinkFails(d, start, source, neighbors, maxDegree, j + 1);
        return Err(linked.error);
      }
      g := g[n := linked.value];
    }
    assert neighbors[..|neighbors|] == neighbors;
    return Ok(g);
  }
}
