/** What SEARCH-LAYER guarantees: quality at exit, completeness, and monotonicity in ef. */
module BeamTheorems {
  import opened Order
  import opened Sorting
  import opened Beams
  import opened Scans

  // ---------- state at exit ----------

  /** The result list is exactly the min(ef, visited) best of everything visited, in order. */
  lemma ResultIsTopOfVisited(adj: seq<seq<int>>, q: int -> real, entries: seq<int>, ef: int)
    ensures var b := Search(adj, q, entries, ef);
            && b.best == Best(Tag(q, b.visited), ef)
            && Sorted(b.best) && Distinct(Ids(b.best)) && InRange(|adj|, Ids(b.best))
            && |b.best| == if ef <= 0 then 0 else if ef < |b.visited| then ef else |b.visited|
  {
    var b := Search(adj, q, entries, ef);
    SearchInv(adj, q, entries, ef);
    var stream := Tag(q, b.visited);
    BestSorted(stream, ef);
    SortDistinct(q, b.visited);
    forall i | 0 <= i < |b.best|
      ensures 0 <= b.best[i].id < |adj|
    {
      BestMember(stream, ef, b.best[i]);
      TagMember(q, b.visited, b.best[i]);
    }
  }

  lemma StoppedFrontierIsWorse(b: Beam, r: Result)
    requires Sorted(b.frontier) && Sorted(b.best) && Stops(b) && r in b.frontier
    ensures forall j :: 0 <= j < |b.best| ==> b.best[j] != r
  {
    var i :| 0 <= i < |b.frontier| && b.frontier[i] == r;
    assert !Better(r, b.frontier[0]);
    forall j | 0 <= j < |b.best|
      ensures b.best[j] != r
    {
      assert b.best[j].distance <= b.best[|b.best| - 1].distance;
    }
  }

  /** At exit every retained node has been expanded. */
  lemma RetainedAreExpanded(adj: seq<seq<int>>, q: int -> real, entries: seq<int>, ef: int, r: Result)
    requires r in Search(adj, q, entries, ef).best
    ensures r.id in Search(adj, q, entries, ef).expanded
  {
    var b := Search(adj, q, entries, ef);
    SearchInv(adj, q, entries, ef);
    if r in b.frontier {
      BestSorted(Tag(q, b.visited), ef);
      StoppedFrontierIsWorse(b, r);
    }
  }

  /**
   * The result is a local optimum: an in-range neighbour of a retained node is retained itself,
   * or the result is full and that neighbour is not better than anything in it.
   */
  lemma LocalOptimum(adj: seq<seq<int>>, q: int -> real, entries: seq<int>, ef: int, u: Result, v: int)
    requires u in Search(adj, q, entries, ef).best
    requires 0 <= u.id < |adj| && v in adj[u.id] && 0 <= v < |adj|
    ensures var w := Search(adj, q, entries, ef).best;
            var r := Result(v, q(v));
            r in w || (|w| == ef && forall x :: x in w ==> !Better(r, x))
  {
    var b := Search(adj, q, entries, ef);
    SearchInv(adj, q, entries, ef);
    RetainedAreExpanded(adj, q, entries, ef, u);
    TagMember(q, b.visited, Result(v, q(v)));
    BestIsBest(Tag(q, b.visited), ef, Result(v, q(v)));
  }

  // ---------- reachability ----------

  ghost predicate Path(adj: seq<seq<int>>, p: seq<int>) {
    && p != [] && InRange(|adj|, p)
    && forall i :: 0 < i < |p| ==> p[i] in adj[p[i - 1]]
  }

  ghost predicate Reachable(adj: seq<seq<int>>, entries: seq<int>, v: int) {
    exists p :: Path(adj, p) && p[0] in entries && p[|p| - 1] == v
  }

  ghost predicate AllReachable(adj: seq<seq<int>>, entries: seq<int>, vs: seq<int>) {
    forall v :: v in vs ==> Reachable(adj, entries, v)
  }

  lemma EntryReachable(adj: seq<seq<int>>, entries: seq<int>, v: int)
    requires v in entries && 0 <= v < |adj|
    ensures Reachable(adj, entries, v)
  {
    assert Path(adj, [v]);
  }

  lemma NeighbourReachable(adj: seq<seq<int>>, entries: seq<int>, u: int, v: int)
    requires 0 <= u < |adj| && Reachable(adj, entries, u) && v in adj[u] && 0 <= v < |adj|
    ensures Reachable(adj, entries, v)
  {
    var p :| Path(adj, p) && p[0] in entries && p[|p| - 1] == u;
    var s := p + [v];
    assert Path(adj, s) by {
      forall i | 0 < i < |s|
        ensures s[i] in adj[s[i - 1]]
      {
        if i < |p| {
          assert p[i] in adj[p[i - 1]];
        }
      }
    }
    assert s[0] in entries && s[|s| - 1] == v;
  }

  lemma {:induction false} RunStaysReachable(adj: seq<seq<int>>, q: int -> real, entries: seq<int>, ef: int, b: Beam)
    requires Inv(adj, q, ef, b) && AllReachable(adj, entries, b.visited)
    ensures AllReachable(adj, entries, Run(adj, q, ef, b).visited)
    decreases |adj| - |b.visited| + |b.frontier|
  {
    if !Stops(b) {
      var u := b.frontier[0].id;
      assert b.frontier[0] in b.frontier;
      ExpandKeepsInv(adj, q, ef, b);
      VisitedBound(|adj|, q, ef, b);
      VisitedBound(|adj|, q, ef, Expand(adj, q, ef, b));
      VisitAllVisits(|adj|, q, ef, Pop(b), adj[u]);
      forall v | v in Expand(adj, q, ef, b).visited
        ensures Reachable(adj, entries, v)
      {
        if v !in b.visited {
          NeighbourReachable(adj, entries, u, v);
        }
      }
      RunStaysReachable(adj, q, entries, ef, Expand(adj, q, ef, b));
    }
  }

  /** Only nodes reachable from the entries are ever visited. */
  lemma VisitedIsReachable(adj: seq<seq<int>>, q: int -> real, entries: seq<int>, ef: int)
    ensures AllReachable(adj, entries, Search(adj, q, entries, ef).visited)
  {
    if ef > 0 && entries != [] {
      var b := VisitAll(|adj|, q, ef, Empty, entries);
      EnterInv(adj, q, entries, ef);
      VisitAllVisits(|adj|, q, ef, Empty, entries);
      forall v | v in b.visited
        ensures Reachable(adj, entries, v)
      {
        EntryReachable(adj, entries, v);
      }
      RunStaysReachable(adj, q, entries, ef, b);
    }
  }

  /** A set holding the in-range entries and closed under edges holds everything reachable. */
  lemma {:induction false} ClosedHoldsPath(adj: seq<seq<int>>, s: seq<int>, p: seq<int>)
    requires Path(adj, p) && p[0] in s
    requires forall u, v :: u in s && 0 <= u < |adj| && v in adj[u] && 0 <= v < |adj| ==> v in s
    ensures p[|p| - 1] in s
    decreases |p|
  {
    if |p| > 1 {
      assert p[1] in adj[p[0]];
      assert forall i :: 0 < i < |p[1..]| ==> p[1..][i] == p[i + 1];
      ClosedHoldsPath(adj, s, p[1..]);
    }
  }

  lemma {:induction false} RunOnlyGrows(adj: seq<seq<int>>, q: int -> real, ef: int, b: Beam)
    requires Inv(adj, q, ef, b)
    ensures b.visited <= Run(adj, q, ef, b).visited
    ensures b.expanded <= Run(adj, q, ef, b).expanded
    decreases |adj| - |b.visited| + |b.frontier|
  {
    if !Stops(b) {
      ExpandKeepsInv(adj, q, ef, b);
      VisitedBound(|adj|, q, ef, b);
      VisitedBound(|adj|, q, ef, Expand(adj, q, ef, b));
      VisitAllVisits(|adj|, q, ef, Pop(b), adj[b.frontier[0].id]);
      RunOnlyGrows(adj, q, ef, Expand(adj, q, ef, b));
    }
  }

  lemma EntriesAreVisited(adj: seq<seq<int>>, q: int -> real, entries: seq<int>, ef: int, v: int)
    requires ef > 0 && v in entries && 0 <= v < |adj|
    ensures v in Search(adj, q, entries, ef).visited
  {
    EnterInv(adj, q, entries, ef);
    VisitAllVisits(|adj|, q, ef, Empty, entries);
    RunOnlyGrows(adj, q, ef, VisitAll(|adj|, q, ef, Empty, entries));
  }

  /** When everything visited is retained, the run stops only with nothing left to expand. */
  lemma NothingLeft(adj: seq<seq<int>>, q: int -> real, entries: seq<int>, ef: int)
    requires |Search(adj, q, entries, ef).visited| <= ef
    ensures var b := Search(adj, q, entries, ef);
            b.frontier == [] && forall v :: v in b.visited ==> v in b.expanded
  {
    var b := Search(adj, q, entries, ef);
    SearchInv(adj, q, entries, ef);
    if b.frontier != [] {
      var r := b.frontier[0];
      assert r in b.frontier;
      TagMember(q, b.visited, r);
      SortMember(Tag(q, b.visited), r);
      RetainedAreExpanded(adj, q, entries, ef, r);
      assert false;
    }
    forall v | v in b.visited
      ensures v in b.expanded
    {
      TagMember(q, b.visited, Result(v, q(v)));
      SortMember(Tag(q, b.visited), Result(v, q(v)));
      RetainedAreExpanded(adj, q, entries, ef, Result(v, q(v)));
    }
  }

  /**
   * Completeness: when ef covers every reachable node, the early exit never fires with work left
   * and the result is exactly the reachable nodes in sorted order.
   */
  lemma Completeness(adj: seq<seq<int>>, q: int -> real, entries: seq<int>, ef: int, reach: set<int>)
    requires ef > 0
    requires forall v :: v in reach <==> Reachable(adj, entries, v)
    requires |reach| <= ef
    ensures var b := Search(adj, q, entries, ef);
            && b.frontier == []
            && (forall v :: v in b.visited <==> v in reach)
            && b.best == Sort(Tag(q, b.visited))
            && |b.best| == |reach|
  {
    var b := Search(adj, q, entries, ef);
    SearchInv(adj, q, entries, ef);
    VisitedIsReachable(adj, q, entries, ef);
    DistinctSize(b.visited);
    SubsetSize(Elements(b.visited), reach);
    NothingLeft(adj, q, entries, ef);
    forall v | v in reach
      ensures v in b.visited
    {
      var p :| Path(adj, p) && p[0] in entries && p[|p| - 1] == v;
      EntriesAreVisited(adj, q, entries, ef, p[0]);
      ClosedHoldsPath(adj, b.visited, p);
    }
    assert Elements(b.visited) == reach;
  }

  lemma ReachableIsNode(adj: seq<seq<int>>, entries: seq<int>, v: int)
    requires Reachable(adj, entries, v)
    ensures 0 <= v < |adj|
  {
    var p :| Path(adj, p) && p[0] in entries && p[|p| - 1] == v;
  }

  /** When every node is reachable and ef covers them all, the result is the brute-force list of all nodes. */
  lemma FullyReachable(adj: seq<seq<int>>, q: int -> real, entries: seq<int>, ef: int)
    requires |adj| <= ef && forall v :: 0 <= v < |adj| ==> Reachable(adj, entries, v)
    ensures Search(adj, q, entries, ef).best == Sort(Tag(q, UpTo(|adj|)))
  {
    hide Search, Sort, Reachable, Stops;
    var n, b := |adj|, Search(adj, q, entries, ef);
    SearchInv(adj, q, entries, ef);
    if n == 0 {
      VisitedBound(n, q, ef, b);
    } else {
      RangeSize(n);
      forall v | Reachable(adj, entries, v)
        ensures v in Range(n)
      {
        ReachableIsNode(adj, entries, v);
      }
      Completeness(adj, q, entries, ef, Range(n));
      forall v
        ensures v in b.visited <==> v in UpTo(n)
      {
        if 0 <= v < n {
          assert UpTo(n)[v] == v;
        }
      }
      SortOfSet(q, b.visited, UpTo(n));
    }
  }

  // ---------- the result without the algorithm ----------

  /** In the result, or no better than anything in a full one. */
  ghost predicate Kept(ef: int, w: seq<Result>, r: Result) {
    r in w || (|w| == ef && forall x :: x in w ==> !Better(r, x))
  }

  /** Reachable nodes with their scores, at most ef of them, best first. */
  ghost predicate Listed(adj: seq<seq<int>>, q: int -> real, entries: seq<int>, ef: int, w: seq<Result>) {
    && |w| <= ef && Sorted(w) && Distinct(Ids(w))
    && forall r :: r in w ==> 0 <= r.id < |adj| && r.distance == q(r.id) && Reachable(adj, entries, r.id)
  }

  /**
   * What a finished search of width ef promises, whatever it did: the entries are kept, and so is every neighbour
   * of a node in the result.
   */
  ghost predicate Settled(adj: seq<seq<int>>, q: int -> real, entries: seq<int>, ef: int, w: seq<Result>) {
    && Listed(adj, q, entries, ef, w)
    && (forall v :: v in entries && 0 <= v < |adj| ==> Kept(ef, w, Result(v, q(v))))
    && (forall u, v :: 0 <= u < |adj| && Result(u, q(u)) in w && v in adj[u] && 0 <= v < |adj| ==>
          Kept(ef, w, Result(v, q(v))))
  }

  lemma SearchIsListed(adj: seq<seq<int>>, q: int -> real, entries: seq<int>, ef: int)
    requires ef > 0
    ensures Listed(adj, q, entries, ef, Search(adj, q, entries, ef).best)
  {
    hide Search, Sort;
    var b := Search(adj, q, entries, ef);
    ResultIsTopOfVisited(adj, q, entries, ef);
    SearchInv(adj, q, entries, ef);
    VisitedIsReachable(adj, q, entries, ef);
    forall r | r in b.best
      ensures 0 <= r.id < |adj| && r.distance == q(r.id) && Reachable(adj, entries, r.id)
    {
      BestMember(Tag(q, b.visited), ef, r);
      TagMember(q, b.visited, r);
    }
  }

  lemma SearchSettles(adj: seq<seq<int>>, q: int -> real, entries: seq<int>, ef: int)
    requires ef > 0
    ensures Settled(adj, q, entries, ef, Search(adj, q, entries, ef).best)
  {
    hide Search, Sort, Listed;
    var b := Search(adj, q, entries, ef);
    SearchIsListed(adj, q, entries, ef);
    SearchInv(adj, q, entries, ef);
    forall v | v in entries && 0 <= v < |adj|
      ensures Kept(ef, b.best, Result(v, q(v)))
    {
      EntriesAreVisited(adj, q, entries, ef, v);
      TagMember(q, b.visited, Result(v, q(v)));
      BestIsBest(Tag(q, b.visited), ef, Result(v, q(v)));
    }
    forall u, v | 0 <= u < |adj| && Result(u, q(u)) in b.best && v in adj[u] && 0 <= v < |adj|
      ensures Kept(ef, b.best, Result(v, q(v)))
    {
      LocalOptimum(adj, q, entries, ef, Result(u, q(u)), v);
    }
  }

  /** A result that is not full holds every reachable node. */
  lemma SettledIsComplete(adj: seq<seq<int>>, q: int -> real, entries: seq<int>, ef: int, w: seq<Result>, v: int)
    requires Settled(adj, q, entries, ef, w) && |w| < ef && Reachable(adj, entries, v)
    ensures Result(v, q(v)) in w
  {
    var p :| Path(adj, p) && p[0] in entries && p[|p| - 1] == v;
    assert Kept(ef, w, Result(p[0], q(p[0])));
    IdsOfListed(adj, q, entries, ef, w, p[0]);
    forall u, x | u in Ids(w) && 0 <= u < |adj| && x in adj[u] && 0 <= x < |adj|
      ensures x in Ids(w)
    {
      IdsOfListed(adj, q, entries, ef, w, u);
      assert Kept(ef, w, Result(x, q(x)));
      IdsOfListed(adj, q, entries, ef, w, x);
    }
    ClosedHoldsPath(adj, Ids(w), p);
    IdsOfListed(adj, q, entries, ef, w, v);
  }

  /** A result wide enough for all reachable nodes is exactly these nodes. */
  lemma SettledSeesAll(
      adj: seq<seq<int>>, q: int -> real, entries: seq<int>, ef: int, w: seq<Result>, all: set<int>)
    requires Settled(adj, q, entries, ef, w) && |all| <= ef
    requires forall v :: v in all <==> Reachable(adj, entries, v)
    ensures Elements(Ids(w)) == all
  {
    hide Reachable;
    forall v | v in Ids(w)
      ensures v in all
    {
      IdsMember(w, v);
    }
    DistinctSize(Ids(w));
    SubsetSize(Elements(Ids(w)), all);
    if |w| < ef {
      forall v | v in all
        ensures v in Ids(w)
      {
        SettledIsComplete(adj, q, entries, ef, w, v);
        IdsOfListed(adj, q, entries, ef, w, v);
      }
    }
  }

  lemma IdsOfListed(adj: seq<seq<int>>, q: int -> real, entries: seq<int>, ef: int, w: seq<Result>, v: int)
    requires Listed(adj, q, entries, ef, w)
    ensures v in Ids(w) <==> Result(v, q(v)) in w
  {
    IdsMember(w, v);
    if v in Ids(w) {
      var r :| r in w && r.id == v;
      assert r == Result(v, q(v));
    }
  }

  // ---------- the nodes a search can meet ----------

  /**
   * A search from entries inside an edge-closed set stays inside it, and its best result
   * is no worse than any in-range entry.
   */
  lemma StaysInside(adj: seq<seq<int>>, q: int -> real, entries: seq<int>, ef: int, inside: int -> bool)
    requires ef > 0
    requires forall v :: v in entries && 0 <= v < |adj| ==> inside(v)
    requires forall u, v :: 0 <= u < |adj| && inside(u) && v in adj[u] && 0 <= v < |adj| ==> inside(v)
    ensures forall r :: r in Search(adj, q, entries, ef).best ==> 0 <= r.id < |adj| && inside(r.id)
    ensures forall v :: v in entries && 0 <= v < |adj| ==>
              var w := Search(adj, q, entries, ef).best;
              w != [] && !Better(Result(v, q(v)), w[0])
  {
    var b := Search(adj, q, entries, ef);
    SearchInv(adj, q, entries, ef);
    VisitedIsReachable(adj, q, entries, ef);
    forall r | r in b.best
      ensures 0 <= r.id < |adj| && inside(r.id)
    {
      BestMember(Tag(q, b.visited), ef, r);
      TagMember(q, b.visited, r);
      var p :| Path(adj, p) && p[0] in entries && p[|p| - 1] == r.id;
      PathInside(adj, p, inside);
    }
    forall v | v in entries && 0 <= v < |adj|
      ensures b.best != [] && !Better(Result(v, q(v)), b.best[0])
    {
      EntriesAreVisited(adj, q, entries, ef, v);
      HeadIsBest(q, b.visited, ef, v);
    }
  }

  lemma {:induction false} PathInside(adj: seq<seq<int>>, p: seq<int>, inside: int -> bool)
    requires Path(adj, p) && inside(p[0])
    requires forall u, v :: 0 <= u < |adj| && inside(u) && v in adj[u] && 0 <= v < |adj| ==> inside(v)
    ensures inside(p[|p| - 1])
    decreases |p|
  {
    if |p| > 1 {
      assert p[1] in adj[p[0]];
      assert forall i :: 0 < i < |p[1..]| ==> p[1..][i] == p[i + 1];
      PathInside(adj, p[1..], inside);
    }
  }

  lemma HeadIsBest(q: int -> real, ids: seq<int>, ef: int, v: int)
    requires ef > 0 && v in ids
    ensures var w := Best(Tag(q, ids), ef);
            w != [] && !Better(Result(v, q(v)), w[0])
  {
    var stream := Tag(q, ids);
    var r := Result(v, q(v));
    TagMember(q, ids, r);
    SortMember(stream, r);
    SortSorted(stream);
    SortedParts(Sort(stream));
  }

  // ---------- one hop covers a complete layer ----------

  /** If the only entry is adjacent to every other node, the search is brute force for every ef. */
  lemma CompleteLayer(adj: seq<seq<int>>, q: int -> real, entry: int, ef: int)
    requires ef > 0 && 0 <= entry < |adj|
    requires forall v :: 0 <= v < |adj| && v != entry ==> v in adj[entry]
    ensures var b := Search(adj, q, [entry], ef);
            && (forall v :: 0 <= v < |adj| ==> v in b.visited)
            && |b.visited| == |adj|
            && b.best == Best(Tag(q, b.visited), ef)
  {
    hide VisitAll, Run, Expand, Best;
    EnterInv(adj, q, [entry], ef);
    OneEntry(|adj|, q, entry, ef);
    RunFromEntry(adj, q, ef, Start(q, entry));
    OneHop(adj, q, entry, ef);
    SearchInv(adj, q, [entry], ef);
    AllVisited(|adj|, Search(adj, q, [entry], ef).visited);
  }

  function Start(q: int -> real, entry: int): Beam {
    Beam([entry], [Result(entry, q(entry))], [Result(entry, q(entry))], [])
  }

  lemma OneHop(adj: seq<seq<int>>, q: int -> real, entry: int, ef: int)
    requires ef > 0 && 0 <= entry < |adj|
    requires forall v :: 0 <= v < |adj| && v != entry ==> v in adj[entry]
    ensures forall v :: 0 <= v < |adj| ==> v in Expand(adj, q, ef, Start(q, entry)).visited
  {
    var b := Start(q, entry);
    VisitAllVisits(|adj|, q, ef, Pop(b), adj[entry]);
    assert Pop(b).visited[0] == entry;
  }

  lemma OneEntry(n: int, q: int -> real, entry: int, ef: int)
    requires ef > 0 && 0 <= entry < n
    ensures VisitAll(n, q, ef, Empty, [entry]) == Start(q, entry)
  {
    assert [entry][..0] == [];
    assert VisitAll(n, q, ef, Empty, []) == Empty;
    assert VisitAll(n, q, ef, Empty, [entry]) == Admit(q, ef, Empty, entry);
  }

  lemma RunFromEntry(adj: seq<seq<int>>, q: int -> real, ef: int, b: Beam)
    requires Inv(adj, q, ef, b) && !Stops(b)
    ensures 0 <= b.frontier[0].id < |adj|
    ensures forall v :: v in Expand(adj, q, ef, b).visited ==> v in Run(adj, q, ef, b).visited
  {
    ExpandKeepsInv(adj, q, ef, b);
    VisitedBound(|adj|, q, ef, b);
    VisitedBound(|adj|, q, ef, Expand(adj, q, ef, b));
    RunOnlyGrows(adj, q, ef, Expand(adj, q, ef, b));
  }

  lemma AllVisited(n: nat, ids: seq<int>)
    requires Distinct(ids) && InRange(n, ids)
    requires forall v :: 0 <= v < n ==> v in ids
    ensures |ids| == n
  {
    DistinctSize(ids);
    RangeSize(n);
    assert Elements(ids) == Range(n);
  }
}
