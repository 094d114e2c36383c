/** The search of width 1 that every upper layer runs: a walk downhill to a local minimum. */
module GreedyLayer {
  import opened Order
  import opened Sorting
  import opened Beams
  import opened BeamTheorems
  import opened BeamMonotone
  import opened BeamEntry
  import opened BeamRanks

  /** No neighbour is better. */
  ghost predicate LocalMinimum(adj: seq<seq<int>>, q: int -> real, u: int) {
    forall v :: 0 <= u < |adj| && v in adj[u] && 0 <= v < |adj| ==> !Better(Result(v, q(v)), Result(u, q(u)))
  }

  /** Along edges, never moving away from the query. */
  ghost predicate Downhill(adj: seq<seq<int>>, q: int -> real, p: seq<int>) {
    Path(adj, p) && forall i :: 0 < i < |p| ==> q(p[i]) <= q(p[i - 1])
  }

  ghost predicate DownTo(adj: seq<seq<int>>, q: int -> real, from: int, to: int) {
    exists p :: Downhill(adj, q, p) && p[0] == from && p[|p| - 1] == to
  }

  lemma DownToItself(adj: seq<seq<int>>, q: int -> real, u: int)
    requires 0 <= u < |adj|
    ensures DownTo(adj, q, u, u)
  {
    assert Downhill(adj, q, [u]);
  }

  lemma DownToNeighbour(adj: seq<seq<int>>, q: int -> real, from: int, u: int, v: int)
    requires DownTo(adj, q, from, u) && 0 <= u < |adj| && v in adj[u] && 0 <= v < |adj| && q(v) <= q(u)
    ensures DownTo(adj, q, from, v)
  {
    var p :| Downhill(adj, q, p) && p[0] == from && p[|p| - 1] == u;
    var s := p + [v];
    assert Downhill(adj, q, s) by {
      forall i | 0 < i < |s|
        ensures s[i] in adj[s[i - 1]] && q(s[i]) <= q(s[i - 1])
      {
        if i < |p| {
          assert p[i] in adj[p[i - 1]] && q(p[i]) <= q(p[i - 1]);
        }
      }
    }
    assert s[0] == from && s[|s| - 1] == v;
  }

  // ---------- the walk ----------

  /** Whatever visiting a list adds to C or W is on the list. */
  lemma {:induction false} NewFromList(n: int, q: int -> real, ef: int, b: Beam, ids: seq<int>, r: Result)
    ensures var c := VisitAll(n, q, ef, b, ids);
            && (r in c.frontier ==> r in b.frontier || (r.id in ids && 0 <= r.id < n && r.distance == q(r.id)))
            && (r in c.best ==> r in b.best || (r.id in ids && 0 <= r.id < n && r.distance == q(r.id)))
    decreases |ids|
  {
    hide Insert, Take;
    if ids != [] {
      var front, id := ids[..|ids| - 1], ids[|ids| - 1];
      NewFromList(n, q, ef, b, front, r);
      var c := VisitAll(n, q, ef, b, front);
      assert ids == front + [id];
      InsertMember(c.frontier, Result(id, q(id)), r);
      InsertMember(c.best, Result(id, q(id)), r);
    }
  }

  /** The whole of C and W lies downhill from the entry. */
  ghost predicate AllDown(adj: seq<seq<int>>, q: int -> real, entry: int, b: Beam) {
    forall r :: r in b.frontier || r in b.best ==> DownTo(adj, q, entry, r.id)
  }

  /** The beam of width 1 goes on at a node as near as its one result. */
  lemma NarrowHead(adj: seq<seq<int>>, q: int -> real, b: Beam)
    requires Inv(adj, q, 1, b) && !Stops(b)
    ensures |b.best| == 1 && b.frontier[0] in b.frontier && 0 <= b.frontier[0].id < |adj|
    ensures b.frontier[0].distance == b.best[0].distance == q(b.frontier[0].id)
  {
    hide Sort;
    var h := b.frontier[0];
    assert h in b.frontier;
    TagMember(q, b.visited, h);
    BestIsBest(Tag(q, b.visited), 1, h);
    assert b.visited != [];
    assert b.best[0] in b.best;
  }

  lemma ExpandStaysDown(adj: seq<seq<int>>, q: int -> real, entry: int, b: Beam)
    requires Inv(adj, q, 1, b) && !Stops(b) && AllDown(adj, q, entry, b)
    ensures 0 <= b.frontier[0].id < |adj| && AllDown(adj, q, entry, Expand(adj, q, 1, b))
  {
    hide Inv, VisitAll, DownTo, Best, Better, Later;
    NarrowHead(adj, q, b);
    var n, h, last := |adj|, b.frontier[0], b.best[0];
    var c := Expand(adj, q, 1, b);
    ExpandStaysLater(adj, q, b);
    forall r | r in c.frontier || r in c.best
      ensures DownTo(adj, q, entry, r.id)
    {
      NewFromList(n, q, 1, Pop(b), adj[h.id], r);
      if r !in b.frontier && r !in b.best {
        NoFarther(b.frontier, last, c, r);
        DownToNeighbour(adj, q, entry, h.id, r.id);
      }
    }
  }

  lemma ExpandStaysLater(adj: seq<seq<int>>, q: int -> real, b: Beam)
    requires Inv(adj, q, 1, b) && !Stops(b) && |b.best| == 1 && 0 <= b.frontier[0].id < |adj|
    ensures Later(1, b.frontier, b.best[0], Expand(adj, q, 1, b))
  {
    hide VisitAll, Best;
    StrictTotalOrder(b.best[0], b.best[0], b.best[0]);
    PopKeepsCore(|adj|, q, 1, b);
    PopLater(1, b.frontier, b.best[0], b);
    VisitAllLater(|adj|, q, 1, b.frontier, b.best[0], Pop(b), adj[b.frontier[0].id]);
  }

  lemma NoFarther(frontier: seq<Result>, last: Result, c: Beam, r: Result)
    requires Later(1, frontier, last, c) && (r in c.frontier || r in c.best) && r !in frontier
    ensures r.distance <= last.distance
  {
  }

  lemma {:induction false} RunStaysDown(adj: seq<seq<int>>, q: int -> real, entry: int, b: Beam)
    requires Inv(adj, q, 1, b) && AllDown(adj, q, entry, b)
    ensures AllDown(adj, q, entry, Run(adj, q, 1, b))
    decreases |adj| - |b.visited| + |b.frontier|
  {
    hide Inv, AllDown, VisitAll;
    if !Stops(b) {
      ExpandStaysDown(adj, q, entry, b);
      ExpandKeepsInv(adj, q, 1, b);
      VisitedAtMost(adj, q, 1, b);
      VisitedAtMost(adj, q, 1, Expand(adj, q, 1, b));
      RunStep(adj, q, 1, b);
      RunStaysDown(adj, q, entry, Expand(adj, q, 1, b));
    }
  }

  /** What a search of width 1 hands on: a local minimum, reached without ever moving away from the query. */
  lemma GreedyDescends(adj: seq<seq<int>>, q: int -> real, entry: int)
    requires 0 <= entry < |adj|
    ensures var w := Search(adj, q, [entry], 1).best;
            && |w| == 1 && 0 <= w[0].id < |adj| && w[0].distance == q(w[0].id)
            && DownTo(adj, q, entry, w[0].id) && LocalMinimum(adj, q, w[0].id)
            && !Better(Result(entry, q(entry)), w[0])
  {
    hide Search, DownTo, Inv;
    var E := Result(entry, q(entry));
    EnterOne(adj, q, entry, 1);
    DownToItself(adj, q, entry);
    RunStaysDown(adj, q, entry, Beam([entry], [E], [E], []));
    SearchSettles(adj, q, [entry], 1);
    var w := Search(adj, q, [entry], 1).best;
    assert entry in [entry] && Kept(1, w, E);
    StrictTotalOrder(E, E, E);
    OneIsMinimal(adj, q, [entry], w);
  }

  lemma OneIsMinimal(adj: seq<seq<int>>, q: int -> real, entries: seq<int>, w: seq<Result>)
    requires Settled(adj, q, entries, 1, w) && |w| == 1
    ensures LocalMinimum(adj, q, w[0].id)
  {
    var r := w[0];
    assert r in w && r == Result(r.id, q(r.id));
    forall v | v in adj[r.id] && 0 <= v < |adj|
      ensures !Better(Result(v, q(v)), r)
    {
      assert Kept(1, w, Result(v, q(v)));
      StrictTotalOrder(r, r, r);
    }
  }

  // ---------- steepest descent ----------

  /** No two nodes are equally far. */
  ghost predicate NoPairTies(n: int, q: int -> real) {
    forall u, v :: 0 <= u < n && 0 <= v < n && u != v ==> q(u) != q(v)
  }

  /** Every step goes to the best neighbour, as long as that is nearer. */
  ghost predicate Steepest(adj: seq<seq<int>>, q: int -> real, p: seq<int>) {
    && Path(adj, p) && LocalMinimum(adj, q, p[|p| - 1])
    && forall i :: 0 < i < |p| ==> BestStepTo(adj, q, p[i - 1], p[i])
  }

  ghost predicate BestStepTo(adj: seq<seq<int>>, q: int -> real, u: int, v: int) {
    && 0 <= u < |adj| && v in adj[u] && q(v) < q(u)
    && forall x :: x in adj[u] && 0 <= x < |adj| ==> !Better(Result(x, q(x)), Result(v, q(v)))
  }

  lemma SteepestStep(adj: seq<seq<int>>, q: int -> real, u: int, p: seq<int>)
    requires Steepest(adj, q, p) && BestStepTo(adj, q, u, p[0])
    ensures Steepest(adj, q, [u] + p)
  {
    var s := [u] + p;
    forall i | 0 < i < |s|
      ensures s[i] in adj[s[i - 1]] && BestStepTo(adj, q, s[i - 1], s[i])
    {
      if i > 1 {
        assert p[i - 1] in adj[p[i - 2]] && BestStepTo(adj, q, p[i - 2], p[i - 1]);
      }
    }
    assert InRange(|adj|, s);
  }

  /** The one result is the best of everything visited. */
  lemma OneBest(n: int, q: int -> real, b: Beam, x: int)
    requires Core(n, q, 1, b) && x in b.visited
    ensures |b.best| == 1 && b.best[0].id in b.visited && b.best[0].distance == q(b.best[0].id)
    ensures !Better(Result(x, q(x)), b.best[0])
  {
    hide Sort;
    TagMember(q, b.visited, Result(x, q(x)));
    BestIsBest(Tag(q, b.visited), 1, Result(x, q(x)));
    assert b.best[0] in b.best;
    BestMember(Tag(q, b.visited), 1, b.best[0]);
    TagMember(q, b.visited, b.best[0]);
    StrictTotalOrder(b.best[0], b.best[0], b.best[0]);
  }

  /** At its one result, the beam either stops or goes on to that node's best neighbour. */
  lemma SteepestExpand(adj: seq<seq<int>>, q: int -> real, b: Beam)
    requires NoPairTies(|adj|, q) && Inv(adj, q, 1, b) && |b.best| == 1 && b.frontier != []
    requires b.frontier[0] == b.best[0]
    ensures !Stops(b) && 0 <= b.best[0].id < |adj| && Inv(adj, q, 1, Expand(adj, q, 1, b))
    ensures var c, u := Expand(adj, q, 1, b), b.best[0].id;
            && |c.best| == 1 && 0 <= c.best[0].id < |adj| && c.best[0].distance == q(c.best[0].id)
            && if c.best == b.best then Stops(c) && LocalMinimum(adj, q, u)
               else c.frontier != [] && c.frontier[0] == c.best[0] && BestStepTo(adj, q, u, c.best[0].id)
  {
    hide VisitAll, Best, Sorted;
    var n, C := |adj|, b.best[0];
    assert C in b.frontier;
    ExpandKeepsInv(adj, q, 1, b);
    var c := Expand(adj, q, 1, b);
    VisitAllVisits(n, q, 1, Pop(b), adj[C.id]);
    OneBest(n, q, c, C.id);
    var N := c.best[0];
    forall x | x in adj[C.id] && 0 <= x < n
      ensures !Better(Result(x, q(x)), N)
    {
      OneBest(n, q, c, x);
    }
    if N == C {
      StopsThere(n, q, c);
    } else {
      StrictTotalOrder(N, C, N);
      GoesThere(n, q, b, c);
    }
  }

  lemma StopsThere(n: int, q: int -> real, c: Beam)
    requires NoPairTies(n, q) && Core(n, q, 1, c) && |c.best| == 1 && c.best[0].id in c.expanded
    ensures Stops(c)
  {
    hide Best, Sorted;
    if c.frontier != [] {
      var h := c.frontier[0];
      assert h in c.frontier;
      OneBest(n, q, c, h.id);
      NodesInRange(n, c.visited, h.id);
      NodesInRange(n, c.visited, c.best[0].id);
    }
  }

  lemma NodesInRange(n: int, ids: seq<int>, x: int)
    requires InRange(n, ids) && x in ids
    ensures 0 <= x < n
  {
  }

  lemma GoesThere(n: int, q: int -> real, b: Beam, c: Beam)
    requires NoPairTies(n, q) && Core(n, q, 1, b) && Core(n, q, 1, c) && |b.best| == |c.best| == 1
    requires Better(c.best[0], b.best[0]) && c.best[0].distance == q(c.best[0].id) && c.best[0].id in c.visited
    requires c.expanded == b.expanded + [b.best[0].id]
    ensures c.frontier != [] && c.frontier[0] == c.best[0] && c.best[0].id !in b.visited
    ensures c.best[0].distance < b.best[0].distance
  {
    hide Best;
    var N, C := c.best[0], b.best[0];
    StrictTotalOrder(N, C, N);
    if N.id in b.visited {
      OneBest(n, q, b, N.id);
      assert false;
    }
    assert N in c.best && N in c.frontier;
    var h := c.frontier[0];
    assert h in c.frontier;
    OneBest(n, q, c, h.id);
    BeamEntry.SortedHead(c.frontier, N);
    StrictTotalOrder(h, N, h);
    assert b.best[0] in b.best;
    BestKnownMember(n, q, b);
    NodesInRange(n, c.visited, N.id);
    NodesInRange(n, b.visited, C.id);
  }

  lemma BestKnownMember(n: int, q: int -> real, b: Beam)
    requires Core(n, q, 1, b) && |b.best| == 1
    ensures b.best[0].id in b.visited && b.best[0].distance == q(b.best[0].id)
  {
    assert b.best[0] in b.best;
    BestMember(Tag(q, b.visited), 1, b.best[0]);
    TagMember(q, b.visited, b.best[0]);
  }

  lemma {:induction false} RunIsSteepest(adj: seq<seq<int>>, q: int -> real, b: Beam) returns (p: seq<int>)
    requires NoPairTies(|adj|, q) && Inv(adj, q, 1, b) && |b.best| == 1 && b.frontier != []
    requires b.frontier[0] == b.best[0]
    ensures Steepest(adj, q, p) && p[0] == b.best[0].id
    ensures Run(adj, q, 1, b).best == [Result(p[|p| - 1], q(p[|p| - 1]))]
    decreases |adj| - |b.visited| + |b.frontier|
  {
    hide Inv, VisitAll, Stops, NoPairTies, LocalMinimum, BestStepTo, Better;
    SteepestExpand(adj, q, b);
    ExpandKeepsInv(adj, q, 1, b);
    VisitedAtMost(adj, q, 1, b);
    VisitedAtMost(adj, q, 1, Expand(adj, q, 1, b));
    RunStep(adj, q, 1, b);
    var c, u := Expand(adj, q, 1, b), b.best[0].id;
    if c.best == b.best {
      RunStopped(adj, q, 1, c);
      p := [u];
    } else {
      p := RunIsSteepest(adj, q, c);
      SteepestStep(adj, q, u, p);
      p := [u] + p;
    }
  }

  lemma RunStopped(adj: seq<seq<int>>, q: int -> real, ef: int, b: Beam)
    requires Inv(adj, q, ef, b) && Stops(b)
    ensures Run(adj, q, ef, b) == b
  {
  }

  ghost predicate SteepestTo(adj: seq<seq<int>>, q: int -> real, from: int, to: int) {
    exists p :: Steepest(adj, q, p) && p[0] == from && p[|p| - 1] == to
  }

  /** Where no two nodes are equally far, the search of width 1 is steepest descent. */
  lemma GreedyIsSteepest(adj: seq<seq<int>>, q: int -> real, entry: int)
    requires 0 <= entry < |adj| && NoPairTies(|adj|, q)
    ensures var w := Search(adj, q, [entry], 1).best; |w| == 1 && SteepestTo(adj, q, entry, w[0].id)
  {
    hide Search, Inv, Steepest;
    var E := Result(entry, q(entry));
    EnterOne(adj, q, entry, 1);
    var p := RunIsSteepest(adj, q, Beam([entry], [E], [E], []));
  }

  /** And steepest descent has one end, so that determines the node handed on. */
  lemma {:induction false} SteepestIsUnique(adj: seq<seq<int>>, q: int -> real, p: seq<int>, s: seq<int>)
    requires Steepest(adj, q, p) && Steepest(adj, q, s) && p[0] == s[0]
    ensures p == s
    decreases |p|
  {
    MovesOn(adj, q, p);
    MovesOn(adj, q, s);
    if |p| > 1 && |s| > 1 {
      assert BestStepTo(adj, q, p[0], p[1]) && BestStepTo(adj, q, s[0], s[1]);
      StrictTotalOrder(Result(p[1], q(p[1])), Result(s[1], q(s[1])), Result(p[1], q(p[1])));
      SteepestTail(adj, q, p);
      SteepestTail(adj, q, s);
      SteepestIsUnique(adj, q, p[1..], s[1..]);
      assert p == [p[0]] + p[1..] && s == [s[0]] + s[1..];
    }
  }

  /** The walk ends exactly at a local minimum. */
  lemma MovesOn(adj: seq<seq<int>>, q: int -> real, p: seq<int>)
    requires Steepest(adj, q, p)
    ensures LocalMinimum(adj, q, p[0]) <==> |p| == 1
  {
    if |p| > 1 {
      assert BestStepTo(adj, q, p[0], p[1]);
    }
  }

  lemma SteepestTail(adj: seq<seq<int>>, q: int -> real, p: seq<int>)
    requires Steepest(adj, q, p) && |p| > 1
    ensures Steepest(adj, q, p[1..])
  {
    var s := p[1..];
    forall i | 0 < i < |s|
      ensures s[i] in adj[s[i - 1]] && BestStepTo(adj, q, s[i - 1], s[i])
    {
      assert p[i + 1] in adj[p[i]] && BestStepTo(adj, q, p[i + 1 - 1], p[i + 1]);
    }
  }

  // ---------- what a layer hands on ----------

  /**
   * How one layer passes an entry on: downhill to a local minimum, and by steepest descent where no two nodes are
   * equally far.
   */
  ghost predicate HandedOn(adj: seq<seq<int>>, q: int -> real, from: int, to: int) {
    && 0 <= to < |adj| && DownTo(adj, q, from, to) && LocalMinimum(adj, q, to)
    && !Better(Result(from, q(from)), Result(to, q(to)))
    && (NoPairTies(|adj|, q) ==> SteepestTo(adj, q, from, to))
  }

  lemma SearchHandsOn(adj: seq<seq<int>>, q: int -> real, entry: int)
    requires 0 <= entry < |adj|
    ensures var w := Search(adj, q, [entry], 1).best; |w| == 1 && HandedOn(adj, q, entry, w[0].id)
  {
    hide Search, DownTo, LocalMinimum, SteepestTo, NoPairTies;
    GreedyDescends(adj, q, entry);
    if NoPairTies(|adj|, q) {
      GreedyIsSteepest(adj, q, entry);
    }
  }

  lemma HandedInRange(adj: seq<seq<int>>, q: int -> real, from: int, to: int)
    requires HandedOn(adj, q, from, to)
    ensures 0 <= to < |adj|
  {
  }
}
