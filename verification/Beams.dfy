/** SEARCH-LAYER as a function: the state of one best-first beam and its run. */
module Beams {
  import opened Order
  import opened Sorting

  /** Discovery order, candidate set C, result set W (both sorted), and expansion order. */
  datatype Beam = Beam(visited: seq<int>, frontier: seq<Result>, best: seq<Result>, expanded: seq<int>)

  const Empty := Beam([], [], [], [])

  predicate Unseen(n: int, b: Beam, id: int) {
    0 <= id < n && id !in b.visited
  }

  /** Visit `id`: it joins C exactly when it is among the ef best visited so far. */
  function Admit(q: int -> real, ef: int, b: Beam, id: int): Beam {
    var r := Result(id, q(id));
    var best := Offer(b.best, r, ef);
    Beam(b.visited + [id], if r in best then Insert(b.frontier, r) else b.frontier, best, b.expanded)
  }

  /** Visit the unseen in-range ids of a list, in list order. */
  function VisitAll(n: int, q: int -> real, ef: int, b: Beam, ids: seq<int>): Beam {
    if ids == [] then b
    else
      var c := VisitAll(n, q, ef, b, ids[..|ids| - 1]);
      var id := ids[|ids| - 1];
      if Unseen(n, c, id) then Admit(q, ef, c, id) else c
  }

  predicate Stops(b: Beam) {
    b.frontier == [] || (b.best != [] && b.frontier[0].distance > b.best[|b.best| - 1].distance)
  }

  /** The nearest candidate leaves C and is recorded as expanded. */
  function Pop(b: Beam): Beam
    requires b.frontier != []
  {
    b.(frontier := b.frontier[1..], expanded := b.expanded + [b.frontier[0].id])
  }

  function Expand(adj: seq<seq<int>>, q: int -> real, ef: int, b: Beam): Beam
    requires b.frontier != [] && 0 <= b.frontier[0].id < |adj|
  {
    VisitAll(|adj|, q, ef, Pop(b), adj[b.frontier[0].id])
  }

  ghost predicate Core(n: int, q: int -> real, ef: int, b: Beam) {
    && Distinct(b.visited) && InRange(n, b.visited)
    && b.best == Best(Tag(q, b.visited), ef)
    && Sorted(b.frontier)
    && (forall r :: r in b.frontier ==> r.id in b.visited && r.distance == q(r.id) && r.id !in b.expanded)
    && (forall r :: multiset(b.frontier)[r] <= 1)
    && (forall u :: u in b.expanded ==> u in b.visited)
    && Distinct(b.expanded)
    && (forall r :: r in b.best ==> r in b.frontier || r.id in b.expanded)
  }

  /** Every in-range neighbour of an expanded node has been visited. */
  ghost predicate Closed(adj: seq<seq<int>>, b: Beam) {
    forall u, v :: u in b.expanded && 0 <= u < |adj| && v in adj[u] && 0 <= v < |adj| ==> v in b.visited
  }

  ghost predicate Inv(adj: seq<seq<int>>, q: int -> real, ef: int, b: Beam) {
    Core(|adj|, q, ef, b) && Closed(adj, b)
  }

  lemma TagAppend(q: int -> real, ids: seq<int>, id: int)
    ensures Tag(q, ids + [id]) == Tag(q, ids) + [Result(id, q(id))]
  {
  }

  lemma AdmitKeepsCore(n: int, q: int -> real, ef: int, b: Beam, id: int)
    requires Core(n, q, ef, b) && Unseen(n, b, id)
    ensures Core(n, q, ef, Admit(q, ef, b, id))
  {
    hide Insert, Best;
    var r := Result(id, q(id));
    var c := Admit(q, ef, b, id);
    TagAppend(q, b.visited, id);
    BestStep(Tag(q, b.visited), r, ef);
    InsertSorted(b.frontier, r);
    assert r !in b.frontier;
    forall x
      ensures x in c.frontier ==> x in b.frontier || x == r
      ensures x in b.frontier ==> x in c.frontier
    {
      InsertMember(b.frontier, r, x);
    }
    forall x | x in c.best
      ensures x in c.frontier || x.id in c.expanded
    {
      InsertMember(b.best, r, x);
      InsertMember(b.frontier, r, x);
    }
  }

  lemma {:induction false} VisitAllKeepsCore(n: int, q: int -> real, ef: int, b: Beam, ids: seq<int>)
    requires Core(n, q, ef, b)
    ensures Core(n, q, ef, VisitAll(n, q, ef, b, ids))
    decreases |ids|
  {
    if ids != [] {
      var front := ids[..|ids| - 1];
      VisitAllKeepsCore(n, q, ef, b, front);
      var c := VisitAll(n, q, ef, b, front);
      if Unseen(n, c, ids[|ids| - 1]) {
        AdmitKeepsCore(n, q, ef, c, ids[|ids| - 1]);
      }
    }
  }

  /** What a neighbour list adds: every in-range id, and nothing else; C grows no faster than visited. */
  lemma {:induction false} VisitAllVisits(n: int, q: int -> real, ef: int, b: Beam, ids: seq<int>)
    ensures var c := VisitAll(n, q, ef, b, ids);
            && b.visited <= c.visited && c.expanded == b.expanded
            && |c.frontier| - |b.frontier| <= |c.visited| - |b.visited|
            && (forall v :: v in ids && 0 <= v < n ==> v in c.visited)
            && (forall v :: v in c.visited ==> v in b.visited || (v in ids && 0 <= v < n))
    decreases |ids|
  {
    if ids != [] {
      var front := ids[..|ids| - 1];
      assert ids == front + [ids[|ids| - 1]];
      VisitAllVisits(n, q, ef, b, front);
    }
  }

  lemma HeadLeaves(s: seq<Result>)
    requires s != [] && forall r :: multiset(s)[r] <= 1
    ensures s[0] !in s[1..]
    ensures forall r :: multiset(s[1..])[r] <= 1
    ensures forall r :: r in s <==> r == s[0] || r in s[1..]
  {
    MultisetTail(s);
    assert s == [s[0]] + s[1..];
    assert s[0] !in multiset(s[1..]);
  }

  lemma PopKeepsCore(n: int, q: int -> real, ef: int, b: Beam)
    requires Core(n, q, ef, b) && b.frontier != []
    ensures Core(n, q, ef, Pop(b))
  {
    var r := b.frontier[0];
    var rest := b.frontier[1..];
    HeadLeaves(b.frontier);
    SortedParts(b.frontier);
    assert r in b.frontier;
    forall x | x in rest
      ensures x.id != r.id
    {
      assert x in b.frontier;
    }
  }

  lemma ExpandKeepsInv(adj: seq<seq<int>>, q: int -> real, ef: int, b: Beam)
    requires Inv(adj, q, ef, b) && b.frontier != []
    ensures 0 <= b.frontier[0].id < |adj|
    ensures Inv(adj, q, ef, Expand(adj, q, ef, b))
    ensures var c := Expand(adj, q, ef, b);
            |adj| - |c.visited| + |c.frontier| < |adj| - |b.visited| + |b.frontier|
  {
    hide VisitAll, Admit, Best;
    var id := b.frontier[0].id;
    assert b.frontier[0] in b.frontier && id in b.visited;
    PopKeepsCore(|adj|, q, ef, b);
    VisitAllKeepsCore(|adj|, q, ef, Pop(b), adj[id]);
    VisitAllVisits(|adj|, q, ef, Pop(b), adj[id]);
    var c := Expand(adj, q, ef, b);
    forall u, v | u in c.expanded && 0 <= u < |adj| && v in adj[u] && 0 <= v < |adj|
      ensures v in c.visited
    {
      if u != id {
        assert u in b.expanded;
        assert v in b.visited;
      }
    }
  }

  lemma VisitedBound(n: nat, q: int -> real, ef: int, b: Beam)
    requires Core(n, q, ef, b)
    ensures |b.visited| <= n
  {
    DistinctInRange(n, b.visited);
  }

  /** The main loop; each round either visits something new or shrinks C. */
  function Run(adj: seq<seq<int>>, q: int -> real, ef: int, b: Beam): Beam
    requires Inv(adj, q, ef, b)
    decreases |adj| - |b.visited| + |b.frontier|
  {
    if Stops(b) then b
    else
      ExpandKeepsInv(adj, q, ef, b);
      VisitedBound(|adj|, q, ef, b);
      VisitedBound(|adj|, q, ef, Expand(adj, q, ef, b));
      Run(adj, q, ef, Expand(adj, q, ef, b))
  }

  /** The loop keeps its invariant and ends only when it may stop. */
  lemma {:induction false} RunInv(adj: seq<seq<int>>, q: int -> real, ef: int, b: Beam)
    requires Inv(adj, q, ef, b)
    ensures Inv(adj, q, ef, Run(adj, q, ef, b)) && Stops(Run(adj, q, ef, b))
    decreases |adj| - |b.visited| + |b.frontier|
  {
    if !Stops(b) {
      ExpandKeepsInv(adj, q, ef, b);
      VisitedBound(|adj|, q, ef, b);
      VisitedBound(|adj|, q, ef, Expand(adj, q, ef, b));
      RunInv(adj, q, ef, Expand(adj, q, ef, b));
    }
  }

  lemma EmptyInv(adj: seq<seq<int>>, q: int -> real, ef: int)
    ensures Inv(adj, q, ef, Empty)
  {
  }

  lemma EnterInv(adj: seq<seq<int>>, q: int -> real, entries: seq<int>, ef: int)
    ensures Inv(adj, q, ef, VisitAll(|adj|, q, ef, Empty, entries))
  {
    EmptyInv(adj, q, ef);
    VisitAllKeepsCore(|adj|, q, ef, Empty, entries);
    VisitAllVisits(|adj|, q, ef, Empty, entries);
  }

  /** SEARCH-LAYER from the given entry points. */
  function Search(adj: seq<seq<int>>, q: int -> real, entries: seq<int>, ef: int): Beam {
    if ef <= 0 || entries == [] then Empty
    else
      EnterInv(adj, q, entries, ef);
      Run(adj, q, ef, VisitAll(|adj|, q, ef, Empty, entries))
  }

  /** At exit the invariant holds and the loop condition is false. */
  lemma SearchInv(adj: seq<seq<int>>, q: int -> real, entries: seq<int>, ef: int)
    ensures Inv(adj, q, ef, Search(adj, q, entries, ef)) && Stops(Search(adj, q, entries, ef))
  {
    if ef <= 0 || entries == [] {
      EmptyInv(adj, q, ef);
    } else {
      EnterInv(adj, q, entries, ef);
      RunInv(adj, q, ef, VisitAll(|adj|, q, ef, Empty, entries));
    }
  }
}
