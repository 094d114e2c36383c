/** The exact condition for a wider beam to keep every rank: the graphs on which it loses one. */
module BeamLoss {
  import opened Order
  import opened Sorting
  import opened Beams
  import opened BeamTheorems
  import opened BeamMonotone
  import opened BeamEntry
  import opened BeamRanks
  import Scans

  // ---------- when a better node stays unseen ----------

  /** From a full beam whose worst result is too good for `via`, the only way out of `seen`. */
  lemma StaysUnseen(adj: seq<seq<int>>, q: int -> real, ef: int, b: Beam, via: int, seen: set<int>)
    requires ef > 0 && Inv(adj, q, ef, b) && |b.best| == ef && Feeds(adj, seen - {via}, seen)
    requires forall v :: v in b.visited ==> v in seen
    requires var V, last := Result(via, q(via)), b.best[ef - 1];
             last.distance < V.distance || (V !in b.frontier && !Better(V, last))
    ensures forall v :: v in Run(adj, q, ef, b).visited ==> v in seen
  {
    hide Run, Best, Better;
    var last := b.best[ef - 1];
    BestSorted(Tag(q, b.visited), ef);
    LastIsWorst(b.best);
    RunInside(adj, q, ef, b.frontier, last, seen, seen - {via}, b);
    if r :| Straggler(q, b.frontier, last, seen, seen - {via}, r) {
      assert false;
    }
  }

  /** A node better than everything the wide run visits, and visited by the narrow run alone. */
  lemma LosesRank(adj: seq<seq<int>>, q: int -> real, e: int, ef: int, ef': int, a: int)
    requires 0 < ef && 0 < ef' && 0 <= e < |adj| && a in Search(adj, q, [e], ef).visited
    requires forall v :: v in Search(adj, q, [e], ef').visited ==> Better(Result(a, q(a)), Result(v, q(v)))
    ensures !RanksKept(adj, q, e, ef, ef')
  {
    hide Search, Best, Better;
    var A, B := Search(adj, q, [e], ef), Search(adj, q, [e], ef');
    SearchInv(adj, q, [e], ef);
    SearchInv(adj, q, [e], ef');
    HeadIsBest(q, A.visited, ef, a);
    EntriesAreVisited(adj, q, [e], ef', e);
    HeadIsBest(q, B.visited, ef', e);
    var z := B.best[0];
    BestMember(Tag(q, B.visited), ef', z);
    TagMember(q, B.visited, z);
    StrictTotalOrder(A.best[0], Result(a, q(a)), z);
    StrictTotalOrder(Result(a, q(a)), A.best[0], z);
  }

  // ---------- the graphs ----------

  /**
   * The entry leads to the tied nodes c and w, and w to the third one, x; behind x are b1 and b2, and `via`, which is
   * c itself or a neighbour of c, leads to a.
   */
  function DetourList(e: int, w: int, x: int, c: int, b1: int, b2: int, via: int, a: int, u: int): seq<int> {
    if u == e then [c, w]
    else if u == w then [x]
    else if u == x then [b1, b2]
    else if u == via then [a]
    else if u == c then [via]
    else []
  }

  function DetourGraph(n: nat, e: int, w: int, x: int, c: int, b1: int, b2: int, via: int, a: int)
    : (adj: seq<seq<int>>)
    ensures |adj| == n && forall u :: 0 <= u < n ==> adj[u] == DetourList(e, w, x, c, b1, b2, via, a, u)
  {
    seq(n, u => DetourList(e, w, x, c, b1, b2, via, a, u))
  }

  /** The best node a, then b1 and b2, all of them ahead of the tied nodes; the wide beam has no use for `via`. */
  ghost predicate Detours(n: int, q: int -> real, e: int, w: int, x: int, c: int, b1: int, b2: int, via: int, a: int) {
    && Fan(n, q, e, w, x, c) && Scored(n, q, Result(a, q(a)))
    && Scored(n, q, Result(b1, q(b1))) && Scored(n, q, Result(b2, q(b2))) && 0 <= via < n
    && Better(Result(a, q(a)), Result(b1, q(b1))) && Better(Result(b1, q(b1)), Result(b2, q(b2)))
    && Better(Result(b2, q(b2)), Result(via, q(via))) && via != e && via != w && via != x
    && Better(Result(a, q(a)), Result(e, q(e))) && b1 != e && b2 != e
    && if via == c then q(b2) < q(c) else Better(Result(via, q(via)), Result(w, q(w)))
  }

  /** Where the entry leads to c and w, and w to x: both beams once the entry and w have been expanded. */
  lemma TwoExpanded(
      adj: seq<seq<int>>, q: int -> real, e: int, w: int, x: int, c: int, ef: int,
      first: seq<Result>, second: seq<Result>, best: seq<Result>, kept: bool)
    requires Fan(|adj|, q, e, w, x, c) && ef > 0 && adj[e] == [c, w] && adj[w] == [x]
    requires Offered(q, e, w, x, c, ef, first, second, best, kept)
    requires second != [] && second[|second| - 1].distance == q(w)
    ensures var X, C := Result(x, q(x)), Result(c, q(c));
            var b := Beam([e, c, w, x], if kept then [X, C] else [C], best, [e, w]);
            Inv(adj, q, ef, b) && Search(adj, q, [e], ef) == Run(adj, q, ef, b)
  {
    hide Inv, VisitAll, Run, Search, Expand, Offered, Better, Pop;
    var n, W, C := |adj|, Result(w, q(w)), Result(c, q(c));
    FanSteps(n, q, e, w, x, c, ef, first, second, best, kept);
    OpenEntry(adj, q, e, ef);
    var v := Beam([e, c, w], [W, C], second, [e]);
    ThirdStep(n, q, e, w, x, c, ef, first, second, best, kept);
    PopPair(v, W, C);
    ExpandTo(adj, q, ef, v, VisitAll(n, q, ef, Beam([e, c, w], [C], second, [e, w]), [x]));
  }

  lemma PopPair(b: Beam, w: Result, c: Result)
    requires b.frontier == [w, c]
    ensures Pop(b) == Beam(b.visited, [c], b.best, b.expanded + [w.id])
    ensures |b.expanded| == 1 ==> b.expanded + [w.id] == [b.expanded[0], w.id]
  {
  }

  lemma DetourStart(
      n: nat, q: int -> real, e: int, w: int, x: int, c: int, b1: int, b2: int, via: int, a: int, ef: int,
      first: seq<Result>, second: seq<Result>, best: seq<Result>, kept: bool)
    requires Detours(n, q, e, w, x, c, b1, b2, via, a) && ef > 0
    requires Offered(q, e, w, x, c, ef, first, second, best, kept)
    requires second != [] && second[|second| - 1].distance == q(w)
    ensures var adj := DetourGraph(n, e, w, x, c, b1, b2, via, a);
            var X, C := Result(x, q(x)), Result(c, q(c));
            var b := Beam([e, c, w, x], if kept then [X, C] else [C], best, [e, w]);
            Inv(adj, q, ef, b) && Search(adj, q, [e], ef) == Run(adj, q, ef, b)
  {
    hide Inv, VisitAll, Run, Search, DetourGraph, Offered;
    var adj := DetourGraph(n, e, w, x, c, b1, b2, via, a);
    assert adj[e] == [c, w] && adj[w] == [x];
    TwoExpanded(adj, q, e, w, x, c, ef, first, second, best, kept);
  }

  lemma ThirdStep(
      n: int, q: int -> real, e: int, w: int, x: int, c: int, ef: int,
      first: seq<Result>, second: seq<Result>, best: seq<Result>, kept: bool)
    requires Fan(n, q, e, w, x, c) && Offered(q, e, w, x, c, ef, first, second, best, kept)
    ensures var X, C := Result(x, q(x)), Result(c, q(c));
            VisitAll(n, q, ef, Beam([e, c, w], [C], second, [e, w]), [x]) ==
            Beam([e, c, w, x], if kept then [X, C] else [C], best, [e, w])
  {
    hide VisitAll, VisitOne, Insert, Offer;
    var X, C := Result(x, q(x)), Result(c, q(c));
    var b := Beam([e, c, w], [C], second, [e, w]);
    VisitThree(n, q, ef, b, x, x, x);
    FourIds(e, c, w, x);
    InsertOne(C, X);
    VisitNew(n, q, ef, b, x, best, if kept then [X, C] else [C], [e, c, w, x]);
  }

  /** The narrow beam goes on to c. */
  lemma NarrowFinds(
      n: nat, q: int -> real, e: int, w: int, x: int, c: int, b1: int, b2: int, via: int, a: int, ef: int,
      first: seq<Result>, best: seq<Result>)
    requires Detours(n, q, e, w, x, c, b1, b2, via, a) && ef > 0
    requires Offered(q, e, w, x, c, ef, first, best, best, false)
    requires best != [] && best[|best| - 1].distance == q(w) && (via != c ==> ef == 1 && best == [Result(w, q(w))])
    ensures a in Search(DetourGraph(n, e, w, x, c, b1, b2, via, a), q, [e], ef).visited
  {
    hide Inv, VisitAll, Run, Search, DetourGraph, Offered;
    var W, C := Result(w, q(w)), Result(c, q(c));
    DetourStart(n, q, e, w, x, c, b1, b2, via, a, ef, first, best, best, false);
    var adj := DetourGraph(n, e, w, x, c, b1, b2, via, a);
    var b := Beam([e, c, w, x], [C], best, [e, w]);
    if via == c {
      assert adj[c] == [a];
      HeadVisits(adj, q, ef, b, a);
    } else {
      assert adj[c] == [via] && adj[via] == [a];
      ThroughVia(adj, q, b, W, C, via);
      HeadVisits(adj, q, ef, Expand(adj, q, ef, b), a);
    }
  }

  /** What the next node to expand points at is visited. */
  lemma HeadVisits(adj: seq<seq<int>>, q: int -> real, ef: int, b: Beam, a: int)
    requires Inv(adj, q, ef, b) && !Stops(b) && 0 <= a < |adj|
    requires 0 <= b.frontier[0].id < |adj| ==> a in adj[b.frontier[0].id]
    ensures a in Run(adj, q, ef, b).visited
  {
    hide VisitAll, Best;
    RunStep(adj, q, ef, b);
    VisitAllVisits(|adj|, q, ef, Pop(b), adj[b.frontier[0].id]);
    RunOnlyGrows(adj, q, ef, Expand(adj, q, ef, b));
  }

  /** A beam of one moves on from c to a better neighbour. */
  lemma ThroughVia(adj: seq<seq<int>>, q: int -> real, b: Beam, W: Result, C: Result, via: int)
    requires Inv(adj, q, 1, b) && b.frontier == [C] && b.best == [W] && W.distance == C.distance
    requires 0 <= C.id < |adj| && adj[C.id] == [via] && Unseen(|adj|, b, via) && Better(Result(via, q(via)), W)
    ensures var d := Expand(adj, q, 1, b);
            Inv(adj, q, 1, d) && !Stops(d) && d.frontier[0].id == via && Run(adj, q, 1, b) == Run(adj, q, 1, d)
  {
    hide Inv, Run, VisitAll, Offer, Insert, Better;
    var V := Result(via, q(via));
    RunStep(adj, q, 1, b);
    OfferOne(W, V);
    InsertOne(V, V);
    VisitThree(|adj|, q, 1, Pop(b), via, via, via);
    VisitNew(|adj|, q, 1, Pop(b), via, [V], [V], b.visited + [via]);
  }

  lemma TwoVisits(n: int, q: int -> real, ef: int, b: Beam, y: int, z: int)
    requires Unseen(n, b, y) && Unseen(n, b, z) && y != z
    ensures var Y, Z := Result(y, q(y)), Result(z, q(z));
            var c := VisitAll(n, q, ef, b, [y, z]);
            && c.best == Offer(Offer(b.best, Y, ef), Z, ef)
            && (forall v :: v in c.visited <==> v in b.visited || v == y || v == z)
            && (forall r :: r in c.frontier ==> r in b.frontier || r == Y || r == Z)
  {
    hide Offer, VisitAll;
    var Y, Z := Result(y, q(y)), Result(z, q(z));
    VisitThree(n, q, ef, b, y, z, z);
    var d := VisitOne(n, q, ef, b, y);
    forall r | r in VisitOne(n, q, ef, d, z).frontier
      ensures r in b.frontier || r == Y || r == Z
    {
      InsertMember(b.frontier, Y, r);
      InsertMember(d.frontier, Z, r);
    }
  }

  /** The wide beam expands x first, and its worst result is then b2. */
  lemma WideMisses(
      n: nat, q: int -> real, e: int, w: int, x: int, c: int, b1: int, b2: int, via: int, a: int, ef: int,
      first: seq<Result>, second: seq<Result>, best: seq<Result>)
    requires Detours(n, q, e, w, x, c, b1, b2, via, a) && ef > 0
    requires Offered(q, e, w, x, c, ef, first, second, best, true)
    requires second != [] && second[|second| - 1].distance == q(w)
    requires best != [] && best[|best| - 1].distance == q(w)
    requires var w' := Offer(Offer(best, Result(b1, q(b1)), ef), Result(b2, q(b2)), ef);
             |w'| == ef && w'[ef - 1] == Result(b2, q(b2))
    ensures var b := Search(DetourGraph(n, e, w, x, c, b1, b2, via, a), q, [e], ef);
            && b1 in b.visited && b2 in b.visited
            && forall v :: v in b.visited ==> v in {e, c, w, x, b1, b2, via}
  {
    hide Inv, VisitAll, Run, Search, DetourGraph, Offer, Offered;
    var X, C := Result(x, q(x)), Result(c, q(c));
    DetourStart(n, q, e, w, x, c, b1, b2, via, a, ef, first, second, best, true);
    var adj := DetourGraph(n, e, w, x, c, b1, b2, via, a);
    var b := Beam([e, c, w, x], [X, C], best, [e, w]);
    assert adj[x] == [b1, b2];
    TwoVisits(n, q, ef, Pop(b), b1, b2);
    var d := VisitAll(n, q, ef, Pop(b), [b1, b2]);
    ExpandTo(adj, q, ef, b, d);
    RunOnlyGrows(adj, q, ef, d);
    DetourFeeds(n, e, w, x, c, b1, b2, via, a);
    StaysUnseen(adj, q, ef, d, via, {e, c, w, x, b1, b2, via});
  }

  lemma DetourFeeds(n: nat, e: int, w: int, x: int, c: int, b1: int, b2: int, via: int, a: int)
    ensures var seen := {e, c, w, x, b1, b2, via};
            Feeds(DetourGraph(n, e, w, x, c, b1, b2, via, a), seen - {via}, seen)
  {
  }

  lemma ExpandTo(adj: seq<seq<int>>, q: int -> real, ef: int, b: Beam, c: Beam)
    requires Inv(adj, q, ef, b) && !Stops(b)
    requires 0 <= b.frontier[0].id < |adj| ==> VisitAll(|adj|, q, ef, Pop(b), adj[b.frontier[0].id]) == c
    ensures Inv(adj, q, ef, c) && Run(adj, q, ef, b) == Run(adj, q, ef, c)
  {
    RunStep(adj, q, ef, b);
  }

  // ---------- a lost rank ----------

  /** No graph over n nodes loses a rank to a wider beam. */
  ghost predicate AlwaysKept(n: nat, q: int -> real) {
    forall adj: seq<seq<int>>, e, ef, ef' :: |adj| == n && ef <= ef' ==> RanksKept(adj, q, e, ef, ef')
  }

  /** At most two distinct neighbours each, in range and never the node itself. */
  ghost predicate Plain(adj: seq<seq<int>>) {
    forall u :: 0 <= u < |adj| ==>
      |adj[u]| <= 2 && Distinct(adj[u]) && InRange(|adj|, adj[u]) && u !in adj[u]
  }

  ghost predicate Loss(n: nat, q: int -> real, adj: seq<seq<int>>, e: int, ef: int, ef': int) {
    |adj| == n && 0 <= e < n && 0 < ef <= ef' && Plain(adj) && !RanksKept(adj, q, e, ef, ef')
  }

  /** Some graph of out-degree two loses a rank. */
  ghost predicate Loses(n: nat, q: int -> real) {
    exists adj, e, ef, ef' :: Loss(n, q, adj, e, ef, ef')
  }

  lemma DetourIsPlain(n: nat, q: int -> real, e: int, w: int, x: int, c: int, b1: int, b2: int, via: int, a: int)
    requires Detours(n, q, e, w, x, c, b1, b2, via, a)
    ensures Plain(DetourGraph(n, e, w, x, c, b1, b2, via, a))
  {
    hide DetourGraph, Better;
    var adj := DetourGraph(n, e, w, x, c, b1, b2, via, a);
    DetourIds(n, q, e, w, x, c, b1, b2, via, a);
    forall u | 0 <= u < n
      ensures |adj[u]| <= 2 && Distinct(adj[u]) && InRange(n, adj[u]) && u !in adj[u]
    {
      assert adj[u] == DetourList(e, w, x, c, b1, b2, via, a, u);
    }
  }

  lemma DetourIds(n: int, q: int -> real, e: int, w: int, x: int, c: int, b1: int, b2: int, via: int, a: int)
    requires Detours(n, q, e, w, x, c, b1, b2, via, a)
    ensures b1 != b2 && b1 != x && b2 != x && a != via
  {
  }

  /** The node a is better than everything the wide beam meets. */
  lemma DetourLoses(
      n: nat, q: int -> real, e: int, w: int, x: int, c: int, b1: int, b2: int, via: int, a: int, ef: int, ef': int)
    requires Detours(n, q, e, w, x, c, b1, b2, via, a) && 0 < ef <= ef'
    requires a in Search(DetourGraph(n, e, w, x, c, b1, b2, via, a), q, [e], ef).visited
    requires forall v :: v in Search(DetourGraph(n, e, w, x, c, b1, b2, via, a), q, [e], ef').visited ==>
               v in {e, c, w, x, b1, b2, via}
    ensures Loses(n, q)
  {
    hide Search, RanksKept, Plain;
    var adj := DetourGraph(n, e, w, x, c, b1, b2, via, a);
    forall v | v in Search(adj, q, [e], ef').visited
      ensures Better(Result(a, q(a)), Result(v, q(v)))
    {
    }
    LosesRank(adj, q, e, ef, ef', a);
    DetourIsPlain(n, q, e, w, x, c, b1, b2, via, a);
    assert Loss(n, q, adj, e, ef, ef');
  }

  lemma NarrowBest(n: nat, q: int -> real, e: int, w: int, x: int, c: int, b1: int, b2: int, via: int, a: int)
    requires Detours(n, q, e, w, x, c, b1, b2, via, a)
    requires a in Search(DetourGraph(n, e, w, x, c, b1, b2, via, a), q, [e], 1).visited
    ensures Search(DetourGraph(n, e, w, x, c, b1, b2, via, a), q, [e], 1).best == [Result(a, q(a))]
  {
    var adj := DetourGraph(n, e, w, x, c, b1, b2, via, a);
    var b := Search(adj, q, [e], 1);
    hide Search, DetourGraph, Best, Inv;
    var inside := u => u in {e, c, w, x, b1, b2, via, a};
    DetourStays(n, e, w, x, c, b1, b2, via, a);
    StaysInside(adj, q, [e], 1, inside);
    TopOne(adj, q, [e], a);
    forall r | r in b.best
      ensures r.id == a || Better(Result(a, q(a)), Result(r.id, q(r.id)))
    {
      assert inside(r.id);
    }
  }

  lemma DetourStays(n: nat, e: int, w: int, x: int, c: int, b1: int, b2: int, via: int, a: int)
    ensures var adj, inside := DetourGraph(n, e, w, x, c, b1, b2, via, a), u => u in {e, c, w, x, b1, b2, via, a};
            forall u, v :: 0 <= u < |adj| && inside(u) && v in adj[u] && 0 <= v < |adj| ==> inside(v)
  {
  }

  lemma TopOne(adj: seq<seq<int>>, q: int -> real, entries: seq<int>, a: int)
    requires a in Search(adj, q, entries, 1).visited
    requires forall r :: r in Search(adj, q, entries, 1).best ==>
               r.id == a || Better(Result(a, q(a)), Result(r.id, q(r.id)))
    ensures Search(adj, q, entries, 1).best == [Result(a, q(a))]
  {
    var b := Search(adj, q, entries, 1);
    SearchInv(adj, q, entries, 1);
    HeadIsBest(q, b.visited, 1, a);
    Scans.BestKnown(q, b.visited, 1);
    assert b.best[0] in b.best;
  }

  lemma WideBest(n: nat, q: int -> real, e: int, w: int, x: int, c: int, b1: int, b2: int, via: int, a: int)
    requires Detours(n, q, e, w, x, c, b1, b2, via, a) && Better(Result(c, q(c)), Result(e, q(e)))
    requires var b := Search(DetourGraph(n, e, w, x, c, b1, b2, via, a), q, [e], 2);
             && b1 in b.visited && b2 in b.visited
             && forall v :: v in b.visited ==> v in {e, c, w, x, b1, b2, via}
    ensures Search(DetourGraph(n, e, w, x, c, b1, b2, via, a), q, [e], 2).best ==
            [Result(b1, q(b1)), Result(b2, q(b2))]
  {
    var b := Search(DetourGraph(n, e, w, x, c, b1, b2, via, a), q, [e], 2);
    hide Search, DetourGraph;
    SearchInv(DetourGraph(n, e, w, x, c, b1, b2, via, a), q, [e], 2);
    forall v | v in b.visited
      ensures v == b1 || v == b2 || Better(Result(b2, q(b2)), Result(v, q(v)))
    {
    }
    TopTwo(q, b.visited, b1, b2);
  }

  lemma TopTwo(q: int -> real, ids: seq<int>, y: int, z: int)
    requires Distinct(ids) && y in ids && z in ids && Better(Result(y, q(y)), Result(z, q(z)))
    requires forall v :: v in ids ==> v == y || v == z || Better(Result(z, q(z)), Result(v, q(v)))
    ensures Best(Tag(q, ids), 2) == [Result(y, q(y)), Result(z, q(z))]
  {
    hide Sort, Better;
    var w, Y, Z := Best(Tag(q, ids), 2), Result(y, q(y)), Result(z, q(z));
    Scans.BestKnown(q, ids, 2);
    BestSorted(Tag(q, ids), 2);
    TagMember(q, ids, Y);
    TagMember(q, ids, Z);
    BestIsBest(Tag(q, ids), 2, Y);
    BestIsBest(Tag(q, ids), 2, Z);
    forall r | r in w
      ensures r == Y || r == Z || (Better(Y, r) && Better(Z, r))
    {
      StrictTotalOrder(Y, Z, r);
    }
    PairOf(w, Y, Z);
  }

  lemma PairOf(w: seq<Result>, y: Result, z: Result)
    requires |w| <= 2 && Sorted(w) && Distinct(Ids(w)) && Better(y, z)
    requires forall r :: r in w ==> r == y || r == z || (Better(y, r) && Better(z, r))
    requires y in w || (|w| == 2 && forall r :: r in w ==> !Better(y, r))
    requires z in w || (|w| == 2 && forall r :: r in w ==> !Better(z, r))
    ensures w == [y, z]
  {
    StrictTotalOrder(y, z, y);
    if |w| == 2 {
      assert w[0] in w && w[1] in w && Ids(w)[0] != Ids(w)[1];
    }
  }

  /** An entry worse than the tied nodes: ef = 1 finds a, ef = 2 does not. */
  lemma LoseBehind(n: nat, q: int -> real, e: int, w: int, x: int, c: int, b1: int, b2: int, via: int, a: int)
    requires Detours(n, q, e, w, x, c, b1, b2, via, a) && Better(Result(c, q(c)), Result(e, q(e)))
    ensures var adj := DetourGraph(n, e, w, x, c, b1, b2, via, a);
            && Search(adj, q, [e], 1).best == [Result(a, q(a))]
            && Search(adj, q, [e], 2).best == [Result(b1, q(b1)), Result(b2, q(b2))]
    ensures Loses(n, q)
  {
    var W, X, C, B1, B2 := Result(w, q(w)), Result(x, q(x)), Result(c, q(c)), Result(b1, q(b1)), Result(b2, q(b2));
    TiedOrder(q, w, x, c);
    assert Better(B1, W) && Better(B2, W) && !Better(B2, B1);
    OfferedWorse(n, q, e, w, x, c);
    hide Better, Offer, Insert, VisitAll, DetourGraph, Search, Loses, RanksKept, Offered;
    NarrowFinds(n, q, e, w, x, c, b1, b2, via, a, 1, [C], [W]);
    OfferTwo(W, X, B1);
    OfferTwo(B1, W, B2);
    WideMisses(n, q, e, w, x, c, b1, b2, via, a, 2, [C, Result(e, q(e))], [W, C], [W, X]);
    DetourLoses(n, q, e, w, x, c, b1, b2, via, a, 1, 2);
    NarrowBest(n, q, e, w, x, c, b1, b2, via, a);
    WideBest(n, q, e, w, x, c, b1, b2, via, a);
  }

  lemma OfferMiddle(a: Result, b: Result, c: Result, x: Result)
    requires !Better(x, a) && Better(x, b)
    ensures Offer([a, b, c], x, 3) == [a, x, b]
  {
    hide Insert, Take;
    Prepend(a, b, c, x);
    Prepend(a, x, b, c);
    InsertTwo(b, c, x);
    InsertLater(a, [b, c], x);
    Cut(a, x, b, c);
  }

  lemma BetweenOrder(e: Result, y: Result, z: Result, w: Result)
    requires Better(e, y) && Better(y, z) && z.distance < w.distance
    ensures Better(e, w) && Better(y, w) && Better(z, w) && !Better(y, e) && !Better(z, e) && !Better(z, y)
  {
  }

  /** An entry between a and the other two: ef = 2 finds a, ef = 3 does not. */
  lemma LoseBetween(n: nat, q: int -> real, e: int, w: int, x: int, c: int, b1: int, b2: int, a: int)
    requires Detours(n, q, e, w, x, c, b1, b2, c, a) && Better(Result(e, q(e)), Result(b1, q(b1)))
    ensures Loses(n, q)
  {
    var E, W, X, C := Result(e, q(e)), Result(w, q(w)), Result(x, q(x)), Result(c, q(c));
    var B1, B2 := Result(b1, q(b1)), Result(b2, q(b2));
    TiedOrder(q, w, x, c);
    BetweenOrder(E, B1, B2, W);
    OfferedBetter(n, q, e, w, x, c);
    hide Better, Offer, Insert, VisitAll, DetourGraph, Search, Loses, RanksKept, Offered;
    NarrowFinds(n, q, e, w, x, c, b1, b2, c, a, 2, [E, C], [E, W]);
    OfferMiddle(E, W, X, B1);
    OfferLast(E, B1, W, B2);
    WideMisses(n, q, e, w, x, c, b1, b2, c, a, 3, [E, C], [E, W, C], [E, W, X]);
    DetourLoses(n, q, e, w, x, c, b1, b2, c, a, 2, 3);
  }

  // ---------- choosing the entry ----------

  /** The given nodes from best to worst. */
  lemma Ranked(n: int, q: int -> real, ids: seq<int>) returns (r: seq<int>)
    requires Distinct(ids) && InRange(n, ids)
    ensures |r| == |ids| && (forall i :: i in r ==> i in ids && 0 <= i < n)
    ensures forall i, j :: 0 <= i < j < |r| ==> Better(Result(r[i], q(r[i])), Result(r[j], q(r[j])))
  {
    hide Sort, Better;
    var s := Sort(Tag(q, ids));
    SortSorted(Tag(q, ids));
    Scans.SortDistinct(q, ids);
    r := Ids(s);
    forall i | 0 <= i < |s|
      ensures r[i] in ids && s[i] == Result(r[i], q(r[i]))
    {
      assert s[i] in s;
      SortMember(Tag(q, ids), s[i]);
      TagMember(q, ids, s[i]);
    }
    forall i, j | 0 <= i < j < |r|
      ensures Better(Result(r[i], q(r[i])), Result(r[j], q(r[j])))
    {
      StrictTotalOrder(s[i], s[j], s[i]);
      assert r[i] != r[j];
    }
  }

  lemma Another(n: nat, ids: seq<int>) returns (e: int)
    requires |ids| < n
    ensures 0 <= e < n && e !in ids
  {
    if forall e :: 0 <= e < n ==> e in ids {
      AtMostLength(ids);
      RangeSize(n);
      SubsetSize(Range(n), Elements(ids));
      assert false;
    }
    e :| 0 <= e < n && e !in ids;
  }

  /** Four tied nodes and three strictly nearer ones: the largest of the four is the entry. */
  lemma LoseAmongFour(n: nat, q: int -> real, e: int, w: int, x: int, c: int, b1: int, b2: int, a: int)
    requires Detours(n, q, e, w, x, c, b1, b2, c, a) && q(e) == q(w)
    ensures Loses(n, q)
  {
    hide Loses, DetourGraph, RanksKept;
    if c < e {
      LoseBehind(n, q, e, w, x, c, b1, b2, c, a);
    } else if x < e {
      LoseBehind(n, q, c, w, x, e, b1, b2, e, a);
    } else if w < e {
      LoseBehind(n, q, c, w, e, x, b1, b2, x, a);
    } else {
      LoseBehind(n, q, c, e, w, x, b1, b2, x, a);
    }
  }

  /** Four strictly nearer nodes: the second best of them is the entry. */
  lemma FourNearer(n: nat, q: int -> real, w: int, x: int, c: int, i: int, j: int, k: int, e: int)
    requires NearerTrio(n, q, w, x, c, i, j, k)
    requires 0 <= e < n && e != i && e != j && e != k && q(e) < q(w)
    ensures Loses(n, q)
  {
    hide Loses, DetourGraph, RanksKept;
    var r := Ranked(n, q, [i, j, k, e]);
    assert r[0] in r && r[1] in r && r[2] in r && r[3] in r;
    LoseBetween(n, q, r[1], w, x, c, r[2], r[3], r[0]);
  }

  lemma NearerTrioLoses(n: nat, q: int -> real, w: int, x: int, c: int, i: int, j: int, k: int)
    requires NearerTrio(n, q, w, x, c, i, j, k)
    ensures Loses(n, q)
  {
    hide Loses, DetourGraph, RanksKept;
    var e := Another(n, [w, x, c, i, j, k]);
    if q(e) < q(w) {
      FourNearer(n, q, w, x, c, i, j, k, e);
    } else {
      var r := Ranked(n, q, [i, j, k]);
      assert r[0] in r && r[1] in r && r[2] in r;
      if q(e) == q(w) {
        LoseAmongFour(n, q, e, w, x, c, r[1], r[2], r[0]);
      } else {
        LoseBehind(n, q, e, w, x, c, r[1], r[2], c, r[0]);
      }
    }
  }

  /** A fifth tied node after the first of four: the largest is the entry unless the fifth one is larger. */
  lemma LoseAmongFive(n: nat, q: int -> real, v: int, w: int, x: int, c: int, e: int, b1: int, b2: int, a: int)
    requires Detours(n, q, e, w, x, c, b1, b2, v, a) && q(e) == q(v) == q(w) && v < w && v < e < c
    ensures Loses(n, q)
  {
    hide Loses, DetourGraph, RanksKept;
    if x < e {
      LoseBehind(n, q, c, w, x, e, b1, b2, v, a);
    } else if w < e {
      LoseBehind(n, q, c, w, e, x, b1, b2, v, a);
    } else {
      LoseBehind(n, q, c, e, w, x, b1, b2, v, a);
    }
  }

  /** Four nodes sort before v: the worst of them ties with v or all four are strictly nearer. */
  lemma FourAhead(n: nat, q: int -> real, v: int, w: int, x: int, c: int, i: int, j: int, k: int, e: int)
    requires TiedFour(n, q, v, w, x, c, i, j, k) && 0 <= e < n && e != i && e != j && e != k
    requires Better(Result(e, q(e)), Result(v, q(v)))
    ensures Loses(n, q)
  {
    hide Loses, DetourGraph, RanksKept;
    var r := Ranked(n, q, [i, j, k, e]);
    assert r[0] in r && r[1] in r && r[2] in r && r[3] in r;
    if q(r[3]) == q(v) {
      LoseBehind(n, q, c, v, w, x, r[1], r[2], r[3], r[0]);
    } else {
      LoseBetween(n, q, r[1], w, x, c, r[2], r[3], r[0]);
    }
  }

  lemma TiedFourLoses(n: nat, q: int -> real, v: int, w: int, x: int, c: int, i: int, j: int, k: int)
    requires TiedFour(n, q, v, w, x, c, i, j, k)
    ensures Loses(n, q)
  {
    hide Loses, DetourGraph, RanksKept;
    var e := Another(n, [v, w, x, c, i, j, k]);
    if Better(Result(e, q(e)), Result(v, q(v))) {
      FourAhead(n, q, v, w, x, c, i, j, k, e);
    } else {
      var r := Ranked(n, q, [i, j, k]);
      assert r[0] in r && r[1] in r && r[2] in r;
      if Better(Result(c, q(c)), Result(e, q(e))) {
        LoseBehind(n, q, e, w, x, c, r[1], r[2], v, r[0]);
      } else {
        LoseAmongFive(n, q, v, w, x, c, e, r[1], r[2], r[0]);
      }
    }
  }

  // ---------- the exact condition ----------

  /**
   * The exact condition for one entry point: no rank of the result gets worse when the beam is widened, on every
   * graph over n nodes, if and only if the distances do not allow a detour; where they do, a graph of out-degree
   * two loses a rank. Six nodes never do.
   */
  lemma RanksKeptExactly(n: nat, q: int -> real)
    ensures AlwaysKept(n, q) <==> !CanLose(n, q)
    ensures Loses(n, q) <==> CanLose(n, q)
    ensures n <= 6 || NoTies(n, q) ==> AlwaysKept(n, q)
  {
    if CanLose(n, q) {
      if w, x, c, i, j, k :| NearerTrio(n, q, w, x, c, i, j, k) {
        NearerTrioLoses(n, q, w, x, c, i, j, k);
      } else {
        var v, w, x, c, i, j, k :| TiedFour(n, q, v, w, x, c, i, j, k);
        TiedFourLoses(n, q, v, w, x, c, i, j, k);
      }
    } else {
      forall adj: seq<seq<int>>, e, ef, ef' | |adj| == n && ef <= ef'
        ensures RanksKept(adj, q, e, ef, ef')
      {
        KeepsRanks(adj, q, e, ef, ef');
      }
      if adj, e, ef, ef' :| Loss(n, q, adj, e, ef, ef') {
        KeepsRanks(adj, q, e, ef, ef');
      }
    }
  }

  // ---------- an instance ----------

  /** Entry 6 leads to nodes 5 and 3, tied with 4 behind 3; behind 5 is the best node 0, behind 4 are 1 and 2. */
  const DETOUR: seq<seq<int>> := [[], [], [], [4], [1, 2], [0], [5, 3]]

  function DetourScore(u: int): real {
    if u == 0 then 1.0 else if u == 1 then 2.0 else if u == 2 then 3.0 else if u == 6 then 20.0 else 10.0
  }

  /**
   * With three tied nodes a wider beam can give a worse answer: searching from the one entry with ef = 1 finds the
   * nearest node, and with ef = 2 every result is farther.
   */
  lemma WiderCanBeWorse()
    ensures var narrow, wide := Search(DETOUR, DetourScore, [6], 1).best, Search(DETOUR, DetourScore, [6], 2).best;
            && Ids(narrow) == [0] && Ids(wide) == [1, 2]
            && Better(narrow[0], wide[0])
  {
    hide Search, Loses, RanksKept;
    LoseBehind(7, DetourScore, 6, 3, 4, 5, 1, 2, 5, 0);
    assert DETOUR == DetourGraph(7, 6, 3, 4, 5, 1, 2, 5, 0);
  }
}
