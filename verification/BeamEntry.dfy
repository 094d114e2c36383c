/** Widening the beam of a search with a single entry point, as every query makes it. */
module BeamEntry {
  import opened Order
  import opened Sorting
  import opened Beams
  import opened BeamTheorems
  import opened BeamMonotone
  import Scans

  // ---------- three nodes are too few to fall out of step ----------

  /** Once the entry is expanded; a beam of one that still holds only the entry has nothing else to expand. */
  ghost predicate PastEntry(q: int -> real, ef: int, e: int, b: Beam) {
    && e in b.expanded
    && (ef == 1 && b.best == [Result(e, q(e))] ==> b.frontier == [])
  }

  lemma AdmitPastEntry(n: int, q: int -> real, ef: int, e: int, b: Beam, id: int)
    requires Core(n, q, ef, b) && PastEntry(q, ef, e, b) && Unseen(n, b, id)
    ensures PastEntry(q, ef, e, Admit(q, ef, b, id))
  {
    var r, E := Result(id, q(id)), Result(e, q(e));
    var c := Admit(q, ef, b, id);
    if ef == 1 && c.best == [E] {
      assert c.best[0] == E && r != E;
      assert b.best == [b.best[0]];
      assert Insert(b.best, r)[0] == if Better(r, b.best[0]) then r else b.best[0];
    }
  }

  lemma {:induction false} VisitAllPastEntry(n: int, q: int -> real, ef: int, e: int, b: Beam, ids: seq<int>)
    requires Core(n, q, ef, b) && PastEntry(q, ef, e, b)
    ensures PastEntry(q, ef, e, VisitAll(n, q, ef, b, ids))
    decreases |ids|
  {
    if ids != [] {
      var front := ids[..|ids| - 1];
      VisitAllPastEntry(n, q, ef, e, b, front);
      VisitAllKeepsCore(n, q, ef, b, front);
      var c := VisitAll(n, q, ef, b, front);
      if Unseen(n, c, ids[|ids| - 1]) {
        AdmitPastEntry(n, q, ef, e, c, ids[|ids| - 1]);
      }
    }
  }

  lemma ExpandPastEntry(adj: seq<seq<int>>, q: int -> real, ef: int, e: int, b: Beam)
    requires Inv(adj, q, ef, b) && b.frontier != [] && 0 <= b.frontier[0].id < |adj|
    requires PastEntry(q, ef, e, b) || (b == Beam([e], [Result(e, q(e))], [Result(e, q(e))], []))
    ensures PastEntry(q, ef, e, Expand(adj, q, ef, b))
  {
    PopKeepsCore(|adj|, q, ef, b);
    VisitAllPastEntry(|adj|, q, ef, e, Pop(b), adj[b.frontier[0].id]);
  }

  /** Three different nodes out of three are all there are. */
  lemma OnlyThree(n: int, u: int, v: int, w: int, x: int)
    requires n <= 3 && 0 <= u < n && 0 <= v < n && 0 <= w < n && u != v && v != w && u != w && 0 <= x < n
    ensures x == u || x == v || x == w
  {
  }

  lemma AllTheSame(s: seq<Result>, r: Result)
    requires Distinct(Ids(s)) && s != [] && forall x :: x in s ==> x == r
    ensures s == [r]
  {
    FirstTwo(s, r);
  }

  lemma FirstTwo(s: seq<Result>, r: Result)
    requires s != [] && forall x :: x in s ==> x == r
    ensures s[0] == r && (|s| > 1 ==> Ids(s)[0] == Ids(s)[1])
  {
    assert s[0] in s;
    if |s| > 1 {
      assert s[1] in s;
    }
  }

  /** With three nodes at most, the worst result cannot tie with both heads. */
  lemma NoThirdNode(n: int, q: int -> real, ef: int, ef': int, e: int, a: Beam, b: Beam)
    requires n <= 3 && 0 < ef <= ef' && Core(n, q, ef, a) && Core(n, q, ef', b) && InStep(ef, a, b)
    requires !Stops(a) && PastEntry(q, ef, e, a)
    requires b.frontier != [] && b.frontier[0] !in a.frontier && a.best != []
    ensures var h, c, last := a.frontier[0], b.frontier[0], a.best[|a.best| - 1];
            c.distance == last.distance == h.distance ==> c == h || h == last
  {
    WorstOf(n, q, ef, a);
    var h, c, last := a.frontier[0], b.frontier[0], a.best[|a.best| - 1];
    assert c in b.frontier && h in b.frontier && Surplus(ef, a, c);
    if c.distance == last.distance == h.distance && c != h && h != last {
      assert Better(last, c);
      OnlyThree(n, h.id, c.id, last.id, e);
      assert last == Result(e, q(e));
      forall x | x in a.best
        ensures x == last
      {
        BestMember(Tag(q, a.visited), ef, x);
        TagMember(q, a.visited, x);
        OnlyThree(n, h.id, c.id, last.id, x.id);
        assert Better(x, c);
        SortedHead(b.frontier, h);
      }
      BestIdsDistinct(q, a.visited, ef);
      AllTheSame(a.best, last);
    }
  }

  lemma SortedHead(s: seq<Result>, r: Result)
    requires Sorted(s) && r in s
    ensures !Better(r, s[0])
  {
    var i :| 0 <= i < |s| && s[i] == r;
    StrictTotalOrder(r, r, r);
  }

  lemma BestIdsDistinct(q: int -> real, ids: seq<int>, ef: int)
    requires Distinct(ids)
    ensures Distinct(Ids(Best(Tag(q, ids), ef)))
  {
    Scans.BestKnown(q, ids, ef);
  }

  lemma SmallHeadsAgree(n: int, q: int -> real, ef: int, ef': int, e: int, a: Beam, b: Beam)
    requires n <= 3 && 0 < ef <= ef' && Core(n, q, ef, a) && Core(n, q, ef', b) && InStep(ef, a, b)
    requires !Stops(a) && PastEntry(q, ef, e, a)
    ensures b.frontier != [] && a.frontier[0] == b.frontier[0] && !Stops(b)
  {
    WorstOf(n, q, ef, a);
    var last, c := a.best[|a.best| - 1], b.frontier[0];
    assert c in b.frontier;
    if c !in a.frontier {
      assert Surplus(ef, a, c);
      NoThirdNode(n, q, ef, ef', e, a, b);
    }
    SameHead(a.frontier, b.frontier, last);
    WideGoesOn(n, q, ef, ef', a, b);
  }

  lemma {:induction false} SmallRunInStep(
      adj: seq<seq<int>>, q: int -> real, ef: int, ef': int, e: int, a: Beam, b: Beam)
    requires |adj| <= 3 && 0 < ef <= ef' && Inv(adj, q, ef, a) && Inv(adj, q, ef', b) && InStep(ef, a, b)
    requires PastEntry(q, ef, e, a)
    ensures Run(adj, q, ef, a).expanded <= Run(adj, q, ef', b).expanded
    decreases |adj| - |a.visited| + |a.frontier|
  {
    if Stops(a) {
      RunOnlyGrows(adj, q, ef', b);
    } else {
      SmallHeadsAgree(|adj|, q, ef, ef', e, a, b);
      ExpandInStep(adj, q, ef, ef', a, b);
      ExpandKeepsInv(adj, q, ef, a);
      ExpandPastEntry(adj, q, ef, e, a);
      VisitedBound(|adj|, q, ef, a);
      VisitedBound(|adj|, q, ef, Expand(adj, q, ef, a));
      SmallRunInStep(adj, q, ef, ef', e, Expand(adj, q, ef, a), Expand(adj, q, ef', b));
    }
  }

  /** The beams that expand the same node next are in step after it. */
  lemma ExpandInStep(adj: seq<seq<int>>, q: int -> real, ef: int, ef': int, a: Beam, b: Beam)
    requires 0 < ef <= ef' && Inv(adj, q, ef, a) && Inv(adj, q, ef', b) && InStep(ef, a, b)
    requires !Stops(a) && !Stops(b) && a.frontier[0] == b.frontier[0]
    ensures 0 <= a.frontier[0].id < |adj|
    ensures Inv(adj, q, ef, Expand(adj, q, ef, a)) && Inv(adj, q, ef', Expand(adj, q, ef', b))
    ensures InStep(ef, Expand(adj, q, ef, a), Expand(adj, q, ef', b))
    ensures Run(adj, q, ef, a) == Run(adj, q, ef, Expand(adj, q, ef, a))
    ensures Run(adj, q, ef', b) == Run(adj, q, ef', Expand(adj, q, ef', b))
  {
    var n := |adj|;
    RunStep(adj, q, ef, a);
    RunStep(adj, q, ef', b);
    PopKeepsCore(n, q, ef, a);
    PopKeepsCore(n, q, ef', b);
    PopInStep(ef, a, b);
    VisitAllInStep(n, q, ef, ef', Pop(a), Pop(b), adj[a.frontier[0].id]);
  }

  lemma EnterOne(adj: seq<seq<int>>, q: int -> real, e: int, ef: int)
    requires ef > 0 && 0 <= e < |adj|
    ensures var b := Beam([e], [Result(e, q(e))], [Result(e, q(e))], []);
            && VisitAll(|adj|, q, ef, Empty, [e]) == b && Inv(adj, q, ef, b) && !Stops(b)
            && Search(adj, q, [e], ef) == Run(adj, q, ef, b)
  {
    hide Inv, Admit, Run, VisitAll;
    AdmitOne(q, ef, e);
    VisitThree(|adj|, q, ef, Empty, e, e, e);
    EnterInv(adj, q, [e], ef);
  }

  /** An entry that is not a node finds nothing. */
  lemma EnterNothing(adj: seq<seq<int>>, q: int -> real, e: int, ef: int)
    requires !(0 <= e < |adj|)
    ensures Search(adj, q, [e], ef) == Empty
  {
    VisitThree(|adj|, q, ef, Empty, e, e, e);
    EnterInv(adj, q, [e], ef);
  }

  lemma SmallPrefix(adj: seq<seq<int>>, q: int -> real, e: int, ef: int, ef': int)
    requires |adj| <= 3 && ef <= ef'
    ensures PrefixFor(adj, q, [e], ef, ef')
  {
    if !(0 <= e < |adj|) {
      EnterNothing(adj, q, e, ef);
    } else if ef > 0 {
      EnterOne(adj, q, e, ef);
      EnterOne(adj, q, e, ef');
      var b := Beam([e], [Result(e, q(e))], [Result(e, q(e))], []);
      ExpandInStep(adj, q, ef, ef', b, b);
      ExpandPastEntry(adj, q, ef, e, b);
      SmallRunInStep(adj, q, ef, ef', e, Expand(adj, q, ef, b), Expand(adj, q, ef', b));
    }
  }

  // ---------- four nodes are enough ----------

  /** Three tied nodes and a fourth one. */
  ghost predicate Fan(n: int, q: int -> real, e: int, w: int, x: int, c: int) {
    && Tied(n, q, w, x, c) && w < x < c
    && 0 <= e < n && e != w && e != x && e != c
  }

  /** The entry alone has been expanded and its neighbours are about to be visited. */
  function Opened(q: int -> real, e: int): Beam {
    Beam([e], [], [Result(e, q(e))], [e])
  }

  /** The state after visiting c, w, x in this order: the narrow beam refuses x, the wide one drops c from W only. */
  ghost predicate FansOut(n: int, q: int -> real, e: int, w: int, x: int, c: int, ef: int) {
    var W, X, C := Result(w, q(w)), Result(x, q(x)), Result(c, q(c));
    var a := VisitAll(n, q, ef, Opened(q, e), [c, w, x]);
    var b := VisitAll(n, q, ef + 1, Opened(q, e), [c, w, x]);
    && a.visited == b.visited == [e, c, w, x] && a.expanded == b.expanded == [e]
    && a.frontier == [W, C] && b.frontier == [W, X, C]
    && a.best != [] && b.best != [] && a.best[|a.best| - 1] == W && b.best[|b.best| - 1] == X
  }

  /** The result lists after visiting c, w and x in this order, and whether x is kept. */
  ghost predicate Offered(
      q: int -> real, e: int, w: int, x: int, c: int, ef: int,
      first: seq<Result>, second: seq<Result>, third: seq<Result>, kept: bool)
  {
    var W, X, C, E := Result(w, q(w)), Result(x, q(x)), Result(c, q(c)), Result(e, q(e));
    && Offer([E], C, ef) == first && Offer(first, W, ef) == second && Offer(second, X, ef) == third
    && C in first && W in second && (X in third <==> kept)
  }

  lemma OfferedWorse(n: int, q: int -> real, e: int, w: int, x: int, c: int)
    requires Fan(n, q, e, w, x, c) && Better(Result(c, q(c)), Result(e, q(e)))
    ensures var W, X, C, E := Result(w, q(w)), Result(x, q(x)), Result(c, q(c)), Result(e, q(e));
            && Offered(q, e, w, x, c, 1, [C], [W], [W], false)
            && Offered(q, e, w, x, c, 2, [C, E], [W, C], [W, X], true)
  {
    var W, X, C, E := Result(w, q(w)), Result(x, q(x)), Result(c, q(c)), Result(e, q(e));
    TiedOrder(q, w, x, c);
    hide Insert, Offer, Better;
    OfferOne(E, C);
    OfferOne(C, W);
    OfferOne(W, X);
    Members(C, E, E, C);
    Members(W, W, W, W);
    Members(W, W, W, X);
    OfferTwo(C, E, W);
    OfferTwo(W, C, X);
    Members(W, C, C, W);
    Members(W, X, X, X);
  }

  lemma OfferedBetter(n: int, q: int -> real, e: int, w: int, x: int, c: int)
    requires Fan(n, q, e, w, x, c) && Better(Result(e, q(e)), Result(w, q(w)))
    ensures var W, X, C, E := Result(w, q(w)), Result(x, q(x)), Result(c, q(c)), Result(e, q(e));
            && Offered(q, e, w, x, c, 2, [E, C], [E, W], [E, W], false)
            && Offered(q, e, w, x, c, 3, [E, C], [E, W, C], [E, W, X], true)
  {
    var W, X, C, E := Result(w, q(w)), Result(x, q(x)), Result(c, q(c)), Result(e, q(e));
    TiedOrder(q, w, x, c);
    EntryFirst(E, W, X, C);
    hide Insert, Offer, Better;
    OfferOne(E, C);
    OfferTwo(E, C, W);
    OfferTwo(E, W, X);
    Members(E, C, C, C);
    Members(E, W, W, W);
    Members(E, W, W, X);
    InsertTwo(E, C, W);
    OfferLast(E, W, C, X);
    Members(E, W, C, W);
    Members(E, W, X, X);
  }

  lemma EntryFirst(E: Result, W: Result, X: Result, C: Result)
    requires Better(E, W) && Better(W, X) && Better(X, C)
    ensures !Better(W, E) && !Better(X, E) && !Better(C, E) && E != X && E != C && E != W
  {
  }

  /** Three visits, given the result lists after each and whether the last node is kept. */
  lemma FanSteps(
      n: int, q: int -> real, e: int, w: int, x: int, c: int, ef: int,
      first: seq<Result>, second: seq<Result>, third: seq<Result>, kept: bool)
    requires Fan(n, q, e, w, x, c) && Offered(q, e, w, x, c, ef, first, second, third, kept)
    ensures var W, X, C := Result(w, q(w)), Result(x, q(x)), Result(c, q(c));
            && VisitAll(n, q, ef, Opened(q, e), [c, w]) == Beam([e, c, w], [W, C], second, [e])
            && VisitAll(n, q, ef, Opened(q, e), [c, w, x]) ==
               Beam([e, c, w, x], if kept then [W, X, C] else [W, C], third, [e])
  {
    var W, X, C := Result(w, q(w)), Result(x, q(x)), Result(c, q(c));
    TiedOrder(q, w, x, c);
    VisitThree(n, q, ef, Opened(q, e), c, w, x);
    FourIds(e, c, w, x);
    hide Insert, Offer, VisitOne, VisitAll, Better;
    InsertOne(C, W);
    InsertTwo(W, C, X);
    VisitNew(n, q, ef, Opened(q, e), c, first, [C], [e, c]);
    VisitNew(n, q, ef, Beam([e, c], [C], first, [e]), w, second, [W, C], [e, c, w]);
    VisitNew(n, q, ef, Beam([e, c, w], [W, C], second, [e]), x, third, if kept then [W, X, C] else [W, C],
             [e, c, w, x]);
  }

  /** The fan graph: the entry points at the three tied nodes in the order c, w, x. */
  function FanGraph(n: nat, e: int, w: int, x: int, c: int): (adj: seq<seq<int>>)
    ensures |adj| == n
    ensures forall u :: 0 <= u < n ==> adj[u] == if u == e then [c, w, x] else []
  {
    seq(n, u => if u == e then [c, w, x] else [])
  }

  lemma OpenEntry(adj: seq<seq<int>>, q: int -> real, e: int, ef: int)
    requires ef > 0 && 0 <= e < |adj|
    ensures var b := VisitAll(|adj|, q, ef, Opened(q, e), adj[e]);
            Inv(adj, q, ef, b) && Search(adj, q, [e], ef) == Run(adj, q, ef, b)
  {
    EnterOne(adj, q, e, ef);
    var b := Beam([e], [Result(e, q(e))], [Result(e, q(e))], []);
    RunStep(adj, q, ef, b);
    assert Pop(b) == Opened(q, e);
  }

  /** From C = [W, C] the two candidates are expanded in turn. */
  lemma NarrowTail(adj: seq<seq<int>>, q: int -> real, ef: int, b: Beam, W: Result, C: Result)
    requires Inv(adj, q, ef, b) && b.frontier == [W, C] && W.distance == C.distance
    requires b.best != [] && b.best[|b.best| - 1].distance == W.distance
    requires forall u :: 0 <= u < |adj| && (u == W.id || u == C.id) ==> adj[u] == []
    ensures Run(adj, q, ef, b).expanded == b.expanded + [W.id, C.id]
  {
    hide Inv, VisitAll, Expand;
    LeafStep(adj, q, ef, b);
    var d := b.(frontier := [C], expanded := b.expanded + [W.id]);
    assert Pop(b) == d;
    LeafStep(adj, q, ef, d);
    assert Pop(d) == b.(frontier := [], expanded := b.expanded + [W.id, C.id]);
  }

  lemma WideTail(adj: seq<seq<int>>, q: int -> real, ef: int, b: Beam, W: Result, X: Result, C: Result)
    requires Inv(adj, q, ef, b) && b.frontier == [W, X, C] && W.distance == X.distance
    requires b.best != [] && b.best[|b.best| - 1].distance == W.distance
    requires forall u :: 0 <= u < |adj| && (u == W.id || u == X.id) ==> adj[u] == []
    ensures b.expanded + [W.id, X.id] <= Run(adj, q, ef, b).expanded
  {
    hide Inv, VisitAll, Expand;
    LeafStep(adj, q, ef, b);
    var d := b.(frontier := [X, C], expanded := b.expanded + [W.id]);
    assert Pop(b) == d;
    LeafStep(adj, q, ef, d);
    assert Pop(d) == b.(frontier := [C], expanded := b.expanded + [W.id, X.id]);
    RunOnlyGrows(adj, q, ef, Pop(d));
  }

  /** On the fan graph the narrow beam goes on to c, the wide one to x. */
  lemma FanBreaksPrefix(n: nat, q: int -> real, e: int, w: int, x: int, c: int, ef: int)
    requires Fan(n, q, e, w, x, c) && ef > 0 && FansOut(n, q, e, w, x, c, ef)
    ensures !PrefixFor(FanGraph(n, e, w, x, c), q, [e], ef, ef + 1)
  {
    hide Inv, VisitAll, Search, Run, FanGraph;
    var adj := FanGraph(n, e, w, x, c);
    var W, X, C := Result(w, q(w)), Result(x, q(x)), Result(c, q(c));
    OpenEntry(adj, q, e, ef);
    OpenEntry(adj, q, e, ef + 1);
    NarrowTail(adj, q, ef, VisitAll(n, q, ef, Opened(q, e), adj[e]), W, C);
    WideTail(adj, q, ef + 1, VisitAll(n, q, ef + 1, Opened(q, e), adj[e]), W, X, C);
    var a, b := Search(adj, q, [e], ef).expanded, Search(adj, q, [e], ef + 1).expanded;
    assert a == [e, w, c] && [e, w, x] <= b;
    assert a[2] == c && b[2] == x;
  }

  // ---------- the exact condition ----------

  /** With one entry point, widening the beam extends the expansion order on every graph over n nodes. */
  ghost predicate EntryMonotone(n: nat, q: int -> real) {
    forall adj: seq<seq<int>>, e, ef, ef' :: |adj| == n && ef <= ef' ==> PrefixFor(adj, q, [e], ef, ef')
  }

  lemma FanFails(n: nat, q: int -> real, e: int, w: int, x: int, c: int)
    requires Fan(n, q, e, w, x, c)
    requires Better(Result(e, q(e)), Result(w, q(w))) || Better(Result(c, q(c)), Result(e, q(e)))
    ensures !EntryMonotone(n, q)
  {
    var ef := if Better(Result(e, q(e)), Result(w, q(w))) then 2 else 1;
    var W, X, C, E := Result(w, q(w)), Result(x, q(x)), Result(c, q(c)), Result(e, q(e));
    hide VisitAll, Offered;
    if ef == 2 {
      OfferedBetter(n, q, e, w, x, c);
      FanSteps(n, q, e, w, x, c, 2, [E, C], [E, W], [E, W], false);
      FanSteps(n, q, e, w, x, c, 3, [E, C], [E, W, C], [E, W, X], true);
    } else {
      OfferedWorse(n, q, e, w, x, c);
      FanSteps(n, q, e, w, x, c, 1, [C], [W], [W], false);
      FanSteps(n, q, e, w, x, c, 2, [C, E], [W, C], [W, X], true);
    }
    FanBreaksPrefix(n, q, e, w, x, c, ef);
    assert |FanGraph(n, e, w, x, c)| == n;
  }

  /** A fourth node among the tied ones: the smallest of the four is the entry. */
  lemma FourTied(n: nat, q: int -> real, e: int, w: int, x: int, c: int)
    requires Fan(n, q, e, w, x, c) && q(e) == q(w)
    ensures !EntryMonotone(n, q)
  {
    if e < w {
      FanFails(n, q, e, w, x, c);
    } else if e < x {
      FanFails(n, q, w, e, x, c);
    } else if e < c {
      FanFails(n, q, w, x, e, c);
    } else {
      FanFails(n, q, w, x, c, e);
    }
  }

  lemma FourthNode(n: nat, w: int, x: int, c: int) returns (e: int)
    requires n >= 4
    ensures 0 <= e < n && e != w && e != x && e != c
  {
    e := if 0 != w && 0 != x && 0 != c then 0
         else if 1 != w && 1 != x && 1 != c then 1
         else if 2 != w && 2 != x && 2 != c then 2 else 3;
  }

  /**
   * The exact condition for searches with one entry point: widening the beam extends the expansion order, on every
   * graph over n nodes, if and only if there are at most three nodes or no three of them are equally far.
   */
  lemma EntryMonotoneExactly(n: nat, q: int -> real)
    ensures EntryMonotone(n, q) <==> n <= 3 || NoTies(n, q)
  {
    if n <= 3 || NoTies(n, q) {
      forall adj: seq<seq<int>>, e, ef, ef' | |adj| == n && ef <= ef'
        ensures PrefixFor(adj, q, [e], ef, ef')
      {
        if n <= 3 {
          SmallPrefix(adj, q, e, ef, ef');
        } else {
          Monotone(adj, q, [e], ef, ef');
        }
      }
    } else {
      var u, v, z :| Tied(n, q, u, v, z);
      var w := if u < v && u < z then u else if v < z then v else z;
      var c := if u > v && u > z then u else if v > z then v else z;
      var x := u + v + z - w - c;
      var e := FourthNode(n, w, x, c);
      if q(e) == q(w) {
        FourTied(n, q, e, w, x, c);
      } else {
        FanFails(n, q, e, w, x, c);
      }
    }
  }
}
