/** A wider beam never does worse: two runs of SEARCH-LAYER that differ only in ef. */
module BeamMonotone {
  import opened Order
  import opened Sorting
  import opened Beams
  import opened BeamTheorems

  ghost predicate Tied(n: int, q: int -> real, u: int, v: int, w: int) {
    && 0 <= u < n && 0 <= v < n && 0 <= w < n
    && u != v && v != w && u != w
    && q(u) == q(v) == q(w)
  }

  /** No three nodes are equally far from the query. */
  ghost predicate NoTies(n: int, q: int -> real) {
    forall u, v, w :: !Tied(n, q, u, v, w)
  }

  /** A candidate only the wide beam still holds is worse than the whole (full) narrow result list. */
  ghost predicate Surplus(ef: int, narrow: Beam, r: Result) {
    |narrow.best| == ef && forall w :: w in narrow.best ==> Better(w, r)
  }

  ghost predicate InStep(ef: int, narrow: Beam, wide: Beam) {
    && narrow.visited == wide.visited
    && narrow.expanded == wide.expanded
    && (forall r :: r in narrow.frontier ==> r in wide.frontier)
    && (forall r :: r in wide.frontier && r !in narrow.frontier ==> Surplus(ef, narrow, r))
  }

  lemma BestPrefix(stream: seq<Result>, ef: int, ef': int)
    requires ef <= ef'
    ensures Best(stream, ef) <= Best(stream, ef')
  {
  }

  lemma SurplusStays(ef: int, w: seq<Result>, x: Result, r: Result)
    requires ef > 0 && Sorted(w) && |w| == ef
    requires forall y :: y in w ==> Better(y, r)
    ensures |Offer(w, x, ef)| == ef
    ensures forall y :: y in Offer(w, x, ef) ==> Better(y, r)
  {
    OfferFull(w, x, ef);
    var last := w[ef - 1];
    assert last in w;
    forall y | y in Offer(w, x, ef)
      ensures Better(y, r)
    {
      if Better(x, last) {
        InsertMember(w[..ef - 1], x, y);
        StrictTotalOrder(x, last, r);
      }
    }
  }

  /** A newcomer that only the wide list keeps is surplus. */
  lemma RefusedIsSurplus(ef: int, w: seq<Result>, x: Result)
    requires ef > 0 && Sorted(w) && |w| <= ef && x !in w
    requires x !in Offer(w, x, ef)
    ensures |Offer(w, x, ef)| == ef
    ensures forall y :: y in Offer(w, x, ef) ==> Better(y, x)
  {
    if |w| < ef {
      OfferRoom(w, x, ef);
    } else {
      OfferFull(w, x, ef);
      var last := w[ef - 1];
      InsertMember(w[..ef - 1], x, x);
      forall y | y in w
        ensures Better(y, x)
      {
        assert !Better(last, y);
        StrictTotalOrder(y, last, x);
        StrictTotalOrder(y, x, last);
        StrictTotalOrder(x, y, last);
      }
    }
  }

  lemma AdmitInStep(n: int, q: int -> real, ef: int, ef': int, a: Beam, b: Beam, id: int)
    requires 0 < ef <= ef' && Core(n, q, ef, a) && Core(n, q, ef', b) && InStep(ef, a, b)
    requires Unseen(n, a, id)
    ensures InStep(ef, Admit(q, ef, a, id), Admit(q, ef', b, id))
  {
    var x := Result(id, q(id));
    var a', b' := Admit(q, ef, a, id), Admit(q, ef', b, id);
    var stream := Tag(q, a.visited);
    BestStep(stream, x, ef);
    BestStep(stream, x, ef');
    BestPrefix(stream + [x], ef, ef');
    assert a'.best <= b'.best;
    assert x in a'.best ==> x in b'.best;
    BestSorted(stream, ef);
    if x in a.best {
      BestMember(stream, ef, x);
      TagMember(q, a.visited, x);
    }
    if x !in a'.best {
      RefusedIsSurplus(ef, a.best, x);
    }
    AdmitFrontiers(ef, a, b, x, a', b');
  }

  lemma AdmitFrontiers(ef: int, a: Beam, b: Beam, x: Result, a': Beam, b': Beam)
    requires 0 < ef && InStep(ef, a, b) && Sorted(a.best)
    requires a'.visited == b'.visited && a'.expanded == b'.expanded && a'.best == Offer(a.best, x, ef)
    requires a'.frontier == if x in a'.best then Insert(a.frontier, x) else a.frontier
    requires b'.frontier == if x in b'.best then Insert(b.frontier, x) else b.frontier
    requires x in a'.best ==> x in b'.best
    requires x !in a'.best ==> Surplus(ef, a', x)
    ensures InStep(ef, a', b')
  {
    forall r | r in a'.frontier
      ensures r in b'.frontier
    {
      InsertMember(a.frontier, x, r);
      InsertMember(b.frontier, x, r);
    }
    forall r | r in b'.frontier && r !in a'.frontier
      ensures Surplus(ef, a', r)
    {
      InsertMember(a.frontier, x, r);
      InsertMember(b.frontier, x, r);
      if r != x {
        assert Surplus(ef, a, r);
        SurplusStays(ef, a.best, x, r);
      }
    }
  }

  lemma {:induction false} VisitAllInStep(
      n: int, q: int -> real, ef: int, ef': int, a: Beam, b: Beam, ids: seq<int>)
    requires 0 < ef <= ef' && Core(n, q, ef, a) && Core(n, q, ef', b) && InStep(ef, a, b)
    ensures InStep(ef, VisitAll(n, q, ef, a, ids), VisitAll(n, q, ef', b, ids))
    decreases |ids|
  {
    if ids != [] {
      var front := ids[..|ids| - 1];
      VisitAllInStep(n, q, ef, ef', a, b, front);
      VisitAllKeepsCore(n, q, ef, a, front);
      VisitAllKeepsCore(n, q, ef', b, front);
      var c, d := VisitAll(n, q, ef, a, front), VisitAll(n, q, ef', b, front);
      var id := ids[|ids| - 1];
      if Unseen(n, c, id) {
        AdmitInStep(n, q, ef, ef', c, d, id);
      }
    }
  }

  lemma LastOfPrefix(w: seq<Result>, w': seq<Result>)
    requires w != [] && w <= w' && Sorted(w')
    ensures w[|w| - 1].distance <= w'[|w'| - 1].distance
  {
    assert w[|w| - 1] == w'[|w| - 1];
  }

  /** What the narrow beam knows about its worst result when it goes on. */
  lemma WorstOf(n: int, q: int -> real, ef: int, a: Beam)
    requires 0 < ef && Core(n, q, ef, a) && !Stops(a)
    ensures a.best != [] && a.frontier[0] in a.frontier
    ensures var last := a.best[|a.best| - 1];
            && last in a.best && last.id in a.visited && last.distance == q(last.id)
            && a.frontier[0].distance <= last.distance
  {
    assert a.frontier[0] in a.frontier;
    assert |a.visited| > 0;
    var last := a.best[|a.best| - 1];
    assert last in a.best;
    BestMember(Tag(q, a.visited), ef, last);
    TagMember(q, a.visited, last);
  }

  lemma SameHead(s: seq<Result>, t: seq<Result>, last: Result)
    requires Sorted(s) && Sorted(t) && s != [] && t != [] && s[0] in t
    requires s[0].distance <= last.distance
    requires t[0] in s || (Better(last, t[0]) &&
               (t[0].distance == last.distance == s[0].distance ==> t[0] == s[0] || s[0] == last))
    ensures s[0] == t[0]
  {
    SortedParts(s);
    SortedParts(t);
    StrictTotalOrder(s[0], t[0], s[0]);
  }

  lemma HeadsAgree(n: int, q: int -> real, ef: int, ef': int, a: Beam, b: Beam)
    requires 0 < ef <= ef' && Core(n, q, ef, a) && Core(n, q, ef', b) && InStep(ef, a, b)
    requires NoTies(n, q) && !Stops(a)
    ensures b.frontier != [] && a.frontier[0] == b.frontier[0]
  {
    WorstOf(n, q, ef, a);
    var last := a.best[|a.best| - 1];
    var c' := b.frontier[0];
    assert c' in b.frontier;
    if c' !in a.frontier {
      assert Better(last, c');
      assert !Tied(n, q, a.frontier[0].id, c'.id, last.id);
    }
    SameHead(a.frontier, b.frontier, last);
  }

  /** Where no three nodes tie, both beams expand the same node next. */
  lemma SameNext(n: int, q: int -> real, ef: int, ef': int, a: Beam, b: Beam)
    requires 0 < ef <= ef' && Core(n, q, ef, a) && Core(n, q, ef', b) && InStep(ef, a, b)
    requires NoTies(n, q) && !Stops(a)
    ensures b.frontier != [] && a.frontier[0] == b.frontier[0] && !Stops(b)
  {
    WorstOf(n, q, ef, a);
    HeadsAgree(n, q, ef, ef', a, b);
    WideGoesOn(n, q, ef, ef', a, b);
  }

  /** A wider beam at the same node is no nearer to stopping. */
  lemma WideGoesOn(n: int, q: int -> real, ef: int, ef': int, a: Beam, b: Beam)
    requires 0 < ef <= ef' && Core(n, q, ef, a) && Core(n, q, ef', b) && a.visited == b.visited
    requires a.frontier != [] && b.frontier != [] && a.frontier[0] == b.frontier[0]
    requires a.best != [] && a.frontier[0].distance <= a.best[|a.best| - 1].distance
    ensures !Stops(b)
  {
    BestSorted(Tag(q, a.visited), ef');
    BestPrefix(Tag(q, a.visited), ef, ef');
    LastOfPrefix(a.best, b.best);
  }

  lemma PopInStep(ef: int, a: Beam, b: Beam)
    requires InStep(ef, a, b) && a.frontier != [] && b.frontier != [] && a.frontier[0] == b.frontier[0]
    requires forall r :: multiset(a.frontier)[r] <= 1
    requires forall r :: multiset(b.frontier)[r] <= 1
    ensures InStep(ef, Pop(a), Pop(b))
  {
    HeadLeaves(a.frontier);
    HeadLeaves(b.frontier);
    forall r | r in Pop(b).frontier && r !in Pop(a).frontier
      ensures Surplus(ef, Pop(a), r)
    {
      assert Surplus(ef, a, r);
    }
  }

  lemma {:induction false} RunInStep(adj: seq<seq<int>>, q: int -> real, ef: int, ef': int, a: Beam, b: Beam)
    requires 0 < ef <= ef' && Inv(adj, q, ef, a) && Inv(adj, q, ef', b) && InStep(ef, a, b)
    requires NoTies(|adj|, q)
    ensures Run(adj, q, ef, a).expanded <= Run(adj, q, ef', b).expanded
    ensures Run(adj, q, ef, a).visited <= Run(adj, q, ef', b).visited
    decreases |adj| - |a.visited| + |a.frontier|
  {
    if Stops(a) {
      RunOnlyGrows(adj, q, ef', b);
    } else {
      var n := |adj|;
      SameNext(n, q, ef, ef', a, b);
      ExpandKeepsInv(adj, q, ef, a);
      ExpandKeepsInv(adj, q, ef', b);
      PopKeepsCore(n, q, ef, a);
      PopKeepsCore(n, q, ef', b);
      PopInStep(ef, a, b);
      VisitAllInStep(n, q, ef, ef', Pop(a), Pop(b), adj[a.frontier[0].id]);
      VisitedBound(n, q, ef, a);
      VisitedBound(n, q, ef, Expand(adj, q, ef, a));
      VisitedBound(n, q, ef', b);
      VisitedBound(n, q, ef', Expand(adj, q, ef', b));
      RunInStep(adj, q, ef, ef', Expand(adj, q, ef, a), Expand(adj, q, ef', b));
    }
  }

  lemma PrefixRank(q: int -> real, ef: int, ef': int, xs: seq<int>, ys: seq<int>)
    requires ef <= ef' && xs <= ys
    ensures var w, w' := Best(Tag(q, xs), ef), Best(Tag(q, ys), ef');
            |w| <= |w'| && forall i :: 0 <= i < |w| ==> !Better(w[i], w'[i])
  {
    var more := ys[|xs|..];
    assert Tag(q, ys) == Tag(q, xs) + Tag(q, more);
    var w := Best(Tag(q, xs), ef);
    forall i | 0 <= i < |w|
      ensures !Better(Sort(Tag(q, xs))[i], Sort(Tag(q, ys))[i])
    {
      SortRank(Tag(q, xs), Tag(q, more), i);
    }
  }

  /**
   * Beam monotonicity. Without a three-way tie the expansions with ef are, in order, a prefix of the expansions
   * with any larger ef', the visited nodes nest, and no rank of the result gets worse.
   */
  lemma Monotone(adj: seq<seq<int>>, q: int -> real, entries: seq<int>, ef: int, ef': int)
    requires ef <= ef' && NoTies(|adj|, q)
    ensures var a, b := Search(adj, q, entries, ef), Search(adj, q, entries, ef');
            && a.expanded <= b.expanded
            && a.visited <= b.visited
            && |a.best| <= |b.best|
            && forall i :: 0 <= i < |a.best| ==> !Better(a.best[i], b.best[i])
  {
    var a, b := Search(adj, q, entries, ef), Search(adj, q, entries, ef');
    if ef > 0 && entries != [] {
      EnterInv(adj, q, entries, ef);
      EnterInv(adj, q, entries, ef');
      EmptyInv(adj, q, ef);
      EmptyInv(adj, q, ef');
      VisitAllInStep(|adj|, q, ef, ef', Empty, Empty, entries);
      RunInStep(adj, q, ef, ef', VisitAll(|adj|, q, ef, Empty, entries), VisitAll(|adj|, q, ef', Empty, entries));
    }
    SearchInv(adj, q, entries, ef);
    SearchInv(adj, q, entries, ef');
    PrefixRank(q, ef, ef', a.visited, b.visited);
  }

  // ---------- the condition is exact ----------

  function NoEdges(n: nat): (adj: seq<seq<int>>)
    ensures |adj| == n && forall i :: 0 <= i < n ==> adj[i] == []
  {
    seq(n, _ => [])
  }

  function VisitOne(n: int, q: int -> real, ef: int, b: Beam, id: int): Beam {
    if Unseen(n, b, id) then Admit(q, ef, b, id) else b
  }

  lemma VisitSnoc(n: int, q: int -> real, ef: int, b: Beam, ids: seq<int>, id: int)
    ensures VisitAll(n, q, ef, b, ids + [id]) == VisitOne(n, q, ef, VisitAll(n, q, ef, b, ids), id)
  {
    assert (ids + [id])[..|ids|] == ids;
  }

  lemma VisitThree(n: int, q: int -> real, ef: int, b: Beam, x: int, y: int, z: int)
    ensures VisitAll(n, q, ef, b, [x, y, z]) ==
            VisitOne(n, q, ef, VisitOne(n, q, ef, VisitOne(n, q, ef, b, x), y), z)
    ensures VisitAll(n, q, ef, b, [x, y]) == VisitOne(n, q, ef, VisitOne(n, q, ef, b, x), y)
    ensures VisitAll(n, q, ef, b, [x]) == VisitOne(n, q, ef, b, x)
  {
    assert VisitAll(n, q, ef, b, []) == b;
    VisitSnoc(n, q, ef, b, [], x);
    VisitSnoc(n, q, ef, b, [x], y);
    VisitSnoc(n, q, ef, b, [x, y], z);
    assert [] + [x] == [x] && [x] + [y] == [x, y] && [x, y] + [z] == [x, y, z];
  }

  // Insertion into and offers to lists of up to three elements.

  lemma Prepend(a: Result, b: Result, c: Result, d: Result)
    ensures [a] + [] == [a] && [a] + [b] == [a, b] && [a] + [b, c] == [a, b, c] && [a] + [b, c, d] == [a, b, c, d]
  {
  }

  lemma Cut(a: Result, b: Result, c: Result, d: Result)
    ensures Take([a], 1) == [a] && Take([a, b], 1) == [a] && Take([a, b], 2) == [a, b] && Take([a, b, c], 2) == [a, b]
    ensures Take([a, b, c], 3) == [a, b, c] && Take([a, b, c, d], 3) == [a, b, c]
  {
  }

  lemma Members(a: Result, b: Result, c: Result, r: Result)
    ensures r in [a] <==> r == a
    ensures r in [a, b] <==> r == a || r == b
    ensures r in [a, b, c] <==> r == a || r == b || r == c
  {
  }

  /** The order of three tied nodes, smaller ids first. */
  lemma TiedOrder(q: int -> real, w: int, x: int, c: int)
    requires w < x < c && q(w) == q(x) == q(c)
    ensures var W, X, C := Result(w, q(w)), Result(x, q(x)), Result(c, q(c));
            && Better(W, X) && Better(X, C) && Better(W, C)
            && !Better(X, W) && !Better(C, X) && !Better(C, W) && W != X && X != C && W != C
  {
  }

  lemma InsertFirst(s: seq<Result>, x: Result)
    requires s == [] || Better(x, s[0])
    ensures Insert(s, x) == [x] + s
  {
  }

  lemma InsertLater(a: Result, s: seq<Result>, x: Result)
    requires !Better(x, a)
    ensures Insert([a] + s, x) == [a] + Insert(s, x)
  {
    assert ([a] + s)[1..] == s;
  }

  lemma InsertOne(a: Result, x: Result)
    ensures Insert([], x) == [x]
    ensures Better(x, a) ==> Insert([a], x) == [x, a]
    ensures !Better(x, a) ==> Insert([a], x) == [a, x]
  {
    hide Insert;
    Prepend(x, a, a, a);
    Prepend(a, x, x, x);
    InsertFirst([], x);
    if Better(x, a) {
      InsertFirst([a], x);
    } else {
      InsertLater(a, [], x);
    }
  }

  lemma InsertTwo(a: Result, b: Result, x: Result)
    ensures Better(x, a) ==> Insert([a, b], x) == [x, a, b]
    ensures !Better(x, a) && Better(x, b) ==> Insert([a, b], x) == [a, x, b]
    ensures !Better(x, a) && !Better(x, b) ==> Insert([a, b], x) == [a, b, x]
  {
    hide Insert;
    InsertOne(b, x);
    if Better(x, a) {
      Prepend(x, a, b, b);
      InsertFirst([a, b], x);
    } else {
      Prepend(a, b, x, x);
      Prepend(a, x, b, b);
      InsertLater(a, [b], x);
    }
  }

  lemma InsertLast(a: Result, b: Result, c: Result, x: Result)
    requires !Better(x, a) && !Better(x, b)
    ensures Better(x, c) ==> Insert([a, b, c], x) == [a, b, x, c]
    ensures !Better(x, c) ==> Insert([a, b, c], x) == [a, b, c, x]
  {
    hide Insert, Better;
    InsertTwo(b, c, x);
    Prepend(a, b, c, x);
    Prepend(a, b, x, c);
    InsertLater(a, [b, c], x);
  }

  lemma OfferOne(a: Result, x: Result)
    ensures Better(x, a) ==> Offer([a], x, 1) == [x] && Offer([a], x, 2) == Offer([a], x, 3) == [x, a]
    ensures !Better(x, a) ==> Offer([a], x, 1) == [a] && Offer([a], x, 2) == Offer([a], x, 3) == [a, x]
  {
    InsertOne(a, x);
    hide Insert, Better;
    Cut(x, a, a, a);
    Cut(a, x, x, x);
  }

  lemma OfferTwo(a: Result, b: Result, x: Result)
    ensures Better(x, a) ==> Offer([a, b], x, 2) == [x, a]
    ensures !Better(x, a) && Better(x, b) ==> Offer([a, b], x, 2) == [a, x]
    ensures !Better(x, a) && !Better(x, b) ==> Offer([a, b], x, 2) == [a, b]
    ensures Offer([a, b], x, 3) == Insert([a, b], x)
  {
    hide Insert, Better, Take;
    InsertTwo(a, b, x);
    Cut(x, a, b, b);
    Cut(a, x, b, b);
    Cut(a, b, x, x);
  }

  lemma OfferLast(a: Result, b: Result, c: Result, x: Result)
    requires !Better(x, a) && !Better(x, b)
    ensures Better(x, c) ==> Offer([a, b, c], x, 3) == [a, b, x]
    ensures !Better(x, c) ==> Offer([a, b, c], x, 3) == [a, b, c]
  {
    hide Insert, Better, Take;
    InsertLast(a, b, c, x);
    Cut(a, b, x, c);
    Cut(a, b, c, x);
  }

  lemma AdmitOne(q: int -> real, ef: int, c: int)
    requires ef > 0
    ensures var C := Result(c, q(c)); Admit(q, ef, Empty, c) == Beam([c], [C], [C], [])
  {
    assert Insert([], Result(c, q(c))) == [Result(c, q(c))];
  }

  lemma AdmitTo(q: int -> real, ef: int, b: Beam, id: int, best: seq<Result>, frontier: seq<Result>)
    requires var r := Result(id, q(id));
             && Offer(b.best, r, ef) == best
             && frontier == if r in best then Insert(b.frontier, r) else b.frontier
    ensures Admit(q, ef, b, id) == Beam(b.visited + [id], frontier, best, b.expanded)
  {
  }

  lemma FourIds(a: int, b: int, c: int, d: int)
    ensures [a] + [b] == [a, b] && [a, b] + [c] == [a, b, c] && [a, b, c] + [d] == [a, b, c, d]
    ensures (b in [a] <==> b == a) && (c in [a, b] <==> c == a || c == b)
    ensures d in [a, b, c] <==> d == a || d == b || d == c
  {
  }

  lemma VisitNew(
      n: int, q: int -> real, ef: int, b: Beam, id: int, best: seq<Result>, frontier: seq<Result>, visited: seq<int>)
    requires Unseen(n, b, id) && visited == b.visited + [id]
    requires var r := Result(id, q(id));
             && Offer(b.best, r, ef) == best
             && frontier == if r in best then Insert(b.frontier, r) else b.frontier
    ensures VisitOne(n, q, ef, b, id) == Beam(visited, frontier, best, b.expanded)
  {
    AdmitTo(q, ef, b, id, best, frontier);
  }

  /** Entering w < x < c, all tied, as c, w, x: the narrow beam refuses x but keeps the evicted c in C. */
  lemma EnterNarrow(n: int, q: int -> real, w: int, x: int, c: int)
    requires Tied(n, q, w, x, c) && w < x < c
    ensures var W, C := Result(w, q(w)), Result(c, q(c));
            VisitAll(n, q, 1, Empty, [c, w, x]) == Beam([c, w, x], [W, C], [W], [])
  {
    var W, X, C := Result(w, q(w)), Result(x, q(x)), Result(c, q(c));
    AdmitOne(q, 1, c);
    TiedOrder(q, w, x, c);
    VisitThree(n, q, 1, Empty, c, w, x);
    assert VisitOne(n, q, 1, Empty, c) == Beam([c], [C], [C], []);
    FourIds(c, w, x, x);
    hide VisitAll, VisitOne, Insert, Offer, Better;
    OfferOne(C, W);
    OfferOne(W, X);
    InsertOne(C, W);
    Members(W, W, W, W);
    Members(W, W, W, X);
    VisitNew(n, q, 1, Beam([c], [C], [C], []), w, [W], [W, C], [c, w]);
    VisitNew(n, q, 1, Beam([c, w], [W, C], [W], []), x, [W], [W, C], [c, w, x]);
  }

  /** The wide beam keeps all three in C. */
  lemma EnterWide(n: int, q: int -> real, w: int, x: int, c: int)
    requires Tied(n, q, w, x, c) && w < x < c
    ensures var W, X, C := Result(w, q(w)), Result(x, q(x)), Result(c, q(c));
            VisitAll(n, q, 2, Empty, [c, w, x]) == Beam([c, w, x], [W, X, C], [W, X], [])
  {
    var W, X, C := Result(w, q(w)), Result(x, q(x)), Result(c, q(c));
    AdmitOne(q, 2, c);
    TiedOrder(q, w, x, c);
    VisitThree(n, q, 2, Empty, c, w, x);
    assert VisitOne(n, q, 2, Empty, c) == Beam([c], [C], [C], []);
    FourIds(c, w, x, x);
    hide VisitAll, VisitOne, Insert, Offer, Better;
    OfferOne(C, W);
    InsertOne(C, W);
    OfferTwo(W, C, X);
    InsertTwo(W, C, X);
    Members(W, C, C, W);
    Members(W, X, X, X);
    VisitNew(n, q, 2, Beam([c], [C], [C], []), w, [W, C], [W, C], [c, w]);
    VisitNew(n, q, 2, Beam([c, w], [W, C], [W, C], []), x, [W, X], [W, X, C], [c, w, x]);
  }

  lemma RunStep(adj: seq<seq<int>>, q: int -> real, ef: int, b: Beam)
    requires Inv(adj, q, ef, b) && !Stops(b)
    ensures 0 <= b.frontier[0].id < |adj| && Inv(adj, q, ef, Expand(adj, q, ef, b))
    ensures Run(adj, q, ef, b) == Run(adj, q, ef, Expand(adj, q, ef, b))
  {
    ExpandKeepsInv(adj, q, ef, b);
    VisitedBound(|adj|, q, ef, b);
    VisitedBound(|adj|, q, ef, Expand(adj, q, ef, b));
  }

  /** Expanding a node without neighbours only takes it off C. */
  lemma LeafStep(adj: seq<seq<int>>, q: int -> real, ef: int, b: Beam)
    requires Inv(adj, q, ef, b) && !Stops(b)
    requires 0 <= b.frontier[0].id < |adj| ==> adj[b.frontier[0].id] == []
    ensures Inv(adj, q, ef, Pop(b))
    ensures Run(adj, q, ef, b) == Run(adj, q, ef, Pop(b))
  {
    RunStep(adj, q, ef, b);
    assert Expand(adj, q, ef, b) == Pop(b);
  }

  lemma NarrowRun(n: nat, q: int -> real, w: int, x: int, c: int)
    requires Tied(n, q, w, x, c) && w < x < c
    ensures Search(NoEdges(n), q, [c, w, x], 1).expanded == [w, c]
  {
    var W, C := Result(w, q(w)), Result(c, q(c));
    EnterNarrow(n, q, w, x, c);
    EnterInv(NoEdges(n), q, [c, w, x], 1);
    var b := Beam([c, w, x], [W, C], [W], []);
    LeafStep(NoEdges(n), q, 1, b);
    var d := Beam([c, w, x], [C], [W], [w]);
    assert Pop(b) == d;
    LeafStep(NoEdges(n), q, 1, d);
    assert Pop(d) == Beam([c, w, x], [], [W], [w, c]);
  }

  lemma WideRun(n: nat, q: int -> real, w: int, x: int, c: int)
    requires Tied(n, q, w, x, c) && w < x < c
    ensures [w, x] <= Search(NoEdges(n), q, [c, w, x], 2).expanded
  {
    hide Inv, VisitAll, Expand;
    var W, X, C := Result(w, q(w)), Result(x, q(x)), Result(c, q(c));
    EnterWide(n, q, w, x, c);
    EnterInv(NoEdges(n), q, [c, w, x], 2);
    var b := Beam([c, w, x], [W, X, C], [W, X], []);
    LeafStep(NoEdges(n), q, 2, b);
    var d := Beam([c, w, x], [X, C], [W, X], [w]);
    assert Pop(b) == d;
    LeafStep(NoEdges(n), q, 2, d);
    assert Pop(d) == Beam([c, w, x], [C], [W, X], [w, x]);
    RunOnlyGrows(NoEdges(n), q, 2, Pop(d));
  }

  ghost predicate PrefixFor(adj: seq<seq<int>>, q: int -> real, entries: seq<int>, ef: int, ef': int) {
    Search(adj, q, entries, ef).expanded <= Search(adj, q, entries, ef').expanded
  }

  lemma TieBreaksPrefix(n: nat, q: int -> real, w: int, x: int, c: int)
    requires Tied(n, q, w, x, c) && w < x < c
    ensures !PrefixFor(NoEdges(n), q, [c, w, x], 1, 2)
  {
    NarrowRun(n, q, w, x, c);
    WideRun(n, q, w, x, c);
    var s := Search(NoEdges(n), q, [c, w, x], 2).expanded;
    assert s[1] == x;
  }

  /**
   * The exact condition: for a given query, widening the beam extends the expansion order on every
   * graph over n nodes and every entry list if and only if no three of the nodes are equally far.
   */
  lemma MonotoneExactly(n: nat, q: int -> real)
    ensures NoTies(n, q) <==>
            forall adj: seq<seq<int>>, entries, ef, ef' ::
              |adj| == n && ef <= ef' ==> PrefixFor(adj, q, entries, ef, ef')
  {
    if NoTies(n, q) {
      forall adj: seq<seq<int>>, entries, ef, ef' | |adj| == n && ef <= ef'
        ensures PrefixFor(adj, q, entries, ef, ef')
      {
        Monotone(adj, q, entries, ef, ef');
      }
    } else {
      var u, v, w :| Tied(n, q, u, v, w);
      var lo := if u < v && u < w then u else if v < w then v else w;
      var hi := if u > v && u > w then u else if v > w then v else w;
      var mid := u + v + w - lo - hi;
      TieBreaksPrefix(n, q, lo, mid, hi);
      assert |NoEdges(n)| == n;
    }
  }
}
