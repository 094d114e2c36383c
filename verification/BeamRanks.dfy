/** When a wider beam keeps every rank of the answer of a search with one entry point: the sufficient half. */
module BeamRanks {
  import opened Order
  import opened Sorting
  import opened Beams
  import opened BeamTheorems
  import opened BeamMonotone
  import opened BeamEntry
  import Scans

  /** The second list is no shorter and no rank of it is worse. */
  ghost predicate NoWorse(w: seq<Result>, w': seq<Result>) {
    |w| <= |w'| && forall i :: 0 <= i < |w| ==> !Better(w[i], w'[i])
  }

  ghost predicate RanksKept(adj: seq<seq<int>>, q: int -> real, e: int, ef: int, ef': int) {
    NoWorse(Search(adj, q, [e], ef).best, Search(adj, q, [e], ef').best)
  }

  // ---------- what a full beam can still meet ----------

  /** From a full beam with worst result `last` and these candidates: nothing worse than `last` enters any more. */
  ghost predicate Later(ef: int, frontier: seq<Result>, last: Result, b: Beam) {
    && |b.best| == ef
    && (forall y :: y in b.best ==> !Better(last, y))
    && (forall r :: r in b.frontier ==> r in frontier || Better(r, last))
  }

  lemma AdmitLater(n: int, q: int -> real, ef: int, frontier: seq<Result>, last: Result, b: Beam, id: int)
    requires ef > 0 && Core(n, q, ef, b) && Later(ef, frontier, last, b) && Unseen(n, b, id)
    ensures Later(ef, frontier, last, Admit(q, ef, b, id))
  {
    hide Insert, Best, Offer;
    var x, worst := Result(id, q(id)), b.best[ef - 1];
    var c := Admit(q, ef, b, id);
    BestSorted(Tag(q, b.visited), ef);
    OfferFull(b.best, x, ef);
    NewToBest(q, b.visited, ef, id);
    assert worst in b.best;
    forall y | y in c.best
      ensures !Better(last, y)
    {
      InsertMember(b.best[..ef - 1], x, y);
    }
    forall r | r in c.frontier
      ensures r in frontier || Better(r, last)
    {
      InsertMember(b.frontier, x, r);
    }
  }

  lemma NewToBest(q: int -> real, ids: seq<int>, ef: int, id: int)
    requires id !in ids
    ensures Result(id, q(id)) !in Best(Tag(q, ids), ef)
  {
    var r := Result(id, q(id));
    if r in Best(Tag(q, ids), ef) {
      BestMember(Tag(q, ids), ef, r);
      TagMember(q, ids, r);
    }
  }

  lemma {:induction false} VisitAllLater(
      n: int, q: int -> real, ef: int, frontier: seq<Result>, last: Result, b: Beam, ids: seq<int>)
    requires ef > 0 && Core(n, q, ef, b) && Later(ef, frontier, last, b)
    ensures Later(ef, frontier, last, VisitAll(n, q, ef, b, ids))
    decreases |ids|
  {
    if ids != [] {
      var front, id := ids[..|ids| - 1], ids[|ids| - 1];
      VisitAllLater(n, q, ef, frontier, last, b, front);
      VisitAllKeepsCore(n, q, ef, b, front);
      if Unseen(n, VisitAll(n, q, ef, b, front), id) {
        AdmitLater(n, q, ef, frontier, last, VisitAll(n, q, ef, b, front), id);
      }
    }
  }

  lemma PopLater(ef: int, frontier: seq<Result>, last: Result, b: Beam)
    requires Later(ef, frontier, last, b) && b.frontier != []
    ensures Later(ef, frontier, last, Pop(b))
  {
  }

  /** A node of `seen` outside `done` that such a beam may still expand. */
  ghost predicate Straggler(
      q: int -> real, frontier: seq<Result>, last: Result, seen: set<int>, done: set<int>, r: Result)
  {
    && r.id in seen && r.id !in done
    && r.distance == q(r.id) && r.distance <= last.distance
    && (r in frontier || Better(r, last))
  }

  /** The neighbours of `done` lie in `seen`. */
  ghost predicate Feeds(adj: seq<seq<int>>, done: set<int>, seen: set<int>) {
    forall u, v :: u in done && 0 <= u < |adj| && v in adj[u] && 0 <= v < |adj| ==> v in seen
  }

  /** A node that leaves `seen` can only come in through a straggler. */
  lemma {:induction false} RunInside(
      adj: seq<seq<int>>, q: int -> real, ef: int, frontier: seq<Result>, last: Result, seen: set<int>,
      done: set<int>, b: Beam)
    requires ef > 0 && Inv(adj, q, ef, b) && Later(ef, frontier, last, b) && Feeds(adj, done, seen)
    requires forall v :: v in b.visited ==> v in seen
    ensures (forall v :: v in Run(adj, q, ef, b).visited ==> v in seen) ||
            exists r :: Straggler(q, frontier, last, seen, done, r)
    decreases |adj| - |b.visited| + |b.frontier|
  {
    hide VisitAll, Admit, Best;
    if !Stops(b) {
      var n, h := |adj|, b.frontier[0];
      assert h in b.frontier && b.best[ef - 1] in b.best;
      if h.id !in done {
        assert Straggler(q, frontier, last, seen, done, h);
      } else {
        RunStep(adj, q, ef, b);
        ExpandKeepsInv(adj, q, ef, b);
        VisitedBound(n, q, ef, b);
        VisitedBound(n, q, ef, Expand(adj, q, ef, b));
        PopKeepsCore(n, q, ef, b);
        PopLater(ef, frontier, last, b);
        VisitAllLater(n, q, ef, frontier, last, Pop(b), adj[h.id]);
        VisitAllVisits(n, q, ef, Pop(b), adj[h.id]);
        RunInside(adj, q, ef, frontier, last, seen, done, Expand(adj, q, ef, b));
      }
    }
  }

  // ---------- candidates are expanded or kept ----------

  lemma {:induction false} VisitAllKeepsFrontier(n: int, q: int -> real, ef: int, b: Beam, ids: seq<int>, r: Result)
    requires r in b.frontier
    ensures r in VisitAll(n, q, ef, b, ids).frontier
    decreases |ids|
  {
    if ids != [] {
      var front := ids[..|ids| - 1];
      VisitAllKeepsFrontier(n, q, ef, b, front, r);
      var c := VisitAll(n, q, ef, b, front);
      InsertMember(c.frontier, Result(ids[|ids| - 1], q(ids[|ids| - 1])), r);
    }
  }

  lemma {:induction false} RunKeepsFrontier(adj: seq<seq<int>>, q: int -> real, ef: int, b: Beam, r: Result)
    requires Inv(adj, q, ef, b) && r in b.frontier
    ensures var c := Run(adj, q, ef, b); r in c.frontier || r.id in c.expanded
    decreases |adj| - |b.visited| + |b.frontier|
  {
    hide VisitAll, Admit, Best;
    if !Stops(b) {
      ExpandKeepsInv(adj, q, ef, b);
      VisitedBound(|adj|, q, ef, b);
      VisitedBound(|adj|, q, ef, Expand(adj, q, ef, b));
      RunStep(adj, q, ef, b);
      if r == b.frontier[0] {
        VisitAllVisits(|adj|, q, ef, Pop(b), adj[r.id]);
        RunOnlyGrows(adj, q, ef, Expand(adj, q, ef, b));
        assert r.id in Pop(b).expanded;
      } else {
        VisitAllKeepsFrontier(|adj|, q, ef, Pop(b), adj[b.frontier[0].id], r);
        RunKeepsFrontier(adj, q, ef, Expand(adj, q, ef, b), r);
      }
    }
  }

  // ---------- a worse rank means a missed node ----------

  lemma BeforeRank(q: int -> real, ids: seq<int>, i: nat, r: Result)
    requires i < |ids| && r in Tag(q, ids) && Better(r, Sort(Tag(q, ids))[i])
    ensures r.id in Ids(Sort(Tag(q, ids)))[..i]
  {
    hide Sort, Better;
    var t := Sort(Tag(q, ids));
    SortMember(Tag(q, ids), r);
    SortSorted(Tag(q, ids));
    var k :| 0 <= k < |t| && t[k] == r;
    StrictTotalOrder(t[i], t[i], t[i]);
    assert k < i;
    assert Ids(t)[..i][k] == r.id;
  }

  ghost predicate FromBelow(q: int -> real, xs: seq<int>, z: Result, r: Result) {
    r.id in xs && r.distance == q(r.id) && Better(r, z)
  }

  lemma RankFromBelow(q: int -> real, xs: seq<int>, i: nat, z: Result, j: nat)
    requires j <= i < |xs| && Better(Sort(Tag(q, xs))[i], z)
    ensures FromBelow(q, xs, z, Sort(Tag(q, xs))[j])
  {
    hide Sort, Better;
    var s := Sort(Tag(q, xs));
    SortSorted(Tag(q, xs));
    StrictTotalOrder(s[j], s[i], z);
    StrictTotalOrder(s[i], s[j], z);
    assert s[j] in s;
    SortMember(Tag(q, xs), s[j]);
    TagMember(q, xs, s[j]);
  }

  lemma MoreThanFit(xs: seq<int>, ys: seq<int>)
    requires Distinct(xs) && |xs| > |ys|
    ensures exists j :: 0 <= j < |xs| && xs[j] !in ys
  {
    if forall j :: 0 <= j < |xs| ==> xs[j] in ys {
      forall x | x in Elements(xs)
        ensures x in Elements(ys)
      {
        var j :| 0 <= j < |xs| && xs[j] == x;
      }
      DistinctSize(xs);
      AtMostLength(ys);
      SubsetSize(Elements(xs), Elements(ys));
    }
  }

  lemma {:induction false} AtMostLength(ids: seq<int>)
    ensures |Elements(ids)| <= |ids|
  {
    if ids == [] {
      assert Elements(ids) == {};
    } else {
      var m := |ids| - 1;
      AtMostLength(ids[..m]);
      assert Elements(ids) == Elements(ids[..m]) + {ids[m]};
    }
  }

  /** A rank that is better over `xs` than over `ys` comes from a node that only `xs` holds. */
  lemma SomethingMissed(q: int -> real, xs: seq<int>, ys: seq<int>, i: nat) returns (r: Result)
    requires Distinct(xs) && i < |xs| && i < |ys|
    requires Better(Sort(Tag(q, xs))[i], Sort(Tag(q, ys))[i])
    ensures r.id in xs && r.id !in ys && r.distance == q(r.id) && Better(r, Sort(Tag(q, ys))[i])
  {
    hide Sort, Better;
    var s, t := Sort(Tag(q, xs)), Sort(Tag(q, ys));
    Scans.SortDistinct(q, xs);
    var front := Ids(s)[..i + 1];
    MoreThanFit(front, Ids(t)[..i]);
    var j :| 0 <= j < |front| && front[j] !in Ids(t)[..i];
    r := s[j];
    RankFromBelow(q, xs, i, t[i], j);
    TagMember(q, ys, r);
    if r.id in ys {
      BeforeRank(q, ys, i, r);
      assert false;
    }
  }

  // ---------- the condition ----------

  ghost predicate Trio(n: int, x: int, y: int, z: int) {
    0 <= x < n && 0 <= y < n && 0 <= z < n && x != y && y != z && x != z
  }

  /** Three tied nodes, three strictly nearer ones and a seventh node. */
  ghost predicate NearerTrio(n: int, q: int -> real, w: int, x: int, c: int, i: int, j: int, k: int) {
    && n >= 7 && w < x < c && Tied(n, q, w, x, c)
    && Trio(n, i, j, k) && q(i) < q(w) && q(j) < q(w) && q(k) < q(w)
  }

  /** Four tied nodes, three others that sort before all of them and an eighth node. */
  ghost predicate TiedFour(n: int, q: int -> real, v: int, w: int, x: int, c: int, i: int, j: int, k: int) {
    var V := Result(v, q(v));
    && n >= 8 && 0 <= v < w < x < c && Tied(n, q, w, x, c) && q(v) == q(w)
    && Trio(n, i, j, k)
    && Better(Result(i, q(i)), V) && Better(Result(j, q(j)), V) && Better(Result(k, q(k)), V)
  }

  /** Among n nodes, the distances from which some graph loses a rank to a wider beam. */
  ghost predicate CanLose(n: int, q: int -> real) {
    || (exists w, x, c, i, j, k :: NearerTrio(n, q, w, x, c, i, j, k))
    || (exists v, w, x, c, i, j, k :: TiedFour(n, q, v, w, x, c, i, j, k))
  }

  // ---------- where two runs part ----------

  /** The narrow beam goes on to `h`, the wide one to `c`, which the narrow one no longer holds. */
  ghost predicate Parted(n: int, q: int -> real, ef: int, a: Beam, last: Result, c: Result, h: Result) {
    && |a.best| == ef && last in a.best && (forall y :: y in a.best ==> !Better(last, y))
    && Better(last, c) && Better(c, h) && last.distance == c.distance == h.distance
    && last.id in a.visited && c.id in a.visited && h.id in a.visited
    && last.distance == q(last.id) && c.distance == q(c.id) && h.distance == q(h.id)
    && c.id !in a.expanded && h.id !in a.expanded
  }

  lemma RunsPart(n: int, q: int -> real, ef: int, ef': int, a: Beam, b: Beam)
    requires 0 < ef <= ef' && Core(n, q, ef, a) && Core(n, q, ef', b) && InStep(ef, a, b)
    requires !Stops(a) && (b.frontier == [] || a.frontier[0] != b.frontier[0])
    ensures b.frontier != [] && Parted(n, q, ef, a, a.best[|a.best| - 1], b.frontier[0], a.frontier[0])
  {
    hide Best, Better;
    WorstOf(n, q, ef, a);
    var last, h := a.best[|a.best| - 1], a.frontier[0];
    assert h in b.frontier;
    var c := b.frontier[0];
    assert c in b.frontier;
    BeamEntry.SortedHead(b.frontier, h);
    StrictTotalOrder(c, h, c);
    if c in a.frontier {
      BeamEntry.SortedHead(a.frontier, c);
      assert false;
    }
    assert Surplus(ef, a, c);
    BestSorted(Tag(q, a.visited), ef);
    LastIsWorst(a.best);
    TiedBetween(last, c, h);
  }

  lemma LastIsWorst(s: seq<Result>)
    requires Sorted(s) && s != []
    ensures forall y :: y in s ==> !Better(s[|s| - 1], y)
  {
    StrictTotalOrder(s[|s| - 1], s[0], s[0]);
  }

  lemma TiedBetween(last: Result, c: Result, h: Result)
    requires Better(last, c) && Better(c, h) && h.distance <= last.distance
    ensures last.distance == c.distance == h.distance && last.id < c.id < h.id
  {
  }

  /** What the wide run leaves behind is worse than its whole result. */
  ghost predicate Behind(ef': int, frontier: seq<Result>, u: Result, best: seq<Result>) {
    |best| == ef' && forall z :: z in best ==> Better(z, u) && (u in frontier ==> z.distance < u.distance)
  }

  lemma LeftBehind(
      adj: seq<seq<int>>, q: int -> real, ef': int, frontier: seq<Result>, last: Result, b: Beam, u: Result)
    requires ef' > 0 && Inv(adj, q, ef', b) && (forall r :: r in frontier ==> r in b.frontier)
    requires var B := Run(adj, q, ef', b); Straggler(q, frontier, last, Elements(B.visited), Elements(B.expanded), u)
    ensures Behind(ef', frontier, u, Run(adj, q, ef', b).best)
  {
    hide Run, Best, Better;
    var B := Run(adj, q, ef', b);
    RunInv(adj, q, ef', b);
    BestSorted(Tag(q, B.visited), ef');
    TagMember(q, B.visited, u);
    if u in B.best {
      assert u in B.frontier;
      StoppedFrontierIsWorse(B, u);
      assert false;
    }
    BestIsBest(Tag(q, B.visited), ef', u);
    if u in frontier {
      RunKeepsFrontier(adj, q, ef', b, u);
      BehindFrontier(B, u);
    }
    forall z | z in B.best
      ensures Better(z, u)
    {
      StrictTotalOrder(z, u, z);
    }
  }

  lemma BehindFrontier(b: Beam, u: Result)
    requires Sorted(b.frontier) && Sorted(b.best) && Stops(b) && u in b.frontier && b.best != []
    ensures forall z :: z in b.best ==> z.distance < u.distance
  {
    BeamEntry.SortedHead(b.frontier, u);
    forall z | z in b.best
      ensures z.distance < u.distance
    {
      BetterOrTied(b.best, z);
    }
  }

  lemma BetterOrTied(s: seq<Result>, z: Result)
    requires Sorted(s) && z in s
    ensures z.distance <= s[|s| - 1].distance
  {
    var i :| 0 <= i < |s| && s[i] == z;
  }

  /** Where everything the narrow run visited was visited by the wide one, no rank is worse. */
  lemma NothingMissed(q: int -> real, ef: int, ef': int, xs: seq<int>, ys: seq<int>)
    requires 0 < ef <= ef' && Distinct(xs) && Distinct(ys) && forall x :: x in xs ==> x in ys
    ensures NoWorse(Best(Tag(q, xs), ef), Best(Tag(q, ys), ef'))
  {
    DistinctSize(xs);
    DistinctSize(ys);
    SubsetSize(Elements(xs), Elements(ys));
    var w, w' := Best(Tag(q, xs), ef), Best(Tag(q, ys), ef');
    forall i | 0 <= i < |w|
      ensures !Better(w[i], w'[i])
    {
      if Better(w[i], w'[i]) {
        var r := SomethingMissed(q, xs, ys, i);
        assert false;
      }
    }
  }

  /** A loss comes from a node that only the narrow run visits, and it is better than some rank of the wide run. */
  lemma WorseRank(q: int -> real, ef: int, ef': int, xs: seq<int>, ys: seq<int>) returns (r: Result, z: Result)
    requires 0 < ef <= ef' && Distinct(xs) && Distinct(ys) && |Best(Tag(q, ys), ef')| == ef'
    requires !NoWorse(Best(Tag(q, xs), ef), Best(Tag(q, ys), ef'))
    ensures r.id in xs && r.id !in ys && r.distance == q(r.id) && z in Best(Tag(q, ys), ef') && Better(r, z)
  {
    var w, w' := Best(Tag(q, xs), ef), Best(Tag(q, ys), ef');
    var i :| 0 <= i < |w| && Better(w[i], w'[i]);
    r := SomethingMissed(q, xs, ys, i);
    z := w'[i];
  }

  /** If the narrow run ends better, it met a node the wide run missed, and the wide run left a node behind. */
  lemma LossNeeds(adj: seq<seq<int>>, q: int -> real, ef: int, ef': int, a: Beam, b: Beam, last: Result)
      returns (r: Result, z: Result, u: Result)
    requires 0 < ef <= ef' && Inv(adj, q, ef, a) && Inv(adj, q, ef', b) && InStep(ef, a, b)
    requires Later(ef, a.frontier, last, a)
    requires !NoWorse(Run(adj, q, ef, a).best, Run(adj, q, ef', b).best)
    ensures var B := Run(adj, q, ef', b);
            && 0 <= r.id < |adj| && r.id !in B.visited && r.distance == q(r.id) && z in B.best && Better(r, z)
            && Straggler(q, a.frontier, last, Elements(B.visited), Elements(B.expanded), u)
            && Behind(ef', a.frontier, u, B.best)
  {
    hide Run, Best, Better, Later, Straggler, Behind, NoWorse;
    var A, B := Run(adj, q, ef, a), Run(adj, q, ef', b);
    RunInv(adj, q, ef, a);
    RunInv(adj, q, ef', b);
    RunOnlyGrows(adj, q, ef', b);
    RunInside(adj, q, ef, a.frontier, last, Elements(B.visited), Elements(B.expanded), a);
    if forall v :: v in A.visited ==> v in B.visited {
      NothingMissed(q, ef, ef', A.visited, B.visited);
      assert false;
    }
    u :| Straggler(q, a.frontier, last, Elements(B.visited), Elements(B.expanded), u);
    LeftBehind(adj, q, ef', a.frontier, last, b, u);
    BehindIsFull(ef', a.frontier, u, B.best);
    r, z := WorseRank(q, ef, ef', A.visited, B.visited);
  }

  lemma BehindIsFull(ef': int, frontier: seq<Result>, u: Result, best: seq<Result>)
    requires Behind(ef', frontier, u, best)
    ensures |best| == ef'
  {
  }

  // ---------- counting the nodes ----------

  ghost predicate TiedThree(n: int, q: int -> real, last: Result, c: Result, h: Result) {
    && Scored(n, q, last) && Scored(n, q, c) && Scored(n, q, h)
    && last.distance == c.distance == h.distance && last.id < c.id < h.id
  }

  ghost predicate Scored(n: int, q: int -> real, r: Result) {
    0 <= r.id < n && r.distance == q(r.id)
  }

  lemma SevenNodes(
      n: nat, q: int -> real, last: Result, c: Result, h: Result, i: Result, j: Result, k: Result, g: Result)
    requires TiedThree(n, q, last, c, h) && Scored(n, q, i) && Scored(n, q, j) && Scored(n, q, k) && Scored(n, q, g)
    requires i.id != j.id && j.id != k.id && i.id != k.id && g.id !in [i.id, j.id, k.id, last.id, c.id, h.id]
    requires i.distance < last.distance && j.distance < last.distance && k.distance < last.distance
    ensures CanLose(n, q)
  {
    DistinctInRange(n, [i.id, j.id, k.id, g.id, last.id, c.id, h.id]);
    assert NearerTrio(n, q, last.id, c.id, h.id, i.id, j.id, k.id);
  }

  lemma EightNodes(
      n: nat, q: int -> real, u: Result, last: Result, c: Result, h: Result, i: Result, j: Result, k: Result,
      g: Result)
    requires TiedThree(n, q, last, c, h) && Scored(n, q, i) && Scored(n, q, j) && Scored(n, q, k) && Scored(n, q, g)
    requires i.id != j.id && j.id != k.id && i.id != k.id && g.id !in [i.id, j.id, k.id, u.id, last.id, c.id, h.id]
    requires Scored(n, q, u) && u.distance == last.distance && u.id < last.id
    requires Better(i, u) && Better(j, u) && Better(k, u)
    ensures CanLose(n, q)
  {
    DistinctInRange(n, [i.id, j.id, k.id, g.id, u.id, last.id, c.id, h.id]);
    assert TiedFour(n, q, u.id, last.id, c.id, h.id, i.id, j.id, k.id);
  }

  /** What the wide run ended with: at least two results, all sorting before `u`, and the node `r` it missed. */
  ghost predicate Ended(n: int, q: int -> real, best: seq<Result>, u: Result, r: Result) {
    && |best| >= 2 && Distinct(Ids(best)) && Scored(n, q, r) && Scored(n, q, u) && Better(r, u)
    && forall z :: z in best ==> Scored(n, q, z) && Better(z, u) && z.id != r.id
  }

  /** A third result, or the entry where the narrow beam is a single node. */
  ghost predicate Extra(n: int, q: int -> real, last: Result, c: Result, h: Result, best: seq<Result>, g: Result) {
    || (|best| > 2 && g == best[2])
    || (Scored(n, q, g) && !Better(g, last) && g.id != last.id && g.id != c.id && g.id != h.id)
  }

  lemma CountNodes(
      n: nat, q: int -> real, last: Result, c: Result, h: Result, best: seq<Result>, u: Result, r: Result, g: Result)
    requires TiedThree(n, q, last, c, h) && Ended(n, q, best, u, r) && Extra(n, q, last, c, h, best, g)
    requires u.distance <= last.distance
    requires Better(u, last) || (r.distance < u.distance && forall z :: z in best ==> z.distance < u.distance)
    ensures CanLose(n, q)
  {
    var y, z := best[0], best[1];
    assert y in best && z in best && (|best| > 2 ==> best[2] in best);
    assert Ids(best)[0] != Ids(best)[1];
    assert |best| > 2 ==> Ids(best)[2] != Ids(best)[0] && Ids(best)[2] != Ids(best)[1];
    if u.distance < last.distance || !Better(u, last) {
      SevenNodes(n, q, last, c, h, r, y, z, g);
    } else {
      EightNodes(n, q, u, last, c, h, r, y, z, g);
    }
  }

  lemma ExtraNode(
      adj: seq<seq<int>>, q: int -> real, ef: int, ef': int, e: int, a: Beam, last: Result, c: Result, h: Result,
      best: seq<Result>) returns (g: Result)
    requires 0 < ef < ef' && Inv(adj, q, ef, a) && Parted(|adj|, q, ef, a, last, c, h)
    requires PastEntry(q, ef, e, a) && a.frontier != [] && |best| == ef'
    ensures Extra(|adj|, q, last, c, h, best, g)
  {
    if ef == 1 {
      g := Result(e, q(e));
      assert a.best == [last];
      TagMember(q, a.visited, g);
      BestIsBest(Tag(q, a.visited), 1, g);
    } else {
      g := best[2];
    }
  }

  lemma EndsWith(adj: seq<seq<int>>, q: int -> real, ef': int, b: Beam, frontier: seq<Result>, u: Result, r: Result)
    requires ef' >= 2 && Inv(adj, q, ef', b) && Behind(ef', frontier, u, b.best)
    requires u.id in b.visited && u.distance == q(u.id)
    requires Scored(|adj|, q, r) && r.id !in b.visited && Better(r, u)
    ensures Ended(|adj|, q, b.best, u, r)
  {
    Scans.BestKnown(q, b.visited, ef');
  }

  lemma PartedLoses(adj: seq<seq<int>>, q: int -> real, ef: int, ef': int, e: int, a: Beam, b: Beam)
    requires 0 < ef < ef' && Inv(adj, q, ef, a) && Inv(adj, q, ef', b) && InStep(ef, a, b)
    requires PastEntry(q, ef, e, a) && !Stops(a) && (b.frontier == [] || a.frontier[0] != b.frontier[0])
    requires !NoWorse(Run(adj, q, ef, a).best, Run(adj, q, ef', b).best)
    ensures CanLose(|adj|, q)
  {
    hide Run, Best, Ended, Extra, NoWorse, PastEntry, CanLose;
    var n, B := |adj|, Run(adj, q, ef', b);
    RunsPart(n, q, ef, ef', a, b);
    var last, c, h := a.best[|a.best| - 1], b.frontier[0], a.frontier[0];
    var r, z, u := LossNeeds(adj, q, ef, ef', a, b, last);
    RunInv(adj, q, ef', b);
    StrictTotalOrder(r, z, u);
    EndsWith(adj, q, ef', B, a.frontier, u, r);
    var g := ExtraNode(adj, q, ef, ef', e, a, last, c, h, B.best);
    CountNodes(n, q, last, c, h, B.best, u, r, g);
  }

  /** While both beams expand the same node they stay in step. */
  lemma StepTogether(adj: seq<seq<int>>, q: int -> real, ef: int, ef': int, e: int, a: Beam, b: Beam)
    requires 0 < ef <= ef' && Inv(adj, q, ef, a) && Inv(adj, q, ef', b) && InStep(ef, a, b)
    requires PastEntry(q, ef, e, a) && !Stops(a) && b.frontier != [] && a.frontier[0] == b.frontier[0]
    ensures 0 <= a.frontier[0].id < |adj|
    ensures var c, d := Expand(adj, q, ef, a), Expand(adj, q, ef', b);
            && Inv(adj, q, ef, c) && Inv(adj, q, ef', d) && InStep(ef, c, d) && PastEntry(q, ef, e, c)
            && Run(adj, q, ef, a) == Run(adj, q, ef, c) && Run(adj, q, ef', b) == Run(adj, q, ef', d)
            && |adj| - |c.visited| + |c.frontier| < |adj| - |a.visited| + |a.frontier|
            && |c.visited| <= |adj|
  {
    hide Best, PastEntry, Expand, Run;
    WorstOf(|adj|, q, ef, a);
    WideGoesOn(|adj|, q, ef, ef', a, b);
    ExpandInStep(adj, q, ef, ef', a, b);
    ExpandKeepsInv(adj, q, ef, a);
    ExpandPastEntry(adj, q, ef, e, a);
    VisitedBound(|adj|, q, ef, Expand(adj, q, ef, a));
  }

  lemma {:induction false} StepsKeepRanks(
      adj: seq<seq<int>>, q: int -> real, ef: int, ef': int, e: int, a: Beam, b: Beam)
    requires 0 < ef < ef' && Inv(adj, q, ef, a) && Inv(adj, q, ef', b) && InStep(ef, a, b)
    requires PastEntry(q, ef, e, a) && !CanLose(|adj|, q)
    ensures NoWorse(Run(adj, q, ef, a).best, Run(adj, q, ef', b).best)
    decreases |adj| - |a.visited| + |a.frontier|
  {
    hide Inv, InStep, NoWorse, PastEntry, CanLose, Expand;
    VisitedAtMost(adj, q, ef, a);
    if Stops(a) {
      StoppedKeepsRanks(adj, q, ef, ef', a, b);
    } else if b.frontier == [] || a.frontier[0] != b.frontier[0] {
      if !NoWorse(Run(adj, q, ef, a).best, Run(adj, q, ef', b).best) {
        PartedLoses(adj, q, ef, ef', e, a, b);
      }
    } else {
      StepTogether(adj, q, ef, ef', e, a, b);
      StepsKeepRanks(adj, q, ef, ef', e, Expand(adj, q, ef, a), Expand(adj, q, ef', b));
    }
  }

  lemma VisitedAtMost(adj: seq<seq<int>>, q: int -> real, ef: int, b: Beam)
    requires Inv(adj, q, ef, b)
    ensures |b.visited| <= |adj|
  {
    VisitedBound(|adj|, q, ef, b);
  }

  lemma StoppedKeepsRanks(adj: seq<seq<int>>, q: int -> real, ef: int, ef': int, a: Beam, b: Beam)
    requires 0 < ef <= ef' && Inv(adj, q, ef, a) && Inv(adj, q, ef', b) && InStep(ef, a, b) && Stops(a)
    ensures NoWorse(Run(adj, q, ef, a).best, Run(adj, q, ef', b).best)
  {
    hide Best, NoWorse;
    RunOnlyGrows(adj, q, ef', b);
    RunInv(adj, q, ef', b);
    PrefixNoWorse(q, ef, ef', a.visited, Run(adj, q, ef', b).visited);
  }

  lemma PrefixNoWorse(q: int -> real, ef: int, ef': int, xs: seq<int>, ys: seq<int>)
    requires ef <= ef' && xs <= ys
    ensures NoWorse(Best(Tag(q, xs), ef), Best(Tag(q, ys), ef'))
  {
    PrefixRank(q, ef, ef', xs, ys);
  }

  /** Outside the condition no rank of a single-entry search gets worse, whatever the graph and the widths. */
  lemma KeepsRanks(adj: seq<seq<int>>, q: int -> real, e: int, ef: int, ef': int)
    requires ef <= ef' && !CanLose(|adj|, q)
    ensures RanksKept(adj, q, e, ef, ef')
  {
    hide CanLose, Inv, InStep, Run;
    if !(0 <= e < |adj|) {
      EnterNothing(adj, q, e, ef);
    } else if 0 < ef < ef' {
      EnterOne(adj, q, e, ef);
      EnterOne(adj, q, e, ef');
      var b := Beam([e], [Result(e, q(e))], [Result(e, q(e))], []);
      StartInStep(ef, b);
      ExpandInStep(adj, q, ef, ef', b, b);
      ExpandPastEntry(adj, q, ef, e, b);
      StepsKeepRanks(adj, q, ef, ef', e, Expand(adj, q, ef, b), Expand(adj, q, ef', b));
    } else {
      SameWidth(Search(adj, q, [e], ef).best);
    }
  }

  lemma StartInStep(ef: int, b: Beam)
    ensures InStep(ef, b, b)
  {
  }

  lemma SameWidth(w: seq<Result>)
    ensures NoWorse(w, w)
  {
    forall i | 0 <= i < |w|
      ensures !Better(w[i], w[i])
    {
      StrictTotalOrder(w[i], w[i], w[i]);
    }
  }
}
