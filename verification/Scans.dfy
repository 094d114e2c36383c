/** Bounded-heap scans: the k best of a stream seen one element at a time. */
module Scans {
  import opened Order
  import opened Sorting
  import opened Heaps

  function UpTo(n: nat): (ids: seq<int>)
    ensures |ids| == n && forall i :: 0 <= i < n ==> ids[i] == i
  {
    seq(n, i => i)
  }

  function Without(ids: seq<int>, x: int): seq<int> {
    if ids == [] then []
    else
      var rest := Without(ids[..|ids| - 1], x);
      if ids[|ids| - 1] == x then rest else rest + [ids[|ids| - 1]]
  }

  lemma {:induction false} WithoutMember(ids: seq<int>, x: int, y: int)
    ensures y in Without(ids, x) <==> y in ids && y != x
  {
    if ids != [] {
      WithoutMember(ids[..|ids| - 1], x, y);
      assert ids == ids[..|ids| - 1] + [ids[|ids| - 1]];
    }
  }

  lemma WithoutStep(ids: seq<int>, i: nat, x: int)
    requires i < |ids|
    ensures Without(ids[..i + 1], x) ==
            if ids[i] == x then Without(ids[..i], x) else Without(ids[..i], x) + [ids[i]]
  {
    assert ids[..i + 1][..i] == ids[..i];
  }

  lemma {:induction false} WithoutDistinct(ids: seq<int>, x: int)
    requires Distinct(ids)
    ensures Distinct(Without(ids, x))
  {
    if ids != [] {
      var front := ids[..|ids| - 1];
      WithoutDistinct(front, x);
      WithoutMember(front, x, ids[|ids| - 1]);
    }
  }

  /** The heap holds the `limit` best of the stream. */
  ghost predicate HoldsBest(best: Heap, stream: seq<Result>, limit: int)
    reads best
  {
    best.Valid() && best.priority == FarthestFirst && multiset(best.items) == multiset(Best(stream, limit))
  }

  /** Push while there is room, then replace the root when the newcomer is better. */
  method Consider(best: Heap, next: Result, limit: int, ghost stream: seq<Result>)
    requires limit > 0 && HoldsBest(best, stream, limit)
    modifies best
    ensures HoldsBest(best, stream + [next], limit)
  {
    ghost var w := Best(stream, limit);
    BestStep(stream, next, limit);
    BestSorted(stream, limit);
    SameMembers(best.items, w);
    if |best.items| < limit {
      OfferRoom(w, next, limit);
      best.Push(next);
      return;
    }
    RootOfSorted(FarthestFirst, best.items, w);
    OfferFull(w, next, limit);
    MultisetTail(w);
    if Better(next, best.items[0]) {
      best.ReplaceWorst(next);
    }
  }

  method SortedBest(best: Heap, limit: int, ghost stream: seq<Result>) returns (results: seq<Result>)
    requires HoldsBest(best, stream, limit)
    modifies best
    ensures results == Best(stream, limit)
  {
    BestSorted(stream, limit);
    results := best.SortedItems();
    SortedUnique(results, Best(stream, limit));
  }

  lemma TagSnoc(q: int -> real, ids: seq<int>, id: int)
    ensures Tag(q, ids + [id]) == Tag(q, ids) + [Result(id, q(id))]
  {
  }

  lemma TagStep(q: int -> real, ids: seq<int>, i: nat)
    requires i < |ids|
    ensures Tag(q, ids[..i + 1]) == Tag(q, ids[..i]) + [Result(ids[i], q(ids[i]))]
  {
  }

  /** A limit beyond the length of the stream is no limit. */
  lemma ClampedBest(stream: seq<Result>, k: int)
    ensures Best(stream, if k > |stream| then |stream| else k) == Best(stream, k)
  {
  }

  /** The exact nearest neighbours by a scan of every node. */
  method ExactScan(count: nat, q: int -> real, k: int) returns (results: seq<Result>)
    requires k > 0
    ensures results == Best(Tag(q, UpTo(count)), k)
  {
    var limit := if k > count then count else k;
    var best := new Heap(FarthestFirst);
    ghost var all := UpTo(count);
    for id := 0 to count
      invariant HoldsBest(best, Tag(q, all[..id]), limit)
    {
      TagStep(q, all, id);
      Consider(best, Result(id, q(id)), limit, Tag(q, all[..id]));
    }
    assert all[..count] == all;
    results := SortedBest(best, limit, Tag(q, all));
    ClampedBest(Tag(q, all), k);
  }

  /** The nearest `limit` of the collected ids. */
  method CandidatesFromIDs(ids: seq<int>, limit: int, q: int -> real) returns (candidates: seq<Result>)
    requires limit > 0
    ensures candidates == Best(Tag(q, ids), limit)
  {
    var best := new Heap(FarthestFirst);
    for i := 0 to |ids|
      invariant HoldsBest(best, Tag(q, ids[..i]), limit)
    {
      TagStep(q, ids, i);
      Consider(best, Result(ids[i], q(ids[i])), limit, Tag(q, ids[..i]));
    }
    assert ids[..|ids|] == ids;
    candidates := SortedBest(best, limit, Tag(q, ids));
  }

  /** The nearest `limit` of all nodes but the source itself. */
  method ExactCandidatesForNode(count: nat, source: int, limit: int, q: int -> real)
    returns (candidates: seq<Result>)
    requires limit > 0
    ensures candidates == Best(Tag(q, Without(UpTo(count), source)), limit)
  {
    var best := new Heap(FarthestFirst);
    ghost var all := UpTo(count);
    for id := 0 to count
      invariant HoldsBest(best, Tag(q, Without(all[..id], source)), limit)
    {
      ghost var seen := Without(all[..id], source);
      WithoutStep(all, id, source);
      if id == source {
        continue;
      }
      TagSnoc(q, seen, id);
      Consider(best, Result(id, q(id)), limit, Tag(q, seen));
    }
    assert all[..count] == all;
    candidates := SortedBest(best, limit, Tag(q, Without(all, source)));
  }

  // ---------- lists with the same ids ----------

  lemma {:induction false} DistinctContents(ids: seq<int>, x: int)
    requires Distinct(ids)
    ensures multiset(ids)[x] == if x in ids then 1 else 0
  {
    if ids != [] {
      var front := ids[..|ids| - 1];
      assert ids == front + [ids[|ids| - 1]];
      DistinctContents(front, x);
    }
  }

  lemma {:induction false} TagContents(q: int -> real, ids: seq<int>, r: Result)
    ensures multiset(Tag(q, ids))[r] == if r.distance == q(r.id) then multiset(ids)[r.id] else 0
  {
    if ids == [] {
      assert Tag(q, ids) == [];
    } else {
      var front, x := ids[..|ids| - 1], ids[|ids| - 1];
      assert ids == front + [x];
      assert Tag(q, ids) == Tag(q, front) + [Result(x, q(x))];
      TagContents(q, front, r);
    }
  }

  /** The sorted scores of distinct ids depend only on which ids they are. */
  lemma SortOfSet(q: int -> real, a: seq<int>, b: seq<int>)
    requires Distinct(a) && Distinct(b)
    requires forall x :: x in a <==> x in b
    ensures Sort(Tag(q, a)) == Sort(Tag(q, b))
  {
    forall r
      ensures multiset(Tag(q, a))[r] == multiset(Tag(q, b))[r]
    {
      TagContents(q, a, r);
      TagContents(q, b, r);
      DistinctContents(a, r.id);
      DistinctContents(b, r.id);
    }
    assert multiset(Tag(q, a)) == multiset(Tag(q, b));
    SortPermutation(Tag(q, a), Tag(q, b));
  }

  lemma SortDistinct(q: int -> real, ids: seq<int>)
    requires Distinct(ids)
    ensures Distinct(Ids(Sort(Tag(q, ids))))
  {
    var t := Sort(Tag(q, ids));
    DistinctSize(ids);
    forall x
      ensures x in ids <==> x in Ids(t)
    {
      IdsMember(t, x);
      if x in ids {
        TagMember(q, ids, Result(x, q(x)));
        SortMember(Tag(q, ids), Result(x, q(x)));
      }
      if x in Ids(t) {
        var r :| r in t && r.id == x;
        SortMember(Tag(q, ids), r);
        TagMember(q, ids, r);
      }
    }
    assert Elements(Ids(t)) == Elements(ids);
    SizeDistinct(Ids(t));
  }

  /** A list with as many different elements as positions has no repetition. */
  lemma {:induction false} SizeDistinct(ids: seq<int>)
    requires |Elements(ids)| >= |ids|
    ensures Distinct(ids)
  {
    if ids != [] {
      var front := ids[..|ids| - 1];
      var x := ids[|ids| - 1];
      assert Elements(ids) == Elements(front) + {x};
      ElementsBound(front);
      assert x in Elements(front) ==> Elements(front) + {x} == Elements(front);
      SizeDistinct(front);
    }
  }

  lemma {:induction false} ElementsBound(ids: seq<int>)
    ensures |Elements(ids)| <= |ids|
  {
    if ids == [] {
      assert Elements(ids) == {};
    } else {
      var front := ids[..|ids| - 1];
      ElementsBound(front);
      assert Elements(ids) == Elements(front) + {ids[|ids| - 1]};
    }
  }

  /** The k best of distinct ids are distinct, come from the list and carry its scores. */
  lemma BestKnown(q: int -> real, ids: seq<int>, k: int)
    requires Distinct(ids)
    ensures Distinct(Ids(Best(Tag(q, ids), k)))
    ensures forall r :: r in Best(Tag(q, ids), k) ==> r.id in ids && r.distance == q(r.id)
  {
    SortDistinct(q, ids);
    var t, w := Sort(Tag(q, ids)), Best(Tag(q, ids), k);
    forall i, j | 0 <= i < j < |w|
      ensures Ids(w)[i] != Ids(w)[j]
    {
      assert Ids(w)[i] == Ids(t)[i] && Ids(w)[j] == Ids(t)[j];
    }
    forall r | r in w
      ensures r.id in ids && r.distance == q(r.id)
    {
      BestMember(Tag(q, ids), k, r);
      TagMember(q, ids, r);
    }
  }

  // ---------- the nearest of a pool, without sorting ----------

  /** The `limit` nearest nodes of the pool, nearest first; whatever is missing is behind a full list. */
  ghost predicate Nearest(q: int -> real, pool: set<int>, limit: nat, w: seq<Result>) {
    && |w| <= limit
    && (forall i, j :: 0 <= i < j < |w| ==> Better(w[i], w[j]))
    && (forall r :: r in w ==> r.id in pool && r.distance == q(r.id))
    && (forall x :: x in pool ==>
          Result(x, q(x)) in w || (|w| == limit && forall r :: r in w ==> Better(r, Result(x, q(x)))))
  }

  lemma StrictlyAscending(w: seq<Result>, i: nat, j: nat)
    requires Sorted(w) && Distinct(Ids(w)) && i < j < |w|
    ensures Better(w[i], w[j])
  {
    assert Ids(w)[i] != Ids(w)[j];
    StrictTotalOrder(w[i], w[j], w[i]);
  }

  lemma BestIsNearest(q: int -> real, ids: seq<int>, limit: nat)
    requires Distinct(ids)
    ensures Nearest(q, Elements(ids), limit, Best(Tag(q, ids), limit))
  {
    hide Sort, Better;
    var w := Best(Tag(q, ids), limit);
    BestKnown(q, ids, limit);
    BestSorted(Tag(q, ids), limit);
    forall i, j | 0 <= i < j < |w|
      ensures Better(w[i], w[j])
    {
      StrictlyAscending(w, i, j);
    }
    forall x | x in Elements(ids)
      ensures Result(x, q(x)) in w || (|w| == limit && forall r :: r in w ==> Better(r, Result(x, q(x))))
    {
      var X := Result(x, q(x));
      TagMember(q, ids, X);
      BestIsBest(Tag(q, ids), limit, X);
      forall r | r in w && X !in w
        ensures Better(r, X)
      {
        StrictTotalOrder(r, X, r);
      }
    }
  }

  lemma NearestIsDistinct(q: int -> real, pool: set<int>, limit: nat, w: seq<Result>)
    requires Nearest(q, pool, limit, w)
    ensures Distinct(Ids(w)) && Sort(w) == w && w == Tag(q, Ids(w))
  {
    hide Sort, Better;
    forall i, j | 0 <= i < j < |w|
      ensures Ids(w)[i] != Ids(w)[j] && !Better(w[j], w[i])
    {
      assert w[i] in w && w[j] in w;
      StrictTotalOrder(w[i], w[j], w[i]);
    }
    SortOfSorted(w);
    assert forall i :: 0 <= i < |w| ==> w[i] in w;
  }

  lemma NearestMember(q: int -> real, pool: set<int>, limit: nat, w: seq<Result>, x: int)
    requires Nearest(q, pool, limit, w)
    ensures x in Ids(w) <==> Result(x, q(x)) in w
  {
    IdsMember(w, x);
    if x in Ids(w) {
      var r :| r in w && r.id == x;
      assert r == Result(x, q(x));
    }
  }

  /** Two such lists could only differ by taking worse nodes for better ones. */
  lemma NearestTakesAll(q: int -> real, pool: set<int>, limit: nat, a: seq<Result>, b: seq<Result>, x: int)
    requires Nearest(q, pool, limit, a) && Nearest(q, pool, limit, b) && x in Ids(a)
    ensures x in Ids(b)
  {
    hide Sort, Better;
    NearestMember(q, pool, limit, a, x);
    NearestMember(q, pool, limit, b, x);
    if x !in Ids(b) {
      var X := Result(x, q(x));
      NearestIsDistinct(q, pool, limit, a);
      NearestIsDistinct(q, pool, limit, b);
      DistinctSize(Ids(a));
      DistinctSize(Ids(b));
      if forall y :: y in Ids(b) ==> y in Ids(a) {
        SubsetSize(Elements(Ids(b)) + {x}, Elements(Ids(a)));
        assert false;
      }
      var y :| y in Ids(b) && y !in Ids(a);
      NearestMember(q, pool, limit, a, y);
      NearestMember(q, pool, limit, b, y);
      StrictTotalOrder(X, Result(y, q(y)), X);
      assert false;
    }
  }

  /** So scores, pool and limit leave exactly one list. */
  lemma NearestOnce(q: int -> real, pool: set<int>, limit: nat, a: seq<Result>, b: seq<Result>)
    requires Nearest(q, pool, limit, a) && Nearest(q, pool, limit, b)
    ensures a == b
  {
    hide Nearest, Sort;
    forall x
      ensures x in Ids(a) <==> x in Ids(b)
    {
      if x in Ids(a) {
        NearestTakesAll(q, pool, limit, a, b, x);
      }
      if x in Ids(b) {
        NearestTakesAll(q, pool, limit, b, a, x);
      }
    }
    NearestIsDistinct(q, pool, limit, a);
    NearestIsDistinct(q, pool, limit, b);
    SortOfSet(q, Ids(a), Ids(b));
  }
}
