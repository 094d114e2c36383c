/** What the brute-force searches answer, and the bounded queue that computes it. */
module FlatSearch {
  import opened Order
  import opened Sorting
  import opened Heaps
  import opened Vectors
  import opened FlatRows
  import Scans

  datatype FlatError = BuildTwice | DimensionNotEqual | InternalError | InvalidBinary

  datatype Answer<+T> = Value(value: T) | Failure(reason: FlatError)

  /** The distance functions; an unknown metric scores everything 0. */
  datatype FlatKernel = FlatKernel(
    l2: (Vector, Vector) -> real, ip: (Vector, Vector) -> real, cosine: (Vector, Vector) -> real)

  function Distance(kernel: FlatKernel, metric: string, base: Vector, query: Vector): real {
    if metric == "l2" then kernel.l2(base, query)
    else if metric == "ip" then kernel.ip(base, query)
    else if metric == "cosine" then kernel.cosine(base, query)
    else 0.0
  }

  function ToQuery(kernel: FlatKernel, metric: string, query: Vector): Vector -> real {
    (base: Vector) => Distance(kernel, metric, base, query)
  }

  /** The metric's name selects the distance. */
  lemma MetricsByName(kernel: FlatKernel, metric: string, base: Vector, query: Vector)
    ensures ToQuery(kernel, "l2", query)(base) == kernel.l2(base, query)
    ensures ToQuery(kernel, "ip", query)(base) == kernel.ip(base, query)
    ensures ToQuery(kernel, "cosine", query)(base) == kernel.cosine(base, query)
    ensures metric !in ["l2", "ip", "cosine"] ==> ToQuery(kernel, metric, query)(base) == 0.0
  {
  }

  datatype Request = Request(count: int, dim: int, vector: Vector)

  // ---------- search specifications ----------

  function NotFiltered(filter: int -> bool): Row -> bool {
    (r: Row) => !filter(r.id)
  }

  function Within(filter: int -> bool, d: Vector -> real, radius: real): Row -> bool {
    (r: Row) => !filter(r.id) && d(r.vector) < radius
  }

  function Min(a: int, b: int): int {
    if b < a then b else a
  }

  type Long = x: int | -0x8000_0000_0000_0000 <= x < 0x8000_0000_0000_0000

  /** The queue length is compared with k as an unsigned 64-bit word, so a negative k wraps around. */
  function Bound(k: Long, count: nat): (bound: nat)
    ensures k >= 0 ==> bound == Min(k, count)
    ensures k < 0 ==> bound >= 0x8000_0000_0000_0000
  {
    if k < 0 then k + 0x1_0000_0000_0000_0000 else Min(k, count)
  }

  /** The nearest hits when a positive limit is given, else all of them. */
  function Limited(hits: seq<Result>, limit: int): seq<Result> {
    if limit >= 1 then Take(hits, limit) else hits
  }

  function KnnAnswer(rows: seq<Row>, dim: int, d: Vector -> real, query: Request, k: Long, filter: int -> bool)
    : Answer<seq<Result>>
  {
    if query.count != 1 then Failure(InternalError)
    else if dim != query.dim then Failure(DimensionNotEqual)
    else Value(Best(Hits(rows, NotFiltered(filter), d), Bound(k, |rows|)))
  }

  function RangeAnswer(
      rows: seq<Row>, dim: int, d: Vector -> real, query: Request, radius: real, filter: int -> bool, limit: int)
    : Answer<seq<Result>>
  {
    if dim != query.dim then Failure(DimensionNotEqual)
    else if query.count != 1 then Failure(InternalError)
    else
      var hits := Sort(Hits(rows, Within(filter, d, radius), d));
      Value(Limited(hits, limit))
  }

  /** Both searches answer from the id-to-vector map alone: storage order and history are invisible. */
  lemma AnswersDependOnMap(
      a: seq<Row>, b: seq<Row>, dim: int, d: Vector -> real, query: Request, k: Long, radius: real,
      filter: int -> bool, limit: int)
    requires UniqueIds(a) && UniqueIds(b) && ToMap(a) == ToMap(b)
    ensures KnnAnswer(a, dim, d, query, k, filter) == KnnAnswer(b, dim, d, query, k, filter)
    ensures RangeAnswer(a, dim, d, query, radius, filter, limit) == RangeAnswer(b, dim, d, query, radius, filter, limit)
  {
    HitsDependOnMap(a, b, NotFiltered(filter), d);
    HitsDependOnMap(a, b, Within(filter, d, radius), d);
    MapSize(a);
    MapSize(b);
  }

  lemma {:induction false} MapSize(rows: seq<Row>)
    requires UniqueIds(rows)
    ensures |ToMap(rows)| == |rows|
  {
    if rows != [] {
      var front, r := rows[..|rows| - 1], rows[|rows| - 1];
      MapSize(front);
      ToMapFacts(front);
      assert !HasId(front, r.id);
      assert ToMap(rows).Keys == ToMap(front).Keys + {r.id};
      assert |ToMap(rows).Keys| == |ToMap(front).Keys| + 1;
    }
  }

  /** Up to k stored, unfiltered ids in order; whatever is left out is no better than anything returned. */
  lemma KnnIsExact(
      rows: seq<Row>, dim: int, d: Vector -> real, query: Request, k: Long, filter: int -> bool, r: Result)
    requires UniqueIds(rows) && query.count == 1 && query.dim == dim && 0 <= k
    requires Expected(ToMap(rows), NotFiltered(filter), d, r) == 1
    ensures var found := KnnAnswer(rows, dim, d, query, k, filter).value;
            && Sorted(found) && |found| <= k
            && (r in found || (|found| == Min(k, |rows|) && forall w :: w in found ==> !Better(r, w)))
  {
    var stream := Hits(rows, NotFiltered(filter), d);
    BestSorted(stream, Bound(k, |rows|));
    HitsAreKept(rows, NotFiltered(filter), d, r);
    SortMember(stream, r);
    BestIsBest(stream, Bound(k, |rows|), r);
  }

  // ---------- the answers by the map ----------

  /** The distance of a stored id's vector. */
  function ScoreOf(m: map<int, Vector>, d: Vector -> real): int -> real {
    (id: int) => if id in m then d(m[id]) else 0.0
  }

  lemma {:induction false} TwiceListed(s: seq<Result>, i: nat, j: nat)
    requires i < j < |s| && s[i] == s[j]
    ensures multiset(s)[s[i]] >= 2
  {
    var front, last := s[..|s| - 1], s[|s| - 1];
    assert s == front + [last];
    if j < |s| - 1 {
      TwiceListed(front, i, j);
    } else {
      assert front[i] == s[i] && s[i] in multiset(front);
    }
  }

  /** The sorted hits have no repetitions. */
  lemma HitsAscend(rows: seq<Row>, keep: Row -> bool, d: Vector -> real, i: nat, j: nat)
    requires UniqueIds(rows) && i < j < |Sort(Hits(rows, keep, d))|
    ensures Better(Sort(Hits(rows, keep, d))[i], Sort(Hits(rows, keep, d))[j])
  {
    var s := Sort(Hits(rows, keep, d));
    SortSorted(Hits(rows, keep, d));
    StrictTotalOrder(s[i], s[j], s[i]);
    if s[i] == s[j] {
      TwiceListed(s, i, j);
      HitsContents(rows, keep, d, s[i]);
    }
  }

  /** Kept ids of the map. */
  ghost predicate KeptIds(m: map<int, Vector>, keep: Row -> bool, pool: set<int>) {
    forall id :: id in pool <==> id in m && keep(Row(id, m[id]))
  }

  lemma HitsAreNearest(rows: seq<Row>, keep: Row -> bool, d: Vector -> real, pool: set<int>, limit: nat)
    requires UniqueIds(rows) && KeptIds(ToMap(rows), keep, pool)
    ensures Scans.Nearest(ScoreOf(ToMap(rows), d), pool, limit, Best(Hits(rows, keep, d), limit))
  {
    hide Sort, Better, Hits, ToMap, UniqueIds;
    var m, hits := ToMap(rows), Hits(rows, keep, d);
    var w, q := Best(hits, limit), ScoreOf(m, d);
    forall i, j | 0 <= i < j < |w|
      ensures Better(w[i], w[j])
    {
      HitsAscend(rows, keep, d, i, j);
    }
    forall r | r in w
      ensures r.id in pool && r.distance == q(r.id)
    {
      HitsAreKept(rows, keep, d, r);
      assert r in Sort(hits);
    }
    forall x | x in pool
      ensures Result(x, q(x)) in w || (|w| == limit && forall r :: r in w ==> Better(r, Result(x, q(x))))
    {
      var X := Result(x, q(x));
      HitsAreKept(rows, keep, d, X);
      SortMember(hits, X);
      BestIsBest(hits, limit, X);
      forall r | r in w && X !in w
        ensures Better(r, X)
      {
        StrictTotalOrder(r, X, r);
      }
    }
  }

  /** The k nearest of the stored ids that are not filtered out, for k >= 0. */
  lemma KnnIsNearest(
      rows: seq<Row>, dim: int, d: Vector -> real, query: Request, k: Long, filter: int -> bool)
    requires UniqueIds(rows) && query.count == 1 && query.dim == dim && k >= 0
    ensures var m, found := ToMap(rows), KnnAnswer(rows, dim, d, query, k, filter).value;
            Scans.Nearest(ScoreOf(m, d), (set id | id in m && !filter(id)), if k < |m| then k else |m|, found)
  {
    var m := ToMap(rows);
    MapSize(rows);
    HitsAreNearest(rows, NotFiltered(filter), d, (set id | id in m && !filter(id)), if k < |m| then k else |m|);
  }

  /** The stored ids closer than the radius and not filtered out: all of them, or the nearest under a limit. */
  lemma RangeIsNearest(
      rows: seq<Row>, dim: int, d: Vector -> real, query: Request, radius: real, filter: int -> bool, limit: int)
    requires UniqueIds(rows) && query.count == 1 && query.dim == dim
    ensures var m, found := ToMap(rows), RangeAnswer(rows, dim, d, query, radius, filter, limit).value;
            Scans.Nearest(ScoreOf(m, d), (set id | id in m && !filter(id) && d(m[id]) < radius),
                          if limit >= 1 then limit else |m|, found)
  {
    var m, keep := ToMap(rows), Within(filter, d, radius);
    var pool := set id | id in m && !filter(id) && d(m[id]) < radius;
    MapSize(rows);
    HitsAtMost(rows, keep, d);
    HitsAreNearest(rows, keep, d, pool, if limit >= 1 then limit else |m|);
  }

  lemma {:induction false} HitsAtMost(rows: seq<Row>, keep: Row -> bool, d: Vector -> real)
    ensures |Hits(rows, keep, d)| <= |rows|
  {
    if rows != [] {
      HitsAtMost(rows[..|rows| - 1], keep, d);
    }
  }

  /** A negative k is no limit at all. */
  lemma NegativeKReturnsAll(
      rows: seq<Row>, dim: int, d: Vector -> real, query: Request, k: Long, filter: int -> bool)
    requires query.count == 1 && query.dim == dim && k < 0
    requires |rows| < 0x8000_0000_0000_0000
    ensures KnnAnswer(rows, dim, d, query, k, filter) == Value(Sort(Hits(rows, NotFiltered(filter), d)))
  {
    HitsAtMost(rows, NotFiltered(filter), d);
    BestAll(Hits(rows, NotFiltered(filter), d), Bound(k, |rows|));
  }

  // ---------- the priority queue ----------

  /** The top of the queue is the last of the sorted contents. */
  method PopLast(q: Heap, ghost t: seq<Result>) returns (top: Result)
    requires q.Valid() && q.priority == FarthestFirst
    requires t != [] && Sorted(t) && multiset(q.items) == multiset(t)
    modifies q
    ensures q.Valid() && multiset(q.items) == multiset(t[..|t| - 1]) && |q.items| == |t| - 1
    ensures top == t[|t| - 1]
  {
    SameMembers(q.items, t);
    RootOfSorted(FarthestFirst, q.items, t);
    MultisetTail(t);
    top := q.Pop();
    SameMembers(q.items, t[..|t| - 1]);
  }

  /** One more element offered to the `limit` best: insert, and cut the last when that is one too many. */
  lemma OfferCuts(stream: seq<Result>, next: Result, limit: int)
    requires limit >= 0
    ensures var t := Insert(Best(stream, limit), next);
            Sorted(t) && Best(stream + [next], limit) == if |t| > limit then t[..|t| - 1] else t
  {
    BestStep(stream, next, limit);
    BestSorted(stream, limit);
    InsertSorted(Best(stream, limit), next);
  }

  /** Push, then drop the worst when more than `limit` are held. */
  method PushBounded(q: Heap, next: Result, limit: int, ghost stream: seq<Result>)
    requires limit >= 0 && q.Valid() && q.priority == FarthestFirst
    requires multiset(q.items) == multiset(Best(stream, limit))
    modifies q
    ensures q.Valid() && multiset(q.items) == multiset(Best(stream + [next], limit))
  {
    ghost var t := Insert(Best(stream, limit), next);
    OfferCuts(stream, next, limit);
    q.Push(next);
    SameMembers(q.items, t);
    if |q.items| > limit {
      var worst := PopLast(q, t);
    }
  }

  function Reversed<T>(s: seq<T>): (r: seq<T>)
    ensures |r| == |s| && forall i :: 0 <= i < |s| ==> r[i] == s[|s| - 1 - i]
  {
    seq(|s|, i requires 0 <= i < |s| => s[|s| - 1 - i])
  }

  /** Popping until empty lists the contents worst first. */
  method Drain(q: Heap) returns (results: seq<Result>)
    requires q.Valid() && q.priority == FarthestFirst
    modifies q
    ensures results == Reversed(Sort(old(q.items)))
  {
    ghost var t := Sort(q.items);
    SortSorted(q.items);
    results := DrainSorted(q, t);
  }

  method DrainSorted(q: Heap, ghost t: seq<Result>) returns (results: seq<Result>)
    requires q.Valid() && q.priority == FarthestFirst && Sorted(t) && multiset(q.items) == multiset(t)
    modifies q
    ensures results == Reversed(t)
  {
    results := [];
    ghost var left := t;
    SameMembers(q.items, t);
    while |q.items| > 0
      invariant q.Valid() && |results| + |left| == |t| && |q.items| == |left|
      invariant left == t[..|left|] && multiset(q.items) == multiset(left)
      invariant results == Reversed(t)[..|results|]
      decreases |left|
    {
      assert Sorted(left);
      var top := PopLast(q, left);
      results := results + [top];
      left := left[..|left| - 1];
    }
  }

  /** Filling `size` slots, at most the limit, from the end of the drained hits. */
  lemma FilledIsLimited(hits: seq<Result>, limit: int)
    ensures var size := if limit >= 1 then Min(limit, |hits|) else |hits|;
            Reversed(Reversed(hits))[..size] == Limited(hits, limit)
  {
    ReverseTwice(hits);
  }

  /** The answer arrays are filled from the end of the drained list. */
  method FillAnswer(drained: seq<Result>, size: nat) returns (out: seq<Result>)
    requires size <= |drained|
    ensures out == Reversed(drained)[..size]
  {
    out := [];
    for i := 0 to size
      invariant out == Reversed(drained)[..i]
    {
      out := out + [drained[|drained| - 1 - i]];
    }
  }

  lemma ReverseTwice<T>(s: seq<T>)
    ensures Reversed(Reversed(s)) == s
  {
  }
}
