/** The approximate k-nearest-neighbour graph: seeded lists improved by neighbourhood exchange. */
module NNDescent {
  import opened Order
  import opened Sorting
  import opened Scans
  import opened Outcomes
  import opened Prune
  import opened Transpose
  import opened Collector
  import opened MarkTables
  import opened Parallel

  /** Each list has exactly `limit` distinct in-range neighbours of its node, scored and sorted. */
  ghost predicate WellFormed(count: int, d: (int, int) -> real, limit: int, lists: seq<seq<Result>>) {
    && |lists| == count
    && forall u :: 0 <= u < count ==> WellFormedAt(count, d, limit, lists[u], u)
  }

  ghost predicate WellFormedAt(count: int, d: (int, int) -> real, limit: int, list: seq<Result>, u: int) {
    && ValidIds(count, u, limit, Ids(list))
    && Sorted(list)
    && forall i :: 0 <= i < |list| ==> list[i].distance == d(u, list[i].id)
  }

  function Attempts(draw: (int, nat) -> nat, u: int): nat -> nat {
    (attempt: nat) => draw(u, attempt)
  }

  function InitialList(
      count: int, d: (int, int) -> real, limit: nat, draw: (int, nat) -> nat, start: int -> nat, u: int)
    : seq<Result>
    requires 0 <= u < count
  {
    Best(Tag(From(d, u), InitialIds(count, u, limit, Attempts(draw, u), start(u))), limit)
  }

  function InitialLists(
      count: nat, d: (int, int) -> real, limit: nat, draw: (int, nat) -> nat, start: int -> nat)
    : (lists: seq<seq<Result>>)
    ensures |lists| == count
    ensures forall u :: 0 <= u < count ==> lists[u] == InitialList(count, d, limit, draw, start, u)
  {
    seq(count, u requires 0 <= u < count => InitialList(count, d, limit, draw, start, u))
  }

  /** The lists of the given nodes, one after another. */
  function ListsOf(lists: seq<seq<int>>, nodes: seq<int>): seq<int>
    requires InRange(|lists|, nodes)
  {
    if nodes == [] then []
    else ListsOf(lists, nodes[..|nodes| - 1]) + lists[nodes[|nodes| - 1]]
  }

  /** Own list, reverse list, and the lists of both. */
  function Pool(lists: seq<seq<int>>, own: seq<int>, reverse: seq<int>): seq<int>
    requires InRange(|lists|, own) && InRange(|lists|, reverse)
  {
    own + reverse + ListsOf(lists, own) + ListsOf(lists, reverse)
  }

  function ExchangeIds(lists: seq<seq<int>>, u: int): seq<int>
    requires ListsInRange(|lists|, lists) && 0 <= u < |lists|
  {
    SourcesInRange(lists, u);
    Pool(lists, lists[u], Sources(lists, u))
  }

  lemma SourcesInRange(lists: seq<seq<int>>, v: int)
    ensures InRange(|lists|, Sources(lists, v))
  {
    var s := Sources(lists, v);
    forall i | 0 <= i < |s|
      ensures 0 <= s[i] < |lists|
    {
      SourcesMember(lists, v, s[i]);
    }
  }

  function RoundList(d: (int, int) -> real, lists: seq<seq<int>>, limit: nat, u: int): seq<Result>
    requires ListsInRange(|lists|, lists) && 0 <= u < |lists|
  {
    Best(Tag(From(d, u), Dedup(u, ExchangeIds(lists, u))), limit)
  }

  function Round(d: (int, int) -> real, lists: seq<seq<int>>, limit: nat): (next: seq<seq<Result>>)
    requires ListsInRange(|lists|, lists)
    ensures |next| == |lists|
    ensures forall u :: 0 <= u < |lists| ==> next[u] == RoundList(d, lists, limit, u)
  {
    seq(|lists|, u requires 0 <= u < |lists| => RoundList(d, lists, limit, u))
  }

  /** n exchange rounds. */
  function Rounds(count: nat, d: (int, int) -> real, lists: seq<seq<Result>>, limit: nat, n: nat): (r: seq<seq<Result>>)
    requires WellFormed(count, d, limit, lists)
    ensures WellFormed(count, d, limit, r)
  {
    if n == 0 then lists
    else
      var before := Rounds(count, d, lists, limit, n - 1);
      RoundKeeps(count, d, before, limit);
      Round(d, IdLists(before), limit)
  }

  lemma WellFormedInRange(count: nat, d: (int, int) -> real, limit: int, lists: seq<seq<Result>>)
    requires WellFormed(count, d, limit, lists)
    ensures ListsInRange(count, IdLists(lists)) && |IdLists(lists)| == count
  {
    forall u | 0 <= u < count
      ensures InRange(count, IdLists(lists)[u])
    {
      assert WellFormedAt(count, d, limit, lists[u], u);
    }
  }

  /** The best `limit` of enough distinct neighbours is a well-formed list. */
  lemma BestIsWellFormed(count: int, d: (int, int) -> real, limit: nat, u: int, ids: seq<int>)
    requires Distinct(ids) && InRange(count, ids) && u !in ids && |ids| >= limit
    ensures WellFormedAt(count, d, limit, Best(Tag(From(d, u), ids), limit), u)
  {
    var q := From(d, u);
    var w := Best(Tag(q, ids), limit);
    BestKnown(q, ids, limit);
    BestSorted(Tag(q, ids), limit);
    forall i | 0 <= i < |w|
      ensures w[i].id in ids && w[i].distance == d(u, w[i].id)
    {
      assert w[i] in w;
    }
  }

  lemma {:induction false} ListsOfInRange(lists: seq<seq<int>>, nodes: seq<int>)
    requires ListsInRange(|lists|, lists) && InRange(|lists|, nodes)
    ensures InRange(|lists|, ListsOf(lists, nodes))
  {
    if nodes != [] {
      ListsOfInRange(lists, nodes[..|nodes| - 1]);
    }
  }

  lemma ExchangeInRange(lists: seq<seq<int>>, u: int)
    requires ListsInRange(|lists|, lists) && 0 <= u < |lists|
    ensures InRange(|lists|, ExchangeIds(lists, u))
  {
    SourcesInRange(lists, u);
    ListsOfInRange(lists, lists[u]);
    ListsOfInRange(lists, Sources(lists, u));
  }

  lemma DedupInRange(count: int, u: int, ids: seq<int>)
    requires InRange(count, ids)
    ensures InRange(count, Dedup(u, ids))
  {
    DedupFacts(u, ids);
    var t := Dedup(u, ids);
    forall i | 0 <= i < |t|
      ensures 0 <= t[i] < count
    {
      assert t[i] in t;
    }
  }

  lemma PoolSplits(a: seq<int>, b: seq<int>, c: seq<int>, d: seq<int>)
    ensures a + b + c + d == a + (b + c + d)
  {
  }

  /** The exchange pool starts with the node's current list. */
  lemma PoolExtends(lists: seq<seq<int>>, u: int)
    requires ListsInRange(|lists|, lists) && 0 <= u < |lists|
    requires Distinct(lists[u]) && u !in lists[u]
    ensures lists[u] <= Dedup(u, ExchangeIds(lists, u))
  {
    SourcesInRange(lists, u);
    var own, reverse := lists[u], Sources(lists, u);
    var more := reverse + ListsOf(lists, own) + ListsOf(lists, reverse);
    PoolSplits(own, reverse, ListsOf(lists, own), ListsOf(lists, reverse));
    DedupPrefix(u, own, more);
    DedupOfDistinct(u, lists[u]);
  }

  /** A round keeps every list at exactly `limit` distinct sorted neighbours. */
  lemma RoundKeeps(count: nat, d: (int, int) -> real, lists: seq<seq<Result>>, limit: nat)
    requires WellFormed(count, d, limit, lists)
    ensures ListsInRange(count, IdLists(lists)) && |IdLists(lists)| == count
    ensures WellFormed(count, d, limit, Round(d, IdLists(lists), limit))
  {
    var ids := IdLists(lists);
    WellFormedInRange(count, d, limit, lists);
    forall u | 0 <= u < count
      ensures WellFormedAt(count, d, limit, RoundList(d, ids, limit, u), u)
    {
      assert WellFormedAt(count, d, limit, lists[u], u);
      PoolExtends(ids, u);
      ExchangeInRange(ids, u);
      DedupInRange(count, u, ExchangeIds(ids, u));
      DedupFacts(u, ExchangeIds(ids, u));
      BestIsWellFormed(count, d, limit, u, Dedup(u, ExchangeIds(ids, u)));
    }
  }

  lemma OwnListIsSorted(d: (int, int) -> real, list: seq<Result>, u: int)
    requires Sorted(list) && forall i :: 0 <= i < |list| ==> list[i].distance == d(u, list[i].id)
    ensures Sort(Tag(From(d, u), Ids(list))) == list
  {
    assert Tag(From(d, u), Ids(list)) == list;
    SortOfSorted(list);
  }

  /** The best of a larger pool is no worse at any rank than the list the pool starts with. */
  lemma PoolProgress(d: (int, int) -> real, list: seq<Result>, u: int, pool: seq<int>, limit: nat, i: nat)
    requires Sorted(list) && forall j :: 0 <= j < |list| ==> list[j].distance == d(u, list[j].id)
    requires Ids(list) <= pool && |list| == limit && i < limit
    ensures i < |Best(Tag(From(d, u), pool), limit)|
    ensures !Better(list[i], Best(Tag(From(d, u), pool), limit)[i])
  {
    var q, more := From(d, u), pool[|list|..];
    assert pool == Ids(list) + more;
    assert Tag(q, pool) == Tag(q, Ids(list)) + Tag(q, more);
    OwnListIsSorted(d, list, u);
    SortRank(Tag(q, Ids(list)), Tag(q, more), i);
  }

  /** Progress: no rank of any list gets worse in a round. */
  lemma RoundProgress(count: nat, d: (int, int) -> real, lists: seq<seq<Result>>, limit: nat, u: nat, i: nat)
    requires WellFormed(count, d, limit, lists) && u < count && i < limit
    ensures ListsInRange(count, IdLists(lists)) && |IdLists(lists)| == count
    ensures |lists[u]| == |Round(d, IdLists(lists), limit)[u]| == limit
    ensures !Better(lists[u][i], Round(d, IdLists(lists), limit)[u][i])
  {
    RoundKeeps(count, d, lists, limit);
    assert WellFormedAt(count, d, limit, lists[u], u);
    assert WellFormedAt(count, d, limit, Round(d, IdLists(lists), limit)[u], u);
    PoolExtends(IdLists(lists), u);
    PoolProgress(d, lists[u], u, Dedup(u, ExchangeIds(IdLists(lists), u)), limit, i);
  }

  /** The i-th neighbour of every node after n rounds. */
  function RankAfter(
      count: nat, d: (int, int) -> real, lists: seq<seq<Result>>, limit: nat, n: nat, u: nat, i: nat): Result
    requires WellFormed(count, d, limit, lists) && u < count && i < limit
  {
    assert WellFormedAt(count, d, limit, Rounds(count, d, lists, limit, n)[u], u);
    Rounds(count, d, lists, limit, n)[u][i]
  }

  lemma NextRank(count: nat, d: (int, int) -> real, lists: seq<seq<Result>>, limit: nat, n: nat, u: nat, i: nat)
    requires WellFormed(count, d, limit, lists) && u < count && i < limit
    ensures !Better(RankAfter(count, d, lists, limit, n, u, i), RankAfter(count, d, lists, limit, n + 1, u, i))
  {
    RoundProgress(count, d, Rounds(count, d, lists, limit, n), limit, u, i);
  }

  lemma {:induction false} NeverWorse(f: nat -> Result, m: nat, n: nat)
    requires m <= n && forall k: nat :: !Better(f(k), f(k + 1))
    ensures !Better(f(m), f(n))
    decreases n
  {
    if m < n {
      NeverWorse(f, m, n - 1);
      assert !Better(f(n - 1), f(n - 1 + 1));
      StrictTotalOrder(f(m), f(n), f(n - 1));
    }
  }

  /** Over any number of rounds the i-th neighbour of every node is never worse than it was. */
  lemma RoundsProgress(
      count: nat, d: (int, int) -> real, lists: seq<seq<Result>>, limit: nat, m: nat, n: nat, u: nat, i: nat)
    requires WellFormed(count, d, limit, lists) && m <= n && u < count && i < limit
    ensures !Better(RankAfter(count, d, lists, limit, m, u, i), RankAfter(count, d, lists, limit, n, u, i))
  {
    var f := (k: nat) => RankAfter(count, d, lists, limit, k, u, i);
    forall k: nat
      ensures !Better(f(k), f(k + 1))
    {
      NextRank(count, d, lists, limit, k, u, i);
    }
    NeverWorse(f, m, n);
  }

  lemma InitialIsWellFormed(
      count: nat, d: (int, int) -> real, limit: nat, draw: (int, nat) -> nat, start: int -> nat)
    requires limit < count
    ensures WellFormed(count, d, limit, InitialLists(count, d, limit, draw, start))
  {
    forall u | 0 <= u < count
      ensures WellFormedAt(count, d, limit, InitialLists(count, d, limit, draw, start)[u], u)
    {
      InitialIdsAreValid(count, u, limit, Attempts(draw, u), start(u));
      BestIsWellFormed(count, d, limit, u, InitialIds(count, u, limit, Attempts(draw, u), start(u)));
    }
  }

  // ---------- one exchange without the pool ----------

  /** y is on u's list, or u is on y's. */
  ghost predicate Linked(lists: seq<seq<int>>, u: int, y: int)
    requires 0 <= u < |lists|
  {
    y in lists[u] || (0 <= y < |lists| && u in lists[y])
  }

  /** What u meets in an exchange: the nodes it is linked to and the nodes on their lists. */
  ghost predicate Met(lists: seq<seq<int>>, u: int, x: int)
    requires 0 <= u < |lists|
  {
    x != u && (Linked(lists, u, x) || exists y :: 0 <= y < |lists| && Linked(lists, u, y) && x in lists[y])
  }

  ghost function MetBy(lists: seq<seq<int>>, u: int): (r: set<int>)
    requires 0 <= u < |lists|
    ensures forall x :: x in r <==> 0 <= x < |lists| && Met(lists, u, x)
  {
    set x | 0 <= x < |lists| && Met(lists, u, x)
  }

  lemma {:induction false} ListsOfMember(lists: seq<seq<int>>, nodes: seq<int>, x: int)
    requires InRange(|lists|, nodes)
    ensures x in ListsOf(lists, nodes) <==> exists y :: y in nodes && 0 <= y < |lists| && x in lists[y]
  {
    if nodes != [] {
      var front, last := nodes[..|nodes| - 1], nodes[|nodes| - 1];
      ListsOfMember(lists, front, x);
      assert nodes == front + [last];
      assert last in nodes && 0 <= last < |lists|;
    }
  }

  lemma PoolMember(own: seq<int>, reverse: seq<int>, a: seq<int>, b: seq<int>, x: int)
    ensures x in own + reverse + a + b <==> x in own || x in reverse || x in a || x in b
  {
  }

  /** The pool of a node holds exactly what the node meets. */
  lemma PoolIsMet(lists: seq<seq<int>>, u: int, x: int)
    requires ListsInRange(|lists|, lists) && 0 <= u < |lists|
    ensures x in Dedup(u, ExchangeIds(lists, u)) <==> 0 <= x < |lists| && Met(lists, u, x)
  {
    hide ListsOf, Sources, Dedup;
    var own, reverse := lists[u], Sources(lists, u);
    SourcesInRange(lists, u);
    ExchangeInRange(lists, u);
    DedupFacts(u, ExchangeIds(lists, u));
    PoolMember(own, reverse, ListsOf(lists, own), ListsOf(lists, reverse), x);
    SourcesMember(lists, u, x);
    ListsOfMember(lists, own, x);
    ListsOfMember(lists, reverse, x);
    forall y
      ensures y in reverse <==> 0 <= y < |lists| && u in lists[y]
    {
      SourcesMember(lists, u, y);
    }
    if x in ExchangeIds(lists, u) {
      NodesInRange(|lists|, ExchangeIds(lists, u), x);
    }
  }

  lemma NodesInRange(n: int, ids: seq<int>, x: int)
    requires InRange(n, ids) && x in ids
    ensures 0 <= x < n
  {
  }

  /** The lists after a round: for every node the nearest of what it meets, scored by its own distances. */
  ghost predicate Exchanged(d: (int, int) -> real, lists: seq<seq<int>>, limit: nat, next: seq<seq<Result>>) {
    && |next| == |lists|
    && forall u :: 0 <= u < |lists| ==> ExchangedAt(d, lists, limit, u, next[u])
  }

  ghost predicate ExchangedAt(d: (int, int) -> real, lists: seq<seq<int>>, limit: nat, u: int, list: seq<Result>)
    requires 0 <= u < |lists|
  {
    && Nearest(From(d, u), MetBy(lists, u), limit, list)
    && forall r :: r in list ==> r.distance == d(u, r.id)
  }

  lemma RoundListIsNearest(d: (int, int) -> real, lists: seq<seq<int>>, limit: nat, u: int)
    requires ListsInRange(|lists|, lists) && 0 <= u < |lists|
    ensures Nearest(From(d, u), MetBy(lists, u), limit, RoundList(d, lists, limit, u))
  {
    hide Met, ExchangeIds, Dedup, Best, Nearest;
    var ids := Dedup(u, ExchangeIds(lists, u));
    DedupFacts(u, ExchangeIds(lists, u));
    BestIsNearest(From(d, u), ids, limit);
    forall x
      ensures x in Elements(ids) <==> x in MetBy(lists, u)
    {
      PoolIsMet(lists, u, x);
    }
    assert Elements(ids) == MetBy(lists, u);
  }

  /** A round is exactly that. */
  lemma RoundExactly(d: (int, int) -> real, lists: seq<seq<int>>, limit: nat, next: seq<seq<Result>>)
    requires ListsInRange(|lists|, lists)
    ensures Exchanged(d, lists, limit, next) <==> next == Round(d, lists, limit)
  {
    hide Nearest, RoundList, MetBy;
    if |next| == |lists| {
      forall u | 0 <= u < |lists|
        ensures ExchangedAt(d, lists, limit, u, next[u]) <==> next[u] == RoundList(d, lists, limit, u)
      {
        RoundListIsNearest(d, lists, limit, u);
        NearestScores(From(d, u), MetBy(lists, u), limit, RoundList(d, lists, limit, u));
        if Nearest(From(d, u), MetBy(lists, u), limit, next[u]) {
          NearestOnce(From(d, u), MetBy(lists, u), limit, next[u], RoundList(d, lists, limit, u));
        }
      }
    }
  }

  lemma NearestScores(q: int -> real, pool: set<int>, limit: nat, w: seq<Result>)
    requires Nearest(q, pool, limit, w)
    ensures forall r :: r in w ==> r.distance == q(r.id)
  {
  }

  /** What a round does for one node: it takes what is met, and nothing else, nearest first. */
  lemma RoundTakesMet(d: (int, int) -> real, lists: seq<seq<int>>, limit: nat, u: nat, x: int)
    requires ListsInRange(|lists|, lists) && u < |lists| && 0 <= x < |lists|
    ensures var next := Round(d, lists, limit)[u];
            && (Result(x, d(u, x)) in next ==> Met(lists, u, x))
            && (Met(lists, u, x) ==>
                  || Result(x, d(u, x)) in next
                  || (|next| == limit && forall r :: r in next ==> Better(r, Result(x, d(u, x)))))
  {
    RoundListIsNearest(d, lists, limit, u);
    assert x in MetBy(lists, u) <==> Met(lists, u, x);
  }

  /** Nodes 0 and 1 list each other, 2 lists 1 and 3 lists 2. */
  const CHAIN: seq<seq<int>> := [[1], [0], [1], [2]]

  lemma ChainMeets(x: int)
    ensures Linked(CHAIN, 0, x) <==> x == 1
    ensures Met(CHAIN, 0, x) <==> x == 1
  {
    assert CHAIN[0] == [1] && CHAIN[1] == [0] && CHAIN[2] == [1] && CHAIN[3] == [2];
    assert forall y :: 0 <= y < 4 && 0 in CHAIN[y] ==> y == 1;
  }

  lemma OnlyOneMet(q: int -> real, pool: set<int>, w: seq<Result>)
    requires Nearest(q, pool, 1, w) && pool == {1}
    ensures Ids(w) == [1]
  {
    assert 1 in pool;
    assert w[0] in w;
  }

  /**
   * A node that merely lists a neighbour of u is not met: whatever the distances, node 0 keeps node 1 and never
   * tries node 2, which lists node 1.
   */
  lemma ListingANeighbourIsNotEnough(d: (int, int) -> real)
    ensures ListsInRange(4, CHAIN) && Linked(CHAIN, 0, 1) && Linked(CHAIN, 1, 2) && !Met(CHAIN, 0, 2)
    ensures Ids(Round(d, CHAIN, 1)[0]) == [1]
  {
    hide Linked, Met, Nearest, RoundList;
    ChainMeets(1);
    ChainMeets(2);
    ChainLinks();
    RoundListIsNearest(d, CHAIN, 1, 0);
    forall x
      ensures x in MetBy(CHAIN, 0) <==> x == 1
    {
      ChainMeets(x);
    }
    OnlyOneMet(From(d, 0), MetBy(CHAIN, 0), Round(d, CHAIN, 1)[0]);
  }

  lemma ChainLinks()
    ensures ListsInRange(4, CHAIN) && Linked(CHAIN, 1, 2)
  {
    assert CHAIN[2] == [1];
  }

  // ---------- the exact fallback ----------

  function ExactList(count: nat, d: (int, int) -> real, limit: nat, u: int): seq<Result> {
    Best(Tag(From(d, u), Without(UpTo(count), u)), limit)
  }

  function ExactLists(count: nat, d: (int, int) -> real, limit: nat): (lists: seq<seq<Result>>)
    ensures |lists| == count
    ensures forall u :: 0 <= u < count ==> lists[u] == ExactList(count, d, limit, u)
  {
    seq(count, u requires 0 <= u < count => ExactList(count, d, limit, u))
  }

  lemma OthersFacts(count: nat, u: int)
    requires 0 <= u < count
    ensures var ids := Without(UpTo(count), u);
            Distinct(ids) && InRange(count, ids) && u !in ids && |ids| == count - 1
  {
    var ids := Without(UpTo(count), u);
    WithoutDistinct(UpTo(count), u);
    forall x
      ensures x in ids <==> 0 <= x < count && x != u
    {
      WithoutMember(UpTo(count), u, x);
      if 0 <= x < count {
        assert UpTo(count)[x] == x;
      }
    }
    forall i | 0 <= i < |ids|
      ensures 0 <= ids[i] < count
    {
      assert ids[i] in ids;
    }
    AllButOne(count, u, ids);
  }

  lemma ExactIsWellFormed(count: nat, d: (int, int) -> real, limit: nat)
    requires limit < count
    ensures WellFormed(count, d, limit, ExactLists(count, d, limit))
  {
    forall u | 0 <= u < count
      ensures WellFormedAt(count, d, limit, ExactLists(count, d, limit)[u], u)
    {
      OthersFacts(count, u);
      BestIsWellFormed(count, d, limit, u, Without(UpTo(count), u));
    }
  }

  /** Scanning needs no worker-local scratch. */
  function ExactWork(count: nat, d: (int, int) -> real, limit: nat): Work<(), seq<Result>> {
    (scratch: (), u: int) => (scratch, Ok(ExactList(count, d, limit, u)))
  }

  /** Every node scans all others, for any number of workers. */
  method ExactCandidates(count: nat, d: (int, int) -> real, k: int, workers: int)
    returns (out: Outcome<seq<seq<Result>>>)
    ensures k <= 0 ==> out == Err(KNotPositive)
    ensures k > 0 && count > 1 ==> out == Ok(ExactLists(count, d, if k > count - 1 then count - 1 else k))
    ensures k > 0 && count <= 1 ==> out == Ok(NoLists(count))
  {
    if k <= 0 {
      return Err(KNotPositive);
    }
    if count <= 1 {
      return Ok(NoLists(count));
    }
    var limit := if k > count - 1 then count - 1 else k;
    var scratch := seq(EffectiveWorkerCount(workers, count), _ => ());
    var lists, _ := FillNodes(
      count, workers, ExactWork(count, d, limit), scratch, (s: ()) => true,
      (u: int) => Ok(ExactList(count, d, limit, u)));
    assert lists == ExactLists(count, d, limit);
    return Ok(lists);
  }

  /** The scan of one node is its work. */
  method ExactNode(count: nat, d: (int, int) -> real, limit: nat, u: int) returns (list: seq<Result>)
    requires limit > 0
    ensures ((), Ok(list)) == ExactWork(count, d, limit)((), u)
  {
    list := ExactCandidatesForNode(count, u, limit, From(d, u));
  }

  function NoLists(count: nat): (lists: seq<seq<Result>>)
    ensures |lists| == count && forall u :: 0 <= u < count ==> lists[u] == []
  {
    seq(count, _ => [])
  }

  // ---------- the loops ----------

  /** The graph the initializer and the rounds compute for k > 0. */
  function KNNG(
      count: nat, d: (int, int) -> real, k: int, draw: (int, nat) -> nat, start: int -> nat, iterations: int)
    : seq<seq<Result>>
    requires k > 0
  {
    if count <= 1 then NoLists(count)
    else
      var limit := if k > count - 1 then count - 1 else k;
      if count <= limit + 1 then ExactLists(count, d, limit)
      else
        InitialIsWellFormed(count, d, limit, draw, start);
        Rounds(count, d, InitialLists(count, d, limit, draw, start), limit, if iterations < 1 then 1 else iterations)
  }

  /** For more than one node every list is full. */
  lemma KNNGIsWellFormed(
      count: nat, d: (int, int) -> real, k: int, draw: (int, nat) -> nat, start: int -> nat, iterations: int)
    requires k > 0 && count > 1
    ensures WellFormed(count, d, if k > count - 1 then count - 1 else k, KNNG(count, d, k, draw, start, iterations))
  {
    var limit := if k > count - 1 then count - 1 else k;
    if count <= limit + 1 {
      ExactIsWellFormed(count, d, limit);
    } else {
      InitialIsWellFormed(count, d, limit, draw, start);
    }
  }

  // ---------- the whole graph without the loops ----------

  /** A node's first list: the nearest of its initial neighbours. */
  ghost predicate FirstList(
      count: nat, d: (int, int) -> real, limit: nat, draw: (int, nat) -> nat, start: int -> nat, u: int,
      list: seq<Result>)
    requires count > 0
  {
    exists own, ids :: FirstListFrom(count, d, limit, draw, start, u, list, own, ids)
  }

  ghost predicate FirstListFrom(
      count: nat, d: (int, int) -> real, limit: nat, draw: (int, nat) -> nat, start: int -> nat, u: int,
      list: seq<Result>, own: nat -> nat, ids: seq<int>)
    requires count > 0
  {
    && (forall attempt: nat :: own(attempt) == draw(u, attempt)) && Initial(count, u, limit, own, start(u), ids)
    && Nearest(From(d, u), Elements(ids), limit, list) && forall r :: r in list ==> r.distance == d(u, r.id)
  }

  lemma InitialIsFirst(
      count: nat, d: (int, int) -> real, limit: nat, draw: (int, nat) -> nat, start: int -> nat, u: int)
    requires 0 <= u < count
    ensures FirstList(count, d, limit, draw, start, u, InitialList(count, d, limit, draw, start, u))
  {
    hide Initial, Nearest, Best, Dedup;
    var own, list := Attempts(draw, u), InitialList(count, d, limit, draw, start, u);
    var ids := InitialIds(count, u, limit, own, start(u));
    InitialIdsAreInitial(count, u, limit, own, start(u));
    InitialIsDistinct(count, u, limit, own, start(u), ids);
    BestIsNearest(From(d, u), ids, limit);
    NearestScores(From(d, u), Elements(ids), limit, list);
    assert FirstListFrom(count, d, limit, draw, start, u, list, own, ids);
  }

  lemma InitialIsDistinct(count: nat, u: int, limit: nat, draw: nat -> nat, start: nat, ids: seq<int>)
    requires count > 0 && Initial(count, u, limit, draw, start, ids)
    ensures Distinct(ids)
  {
  }

  /** Every other node, nearest first, up to the limit. */
  ghost predicate NearestOthers(count: nat, d: (int, int) -> real, limit: nat, u: int, list: seq<Result>) {
    && Nearest(From(d, u), Range(count) - {u}, limit, list)
    && forall r :: r in list ==> r.distance == d(u, r.id)
  }

  lemma ExactIsNearest(count: nat, d: (int, int) -> real, limit: nat, u: int)
    requires 0 <= u < count
    ensures NearestOthers(count, d, limit, u, ExactList(count, d, limit, u))
  {
    hide Nearest, Best, Without, Range;
    var ids := Without(UpTo(count), u);
    WithoutDistinct(UpTo(count), u);
    BestIsNearest(From(d, u), ids, limit);
    forall x
      ensures x in Elements(ids) <==> x in Range(count) - {u}
    {
      WithoutMember(UpTo(count), u, x);
      if 0 <= x < count {
        assert UpTo(count)[x] == x;
      }
    }
    assert Elements(ids) == Range(count) - {u};
    NearestScores(From(d, u), Elements(ids), limit, ExactList(count, d, limit, u));
  }

  /** The states of NN-Descent: first lists, and then one exchange after another. */
  ghost predicate ExchangesFrom(
      count: nat, d: (int, int) -> real, limit: nat, draw: (int, nat) -> nat, start: int -> nat, rounds: nat,
      states: seq<seq<seq<Result>>>)
    requires count > 0
  {
    && |states| == rounds + 1 && |states[0]| == count
    && (forall u :: 0 <= u < count ==> FirstList(count, d, limit, draw, start, u, states[0][u]))
    && forall i :: 1 <= i < |states| ==> ExchangeFollows(d, limit, states, i)
  }

  ghost predicate ExchangeFollows(d: (int, int) -> real, limit: nat, states: seq<seq<seq<Result>>>, i: nat)
    requires 1 <= i < |states|
  {
    Exchanged(d, IdLists(states[i - 1]), limit, states[i])
  }

  lemma {:induction false} RoundsAreExchanges(
      count: nat, d: (int, int) -> real, limit: nat, draw: (int, nat) -> nat, start: int -> nat, rounds: nat)
      returns (states: seq<seq<seq<Result>>>)
    requires count > 0 && WellFormed(count, d, limit, InitialLists(count, d, limit, draw, start))
    ensures ExchangesFrom(count, d, limit, draw, start, rounds, states)
    ensures states[rounds] == Rounds(count, d, InitialLists(count, d, limit, draw, start), limit, rounds)
  {
    hide WellFormed, FirstList, Exchanged, InitialList;
    var first := InitialLists(count, d, limit, draw, start);
    if rounds == 0 {
      forall u | 0 <= u < count
        ensures FirstList(count, d, limit, draw, start, u, first[u])
      {
        InitialIsFirst(count, d, limit, draw, start, u);
      }
      states := [first];
    } else {
      var earlier := RoundsAreExchanges(count, d, limit, draw, start, rounds - 1);
      var last := Rounds(count, d, first, limit, rounds - 1);
      RoundKeeps(count, d, last, limit);
      RoundExactly(d, IdLists(last), limit, Round(d, IdLists(last), limit));
      states := earlier + [Round(d, IdLists(last), limit)];
      forall i | 1 <= i < |states|
        ensures ExchangeFollows(d, limit, states, i)
      {
        if i < rounds {
          assert ExchangeFollows(d, limit, earlier, i);
        }
      }
    }
  }

  /**
   * The graph without the loops, for more than one node and k > 0: the nearest other nodes when k covers them all,
   * otherwise the last state after the given number of exchanges, at least one.
   */
  ghost predicate KNNGBy(
      count: nat, d: (int, int) -> real, k: nat, draw: (int, nat) -> nat, start: int -> nat, iterations: int,
      lists: seq<seq<Result>>)
    requires count > 1
  {
    if k >= count - 1 then
      |lists| == count && forall u :: 0 <= u < count ==> NearestOthers(count, d, count - 1, u, lists[u])
    else
      var rounds := if iterations < 1 then 1 else iterations;
      exists states :: ExchangesFrom(count, d, k, draw, start, rounds, states) && states[rounds] == lists
  }

  lemma KNNGIsKNNGBy(
      count: nat, d: (int, int) -> real, k: nat, draw: (int, nat) -> nat, start: int -> nat, iterations: int)
    requires k > 0 && count > 1
    ensures KNNGBy(count, d, k, draw, start, iterations, KNNG(count, d, k, draw, start, iterations))
  {
    hide NearestOthers, ExchangesFrom, ExactList, InitialLists;
    if k >= count - 1 {
      var limit := count - 1;
      var lists := ExactLists(count, d, limit);
      forall u | 0 <= u < count
        ensures NearestOthers(count, d, limit, u, lists[u])
      {
        ExactIsNearest(count, d, limit, u);
      }
    } else {
      InitialIsWellFormed(count, d, k, draw, start);
      var rounds := if iterations < 1 then 1 else iterations;
      var states := RoundsAreExchanges(count, d, k, draw, start, rounds);
      StateCount(count, d, k, draw, start, rounds, states);
    }
  }

  lemma StateCount(
      count: nat, d: (int, int) -> real, limit: nat, draw: (int, nat) -> nat, start: int -> nat, rounds: nat,
      states: seq<seq<seq<Result>>>)
    requires count > 0 && ExchangesFrom(count, d, limit, draw, start, rounds, states)
    ensures |states| == rounds + 1
  {
  }

  // ---------- worker-local collectors ----------

  /** A collector table made for this many nodes; its stamps may be anything a run has left behind. */
  predicate Sized(t: Table, count: int) {
    MarkTables.Valid(t) && |t.store| == count
  }

  function SizedFor(count: int): Table -> bool {
    (t: Table) => Sized(t, count)
  }

  predicate AllSized(scratch: seq<Table>, count: int) {
    forall i :: 0 <= i < |scratch| ==> Sized(scratch[i], count)
  }

  /** One reserved collector per worker. */
  function MakeCollectors(workers: nat, count: nat): (scratch: seq<Table>)
    ensures |scratch| == workers && AllSized(scratch, count)
  {
    seq(workers, _ => ReserveExactTable(Table([], 0, 0), count))
  }

  /** The best of what was collected, and the table left for the worker's next node. */
  function Scored(c: Collecting, limit: int, q: int -> real): (Table, Outcome<seq<Result>>) {
    (c.table, Ok(Best(Tag(q, c.ids), limit)))
  }

  /** A node's share of the initializer. */
  function InitialWork(count: int, d: (int, int) -> real, limit: nat, draw: (int, nat) -> nat, start: int -> nat)
    : Work<Table, seq<Result>>
  {
    (t: Table, u: int) =>
      if 0 <= u < count then Scored(InitialOn(t, count, u, limit, Attempts(draw, u), start(u)), limit, From(d, u))
      else (t, Ok([]))
  }

  function InitialValue(count: int, d: (int, int) -> real, limit: nat, draw: (int, nat) -> nat, start: int -> nat)
    : int -> Outcome<seq<Result>>
  {
    (u: int) => if 0 <= u < count then Ok(InitialList(count, d, limit, draw, start, u)) else Ok([])
  }

  /** The initializer's result does not depend on what the collector held before. */
  lemma InitialIsScratchFree(
      count: nat, d: (int, int) -> real, limit: nat, draw: (int, nat) -> nat, start: int -> nat)
    ensures ScratchFree(
              InitialWork(count, d, limit, draw, start), SizedFor(count), InitialValue(count, d, limit, draw, start))
  {
    var fn, valid, pure :=
      InitialWork(count, d, limit, draw, start), SizedFor(count), InitialValue(count, d, limit, draw, start);
    forall t: Table, u: int | valid(t)
      ensures valid(fn(t, u).0) && fn(t, u).1 == pure(u)
    {
      if 0 <= u < count {
        InitialOnIds(t, count, u, limit, Attempts(draw, u), start(u));
      }
    }
  }

  /** The imperative initializer of one node does exactly the node's work on its collector. */
  method InitialNode(
      count: nat, d: (int, int) -> real, limit: nat, draw: (int, nat) -> nat, start: int -> nat, u: nat,
      collector: CandidateIDCollector)
    returns (list: seq<Result>)
    requires limit > 0 && u < count && collector.Valid() && collector.marks.Length == count
    modifies collector, collector.marks
    ensures collector.Valid() && collector.marks == old(collector.marks)
    ensures (collector.AsTable(), Ok(list)) == InitialWork(count, d, limit, draw, start)(old(collector.AsTable()), u)
  {
    InitialOnIds(collector.AsTable(), count, u, limit, Attempts(draw, u), start(u));
    var ids := InitialApproxNeighborIDs(count, u, limit, Attempts(draw, u), start(u), collector);
    list := CandidatesFromIDs(ids, limit, From(d, u));
  }

  /** Initial lists from any number of workers with collectors in any state. */
  method InitialCandidates(
      count: nat, d: (int, int) -> real, limit: nat, draw: (int, nat) -> nat, start: int -> nat, workers: int,
      scratch: seq<Table>)
    returns (lists: seq<seq<Result>>, used: seq<Table>)
    requires |scratch| == EffectiveWorkerCount(workers, count) && AllSized(scratch, count)
    ensures |used| == |scratch| && AllSized(used, count)
    ensures lists == InitialLists(count, d, limit, draw, start)
  {
    InitialIsScratchFree(count, d, limit, draw, start);
    lists, used := FillNodes(
      count, workers, InitialWork(count, d, limit, draw, start), scratch, SizedFor(count),
      InitialValue(count, d, limit, draw, start));
    assert lists == InitialLists(count, d, limit, draw, start);
  }

  /** A node's share of an exchange round. */
  function ExchangeWork(lists: seq<seq<int>>, reverse: seq<seq<int>>, d: (int, int) -> real, limit: nat)
    : Work<Table, seq<Result>>
  {
    (t: Table, u: int) =>
      if Exchangeable(lists, reverse, u) then
        Scored(AddIds(Begin(t), u, Pool(lists, lists[u], reverse[u])), limit, From(d, u))
      else (t, Ok([]))
  }

  /** Holds of every node in a round; it only makes the work total. */
  predicate Exchangeable(lists: seq<seq<int>>, reverse: seq<seq<int>>, u: int) {
    && 0 <= u < |lists| == |reverse|
    && InRange(|lists|, lists[u]) && InRange(|lists|, reverse[u])
  }

  function ExchangeValue(lists: seq<seq<int>>, d: (int, int) -> real, limit: nat): int -> Outcome<seq<Result>>
    requires ListsInRange(|lists|, lists)
  {
    (u: int) => if 0 <= u < |lists| then Ok(RoundList(d, lists, limit, u)) else Ok([])
  }

  ghost predicate IsTranspose(lists: seq<seq<int>>, reverse: seq<seq<int>>) {
    |reverse| == |lists| && forall v :: 0 <= v < |lists| ==> reverse[v] == Sources(lists, v)
  }

  /** A round's result does not depend on what the collector held before. */
  lemma ExchangeIsScratchFree(lists: seq<seq<int>>, reverse: seq<seq<int>>, d: (int, int) -> real, limit: nat)
    requires ListsInRange(|lists|, lists) && IsTranspose(lists, reverse)
    ensures ScratchFree(ExchangeWork(lists, reverse, d, limit), SizedFor(|lists|), ExchangeValue(lists, d, limit))
  {
    var fn, valid, pure :=
      ExchangeWork(lists, reverse, d, limit), SizedFor(|lists|), ExchangeValue(lists, d, limit);
    forall t: Table, u: int | valid(t)
      ensures valid(fn(t, u).0) && fn(t, u).1 == pure(u)
    {
      if 0 <= u < |lists| {
        CollectedPool(t, lists, u);
      }
    }
  }

  /** Collecting a node's pool over any table of the right size gives its distinct ids. */
  lemma CollectedPool(t: Table, lists: seq<seq<int>>, u: int)
    requires Sized(t, |lists|) && ListsInRange(|lists|, lists) && 0 <= u < |lists|
    ensures InRange(|lists|, Sources(lists, u))
    ensures var c := AddIds(Begin(t), u, ExchangeIds(lists, u));
            Sized(c.table, |lists|) && c.ids == Dedup(u, ExchangeIds(lists, u))
  {
    SourcesInRange(lists, u);
    var pool := ExchangeIds(lists, u);
    ExchangeInRange(lists, u);
    BeginTracks(t, u);
    AddIdsTracks(Begin(t), u, [], pool);
    assert [] + pool == pool;
  }

  method AddLists(lists: seq<seq<int>>, nodes: seq<int>, source: int, collector: CandidateIDCollector)
    requires collector.marks.Length == |lists|
    requires ListsInRange(|lists|, lists) && InRange(|lists|, nodes)
    modifies collector`ids, collector.marks
    ensures collector.AsCollecting() == AddIds(old(collector.AsCollecting()), source, ListsOf(lists, nodes))
  {
    ghost var c := collector.AsCollecting();
    for i := 0 to |nodes|
      invariant collector.AsCollecting() == AddIds(c, source, ListsOf(lists, nodes[..i]))
    {
      collector.AddAll(lists[nodes[i]], source);
      AddIdsAppend(c, source, ListsOf(lists, nodes[..i]), lists[nodes[i]]);
      assert nodes[..i + 1][..i] == nodes[..i];
    }
    assert nodes[..|nodes|] == nodes;
  }

  /** The imperative exchange of one node does exactly the node's work on its collector. */
  method ExchangeNode(
      lists: seq<seq<int>>, reverse: seq<seq<int>>, d: (int, int) -> real, limit: nat, u: nat,
      collector: CandidateIDCollector)
    returns (list: seq<Result>)
    requires limit > 0 && collector.Valid() && collector.marks.Length == |lists|
    requires ListsInRange(|lists|, lists) && Exchangeable(lists, reverse, u)
    modifies collector, collector.marks
    ensures collector.marks == old(collector.marks)
    ensures (collector.AsTable(), Ok(list)) == ExchangeWork(lists, reverse, d, limit)(old(collector.AsTable()), u)
  {
    ghost var c := Begin(collector.AsTable());
    CollectPool(lists, lists[u], reverse[u], u, collector);
    list := CandidatesFromIDs(collector.ids, limit, From(d, u));
  }

  /** Own list, reverse list and the lists of both, one insertion at a time. */
  method CollectPool(
      lists: seq<seq<int>>, own: seq<int>, reverse: seq<int>, u: nat, collector: CandidateIDCollector)
    requires collector.Valid() && collector.marks.Length == |lists|
    requires ListsInRange(|lists|, lists) && InRange(|lists|, own) && InRange(|lists|, reverse)
    modifies collector, collector.marks
    ensures collector.marks == old(collector.marks)
    ensures collector.AsCollecting() == AddIds(Begin(old(collector.AsTable())), u, Pool(lists, own, reverse))
  {
    ghost var c := Begin(collector.AsTable());
    collector.Reset(u);
    collector.AddAll(own, u);
    collector.AddAll(reverse, u);
    AddIdsAppend(c, u, own, reverse);
    AddLists(lists, own, u, collector);
    AddIdsAppend(c, u, own + reverse, ListsOf(lists, own));
    AddLists(lists, reverse, u, collector);
    AddIdsAppend(c, u, own + reverse + ListsOf(lists, own), ListsOf(lists, reverse));
  }

  /** One round by any number of workers, each with a collector in any state. */
  method ExchangeRound(
      candidates: seq<seq<Result>>, d: (int, int) -> real, limit: nat, workers: int, scratch: seq<Table>)
    returns (next: seq<seq<Result>>, used: seq<Table>)
    requires |scratch| == EffectiveWorkerCount(workers, |candidates|) && AllSized(scratch, |candidates|)
    requires ListsInRange(|candidates|, IdLists(candidates))
    ensures |used| == |scratch| && AllSized(used, |candidates|)
    ensures next == Round(d, IdLists(candidates), limit)
  {
    var lists := IdLists(candidates);
    var reverse := ReverseCandidateIDs(lists, |candidates|);
    ExchangeIsScratchFree(lists, reverse, d, limit);
    next, used := FillNodes(
      |lists|, workers, ExchangeWork(lists, reverse, d, limit), scratch, SizedFor(|lists|),
      ExchangeValue(lists, d, limit));
    assert next == Round(d, lists, limit);
  }

  /** A fixed number of rounds; the tables left by one round serve the next. */
  method ExchangeRounds(
      count: nat, d: (int, int) -> real, initial: seq<seq<Result>>, limit: nat, rounds: nat, workers: int,
      scratch: seq<Table>)
    returns (lists: seq<seq<Result>>)
    requires WellFormed(count, d, limit, initial)
    requires |scratch| == EffectiveWorkerCount(workers, count) && AllSized(scratch, count)
    ensures lists == Rounds(count, d, initial, limit, rounds)
  {
    var collectors := scratch;
    lists := initial;
    for round := 0 to rounds
      invariant |collectors| == EffectiveWorkerCount(workers, count) && AllSized(collectors, count)
      invariant lists == Rounds(count, d, initial, limit, round)
    {
      WellFormedInRange(count, d, limit, lists);
      lists, collectors := ExchangeRound(lists, d, limit, workers, collectors);
    }
  }

  /** NN-Descent: initialise, then a fixed number of rounds; the number of workers does not show. */
  method ApproximateKNNGCandidates(
      count: nat, d: (int, int) -> real, k: int, draw: (int, nat) -> nat, start: int -> nat, iterations: int,
      workers: int)
    returns (out: Outcome<seq<seq<Result>>>)
    ensures out == if k <= 0 then Err(KNotPositive) else Ok(KNNG(count, d, k, draw, start, iterations))
  {
    if k <= 0 {
      return Err(KNotPositive);
    }
    if count <= 1 {
      return Ok(NoLists(count));
    }
    var limit := if k > count - 1 then count - 1 else k;
    if count <= limit + 1 {
      out := ExactCandidates(count, d, limit, workers);
      return;
    }
    var collectors := MakeCollectors(EffectiveWorkerCount(workers, count), count);
    var lists;
    lists, collectors := InitialCandidates(count, d, limit, draw, start, workers, collectors);
    InitialIsWellFormed(count, d, limit, draw, start);
    var improved := ExchangeRounds(
      count, d, lists, limit, if iterations < 1 then 1 else iterations, workers, collectors);
    return Ok(improved);
  }
}
