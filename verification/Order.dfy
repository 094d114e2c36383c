/** The deterministic nearest-neighbour order: distance first, then the smaller id. */
module Order {

  /** A scored node. Search results and construction candidates have the same two fields. */
  datatype Result = Result(id: int, distance: real)

  function CompareDistanceID(aDistance: real, aID: int, bDistance: real, bID: int): int {
    if aDistance < bDistance then -1
    else if aDistance > bDistance then 1
    else if aID < bID then -1
    else if aID > bID then 1
    else 0
  }

  /** `a` sorts strictly before `b`. */
  predicate Better(a: Result, b: Result) {
    CompareDistanceID(a.distance, a.id, b.distance, b.id) < 0
  }

  /** `a` sorts strictly after `b`. */
  predicate Worse(a: Result, b: Result) {
    CompareDistanceID(a.distance, a.id, b.distance, b.id) > 0
  }

  /** `Better` is a strict total order and `Worse` is its converse. */
  lemma StrictTotalOrder(a: Result, b: Result, c: Result)
    ensures !Better(a, a)
    ensures Better(a, b) && Better(b, c) ==> Better(a, c)
    ensures Better(a, b) || a == b || Better(b, a)
    ensures !(Better(a, b) && Better(b, a))
    ensures Worse(a, b) <==> Better(b, a)
  {
  }

  /** Scores of the given ids under the query `q`, in the given order. */
  function Tag(q: int -> real, ids: seq<int>): (r: seq<Result>)
    ensures |r| == |ids|
    ensures forall i :: 0 <= i < |ids| ==> r[i] == Result(ids[i], q(ids[i]))
  {
    seq(|ids|, i requires 0 <= i < |ids| => Result(ids[i], q(ids[i])))
  }

  function Ids(rs: seq<Result>): (ids: seq<int>)
    ensures |ids| == |rs|
    ensures forall i :: 0 <= i < |rs| ==> ids[i] == rs[i].id
  {
    seq(|rs|, i requires 0 <= i < |rs| => rs[i].id)
  }

  function IdLists(candidates: seq<seq<Result>>): (ids: seq<seq<int>>)
    ensures |ids| == |candidates| && forall u :: 0 <= u < |candidates| ==> ids[u] == Ids(candidates[u])
  {
    seq(|candidates|, u requires 0 <= u < |candidates| => Ids(candidates[u]))
  }

  lemma TagMember(q: int -> real, ids: seq<int>, r: Result)
    ensures r in Tag(q, ids) <==> r.id in ids && r.distance == q(r.id)
  {
    var t := Tag(q, ids);
    if r in t {
      var i :| 0 <= i < |t| && t[i] == r;
      assert ids[i] == r.id;
    }
    if r.id in ids && r.distance == q(r.id) {
      var i :| 0 <= i < |ids| && ids[i] == r.id;
      assert t[i] == r;
    }
  }

  lemma IdsMember(rs: seq<Result>, id: int)
    ensures id in Ids(rs) <==> exists r :: r in rs && r.id == id
  {
    if id in Ids(rs) {
      var i :| 0 <= i < |rs| && Ids(rs)[i] == id;
      assert rs[i] in rs && rs[i].id == id;
    }
    if exists r :: r in rs && r.id == id {
      var r :| r in rs && r.id == id;
      var i :| 0 <= i < |rs| && rs[i] == r;
      assert Ids(rs)[i] == id;
    }
  }

  ghost predicate Distinct<T>(s: seq<T>) {
    forall i, j :: 0 <= i < j < |s| ==> s[i] != s[j]
  }

  predicate InRange(n: int, ids: seq<int>) {
    forall i :: 0 <= i < |ids| ==> 0 <= ids[i] < n
  }

  function Elements(ids: seq<int>): (r: set<int>)
    ensures forall x :: x in r <==> x in ids
  {
    set x | x in ids
  }

  function Range(n: nat): (r: set<int>)
    ensures forall i :: i in r <==> 0 <= i < n
  {
    if n == 0 then {} else Range(n - 1) + {n - 1}
  }

  lemma {:induction false} RangeSize(n: nat)
    ensures |Range(n)| == n
  {
    if n > 0 {
      RangeSize(n - 1);
    }
  }

  lemma {:induction false} DistinctSize(ids: seq<int>)
    requires Distinct(ids)
    ensures |Elements(ids)| == |ids|
  {
    if ids == [] {
      assert Elements(ids) == {};
    } else {
      var m := |ids| - 1;
      DistinctSize(ids[..m]);
      assert Elements(ids) == Elements(ids[..m]) + {ids[m]};
    }
  }

  lemma SubsetSize<T>(a: set<T>, b: set<T>)
    requires a <= b
    ensures |a| <= |b|
    ensures |a| == |b| ==> a == b
  {
    assert b == a + (b - a);
    assert |b| == |a| + |b - a|;
  }

  /** Distinct ids drawn from [0,n) number at most n, and exactly n only when they are all of them. */
  lemma DistinctInRange(n: nat, ids: seq<int>)
    requires Distinct(ids) && InRange(n, ids)
    ensures |ids| <= n
    ensures |ids| == n ==> forall x :: 0 <= x < n ==> x in ids
  {
    DistinctSize(ids);
    RangeSize(n);
    SubsetSize(Elements(ids), Range(n));
    if |ids| == n {
      forall x | 0 <= x < n
        ensures x in ids
      {
        assert x in Range(n);
      }
    }
  }
}
