/** The rows of a flat index, as an ordered list and as the finite map they stand for. */
module FlatRows {
  import opened Order
  import opened Sorting
  import opened Vectors

  datatype Row = Row(id: int, vector: Vector)

  ghost predicate UniqueIds(rows: seq<Row>) {
    forall i, j :: 0 <= i < j < |rows| ==> rows[i].id != rows[j].id
  }

  predicate HasId(rows: seq<Row>, id: int) {
    exists i :: 0 <= i < |rows| && rows[i].id == id
  }

  /** What the rows mean: the vector of every id. */
  function ToMap(rows: seq<Row>): map<int, Vector> {
    if rows == [] then map[] else ToMap(rows[..|rows| - 1])[rows[|rows| - 1].id := rows[|rows| - 1].vector]
  }

  /** The map has exactly the rows' ids, with their vectors. */
  ghost predicate Represents(rows: seq<Row>, m: map<int, Vector>) {
    && (forall id :: id in m <==> HasId(rows, id))
    && (forall i :: 0 <= i < |rows| ==> rows[i].id in m && m[rows[i].id] == rows[i].vector)
  }

  lemma HasIdSnoc(rows: seq<Row>, r: Row, id: int)
    ensures HasId(rows + [r], id) <==> HasId(rows, id) || id == r.id
  {
    var all := rows + [r];
    if HasId(rows, id) {
      var i :| 0 <= i < |rows| && rows[i].id == id;
      assert all[i].id == id;
    }
    if id == r.id {
      assert all[|rows|].id == id;
    }
    if HasId(all, id) && id != r.id {
      var i :| 0 <= i < |all| && all[i].id == id;
      assert rows[i].id == id;
    }
  }

  /** One more row with a new id is one more entry. */
  lemma RepresentsSnoc(rows: seq<Row>, m: map<int, Vector>, r: Row)
    requires Represents(rows, m) && !HasId(rows, r.id)
    ensures Represents(rows + [r], m[r.id := r.vector])
  {
    hide HasId;
    var all, n := rows + [r], m[r.id := r.vector];
    forall id
      ensures id in n <==> HasId(all, id)
    {
      HasIdSnoc(rows, r, id);
    }
    forall i | 0 <= i < |all|
      ensures all[i].id in n && n[all[i].id] == all[i].vector
    {
      if i < |rows| {
        assert all[i] == rows[i] && rows[i].id in m;
      }
    }
  }

  lemma {:induction false} ToMapFacts(rows: seq<Row>)
    requires UniqueIds(rows)
    ensures Represents(rows, ToMap(rows))
  {
    if rows != [] {
      var front, last := rows[..|rows| - 1], rows[|rows| - 1];
      ToMapFacts(front);
      assert rows == front + [last];
      RepresentsSnoc(front, ToMap(front), last);
    }
  }

  // ---------- adding ----------

  /** An id already present is refused. */
  function AddOne(rows: seq<Row>, r: Row): seq<Row> {
    if HasId(rows, r.id) then rows else rows + [r]
  }

  function AddAll(rows: seq<Row>, more: seq<Row>): seq<Row> {
    if more == [] then rows else AddOne(AddAll(rows, more[..|more| - 1]), more[|more| - 1])
  }

  /** `more` as a map in which the first row of an id wins. */
  function FirstWins(more: seq<Row>): map<int, Vector> {
    if more == [] then map[]
    else
      var m := FirstWins(more[..|more| - 1]);
      var r := more[|more| - 1];
      if r.id in m then m else m[r.id := r.vector]
  }

  lemma AddOneKeeps(rows: seq<Row>, r: Row)
    requires UniqueIds(rows)
    ensures UniqueIds(AddOne(rows, r))
    ensures ToMap(AddOne(rows, r)) == if r.id in ToMap(rows) then ToMap(rows) else ToMap(rows)[r.id := r.vector]
  {
    ToMapFacts(rows);
    assert (rows + [r])[..|rows|] == rows;
  }

  /** Adding never changes a stored vector, and every new id gets the first vector offered for it. */
  lemma {:induction false} AddAllIsMerge(rows: seq<Row>, more: seq<Row>)
    requires UniqueIds(rows)
    ensures UniqueIds(AddAll(rows, more))
    ensures ToMap(AddAll(rows, more)) == FirstWins(more) + ToMap(rows)
    ensures |rows| <= |AddAll(rows, more)| <= |rows| + |more|
  {
    if more != [] {
      var front, r := more[..|more| - 1], more[|more| - 1];
      AddAllIsMerge(rows, front);
      AddOneKeeps(AddAll(rows, front), r);
      MergeStep(FirstWins(front), ToMap(rows), r);
    }
  }

  /** Offering one more row commutes with laying the stored map over the offered one. */
  lemma MergeStep(offered: map<int, Vector>, stored: map<int, Vector>, r: Row)
    ensures (if r.id in offered + stored then offered + stored else (offered + stored)[r.id := r.vector]) ==
            (if r.id in offered then offered else offered[r.id := r.vector]) + stored
  {
  }

  lemma AddToNothing(more: seq<Row>)
    ensures UniqueIds(AddAll([], more)) && ToMap(AddAll([], more)) == FirstWins(more)
  {
    AddAllIsMerge([], more);
    assert FirstWins(more) + map[] == FirstWins(more);
  }

  /** The first row of an id decides. */
  lemma {:induction false} FirstWinsFacts(more: seq<Row>, j: nat)
    requires j < |more| && forall i :: 0 <= i < j ==> more[i].id != more[j].id
    ensures more[j].id in FirstWins(more) && FirstWins(more)[more[j].id] == more[j].vector
  {
    var n := |more| - 1;
    if j < n {
      FirstWinsFacts(more[..n], j);
    } else {
      FirstWinsKeys(more[..n], more[j].id);
    }
  }

  lemma {:induction false} FirstWinsKeys(more: seq<Row>, id: int)
    ensures id in FirstWins(more) <==> HasId(more, id)
  {
    if more != [] {
      var n := |more| - 1;
      FirstWinsKeys(more[..n], id);
      if HasId(more[..n], id) {
        var i :| 0 <= i < n && more[..n][i].id == id;
        assert more[i].id == id;
      }
      if HasId(more, id) && more[n].id != id {
        var i :| 0 <= i < |more| && more[i].id == id;
        assert more[..n][i].id == id;
      }
    }
  }

  // ---------- removing ----------

  /** The first position of an id, or the length. */
  function Find(rows: seq<Row>, id: int): (i: nat)
    ensures i <= |rows| && (i < |rows| ==> rows[i].id == id)
    ensures forall j :: 0 <= j < i ==> rows[j].id != id
  {
    if rows == [] then 0
    else if rows[0].id == id then 0
    else
      var k := Find(rows[1..], id);
      assert forall j :: 0 < j < k + 1 ==> rows[j] == rows[1..][j - 1];
      k + 1
  }

  /** The last row moves into the place of the removed one. */
  function RemoveAt(rows: seq<Row>, i: nat): seq<Row>
    requires i < |rows|
  {
    rows[i := rows[|rows| - 1]][..|rows| - 1]
  }

  function RemoveOne(rows: seq<Row>, id: int): seq<Row> {
    var i := Find(rows, id);
    if i < |rows| then RemoveAt(rows, i) else rows
  }

  function RemoveAll(rows: seq<Row>, ids: seq<int>): seq<Row> {
    if ids == [] then rows else RemoveOne(RemoveAll(rows, ids[..|ids| - 1]), ids[|ids| - 1])
  }

  /** Rows without repeated ids stand for one map only. */
  lemma RepresentsOne(rows: seq<Row>, m: map<int, Vector>, n: map<int, Vector>)
    requires Represents(rows, m) && Represents(rows, n)
    ensures m == n
  {
    forall id | id in m
      ensures id in n && n[id] == m[id]
    {
      var i :| 0 <= i < |rows| && rows[i].id == id;
    }
    assert forall id :: id in n ==> id in m;
  }

  lemma RemoveAtIds(rows: seq<Row>, i: nat, id: int)
    requires UniqueIds(rows) && i < |rows|
    ensures HasId(RemoveAt(rows, i), id) <==> HasId(rows, id) && id != rows[i].id
  {
    var n := |rows| - 1;
    var t := RemoveAt(rows, i);
    if HasId(rows, id) && id != rows[i].id {
      var j :| 0 <= j < |rows| && rows[j].id == id;
      assert t[if j == n then i else j].id == id;
    }
    if HasId(t, id) {
      var j :| 0 <= j < |t| && t[j].id == id;
      assert rows[if j == i then n else j].id == id;
    }
  }

  lemma RemoveAtIsErase(rows: seq<Row>, i: nat)
    requires UniqueIds(rows) && i < |rows|
    ensures UniqueIds(RemoveAt(rows, i))
    ensures ToMap(RemoveAt(rows, i)) == ToMap(rows) - {rows[i].id}
  {
    var t := RemoveAt(rows, i);
    var m := ToMap(rows) - {rows[i].id};
    ToMapFacts(rows);
    forall id
      ensures id in m <==> HasId(t, id)
    {
      RemoveAtIds(rows, i, id);
    }
    forall j | 0 <= j < |t|
      ensures t[j].id in m && m[t[j].id] == t[j].vector
    {
      assert t[j] == rows[if j == i then |rows| - 1 else j];
    }
    ToMapFacts(t);
    RepresentsOne(t, ToMap(t), m);
  }

  lemma RemoveOneIsErase(rows: seq<Row>, id: int)
    requires UniqueIds(rows)
    ensures UniqueIds(RemoveOne(rows, id)) && ToMap(RemoveOne(rows, id)) == ToMap(rows) - {id}
    ensures |RemoveOne(rows, id)| == |rows| - if HasId(rows, id) then 1 else 0
  {
    ToMapFacts(rows);
    var i := Find(rows, id);
    if i < |rows| {
      RemoveAtIsErase(rows, i);
    } else {
      assert id !in ToMap(rows);
    }
  }

  /** Swap-removal of a list of ids erases exactly those ids. */
  lemma {:induction false} RemoveAllIsErase(rows: seq<Row>, ids: seq<int>)
    requires UniqueIds(rows)
    ensures UniqueIds(RemoveAll(rows, ids))
    ensures ToMap(RemoveAll(rows, ids)) == ToMap(rows) - set id | id in ids
    ensures |RemoveAll(rows, ids)| <= |rows|
  {
    hide ToMap, RemoveOne, UniqueIds, HasId;
    if ids == [] {
      assert ToMap(rows) - (set id | id in ids) == ToMap(rows);
    } else {
      var front, id := ids[..|ids| - 1], ids[|ids| - 1];
      RemoveAllIsErase(rows, front);
      RemoveOneIsErase(RemoveAll(rows, front), id);
      assert ids == front + [id];
      EraseStep(ToMap(rows), front, id);
    }
  }

  lemma EraseStep(m: map<int, Vector>, ids: seq<int>, id: int)
    ensures (m - set x | x in ids) - {id} == m - set x | x in ids + [id]
  {
    assert (set x | x in ids + [id]) == (set x | x in ids) + {id};
  }

  /** Removing what is absent changes nothing, and a removed id can be added again with any vector. */
  lemma RemoveThenAdd(rows: seq<Row>, id: int, v: Vector)
    requires UniqueIds(rows)
    ensures ToMap(AddOne(RemoveOne(rows, id), Row(id, v))) == ToMap(rows)[id := v]
  {
    hide ToMap, RemoveOne, AddOne, UniqueIds, HasId;
    var m := ToMap(rows);
    RemoveOneIsErase(rows, id);
    AddOneKeeps(RemoveOne(rows, id), Row(id, v));
    assert (m - {id})[id := v] == m[id := v];
  }

  // ---------- searching ----------

  /** The scores of the rows an id test keeps, in storage order. */
  function Hits(rows: seq<Row>, keep: Row -> bool, d: Vector -> real): seq<Result> {
    if rows == [] then []
    else
      var rest := Hits(rows[..|rows| - 1], keep, d);
      var r := rows[|rows| - 1];
      if keep(r) then rest + [Result(r.id, d(r.vector))] else rest
  }

  lemma HitsStep(rows: seq<Row>, i: nat, keep: Row -> bool, d: Vector -> real)
    requires i < |rows|
    ensures Hits(rows[..i + 1], keep, d) ==
            if keep(rows[i]) then Hits(rows[..i], keep, d) + [Result(rows[i].id, d(rows[i].vector))]
            else Hits(rows[..i], keep, d)
  {
    assert rows[..i + 1][..i] == rows[..i];
  }

  /** One hit per kept entry of the map. */
  function Expected(m: map<int, Vector>, keep: Row -> bool, d: Vector -> real, r: Result): nat {
    if r.id in m && keep(Row(r.id, m[r.id])) && r.distance == d(m[r.id]) then 1 else 0
  }

  lemma {:induction false} HitsContents(rows: seq<Row>, keep: Row -> bool, d: Vector -> real, r: Result)
    requires UniqueIds(rows)
    ensures multiset(Hits(rows, keep, d))[r] == Expected(ToMap(rows), keep, d, r)
  {
    if rows != [] {
      var front, x := rows[..|rows| - 1], rows[|rows| - 1];
      HitsContents(front, keep, d, r);
      ToMapFacts(front);
      assert !HasId(front, x.id);
      assert x == Row(x.id, x.vector);
    }
  }

  /** The ordered hits depend only on the map, not on how the rows came to be arranged. */
  lemma HitsDependOnMap(a: seq<Row>, b: seq<Row>, keep: Row -> bool, d: Vector -> real)
    requires UniqueIds(a) && UniqueIds(b) && ToMap(a) == ToMap(b)
    ensures Sort(Hits(a, keep, d)) == Sort(Hits(b, keep, d))
  {
    forall r
      ensures multiset(Hits(a, keep, d))[r] == multiset(Hits(b, keep, d))[r]
    {
      HitsContents(a, keep, d, r);
      HitsContents(b, keep, d, r);
    }
    assert multiset(Hits(a, keep, d)) == multiset(Hits(b, keep, d));
    SortPermutation(Hits(a, keep, d), Hits(b, keep, d));
  }

  /** An id is among the ordered hits exactly when the map holds it and its row is kept. */
  lemma HitsAreKept(rows: seq<Row>, keep: Row -> bool, d: Vector -> real, r: Result)
    requires UniqueIds(rows)
    ensures r in Sort(Hits(rows, keep, d)) <==> Expected(ToMap(rows), keep, d, r) == 1
  {
    SortMember(Hits(rows, keep, d), r);
    HitsContents(rows, keep, d, r);
    assert r in Hits(rows, keep, d) <==> r in multiset(Hits(rows, keep, d));
  }
}
