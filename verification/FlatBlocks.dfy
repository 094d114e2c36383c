/** Rows stored as an id vector beside one block of coordinates. */
module FlatBlocks {
  import opened Vectors
  import opened FlatRows

  function Resize<T>(s: seq<T>, n: nat, zero: T): (r: seq<T>)
    ensures |r| == n
    ensures forall i :: 0 <= i < n ==> r[i] == if i < |s| then s[i] else zero
  {
    if n <= |s| then s[..n] else s + seq(n - |s|, _ => zero)
  }

  /** A block copied over part of a buffer. */
  function Copy(s: seq<Float32>, at: nat, block: seq<Float32>): (r: seq<Float32>)
    requires at + |block| <= |s|
    ensures |r| == |s|
  {
    s[..at] + block + s[at + |block|..]
  }

  /** The coordinates n rows take: their product, built by addition. */
  function Cells(dim: nat, n: nat): nat {
    if n == 0 then 0 else Cells(dim, n - 1) + dim
  }

  lemma {:induction false} CellsIsProduct(dim: nat, n: nat)
    ensures Cells(dim, n) == n * dim
  {
    if n > 0 {
      CellsIsProduct(dim, n - 1);
      assert n * dim == (n - 1) * dim + dim;
    }
  }

  lemma {:induction false} CellsMonotone(dim: nat, a: nat, b: nat)
    requires a <= b
    ensures Cells(dim, a) <= Cells(dim, b)
  {
    if a < b {
      CellsMonotone(dim, a, b - 1);
    }
  }

  /** Row i lies inside storage for n rows. */
  lemma Slot(dim: nat, i: nat, n: nat)
    requires i < n
    ensures Cells(dim, i) + dim == Cells(dim, i + 1) <= Cells(dim, n)
  {
    CellsMonotone(dim, i + 1, n);
  }

  function Block(data: seq<Float32>, dim: nat, i: nat): Vector
    requires Cells(dim, i) + dim <= |data|
  {
    data[Cells(dim, i)..Cells(dim, i) + dim]
  }

  predicate Holds(ids: seq<int>, data: seq<Float32>, dim: nat, n: nat) {
    n <= |ids| && Cells(dim, n) <= |data|
  }

  function RowAt(ids: seq<int>, data: seq<Float32>, dim: nat, i: nat): Row
    requires i < |ids| && Cells(dim, i + 1) <= |data|
  {
    Slot(dim, i, i + 1);
    Row(ids[i], Block(data, dim, i))
  }

  /** The first n rows. */
  function RowsOf(ids: seq<int>, data: seq<Float32>, dim: nat, n: nat): (rows: seq<Row>)
    requires Holds(ids, data, dim, n)
    ensures |rows| == n
  {
    if n == 0 then []
    else
      Slot(dim, n - 1, n);
      RowsOf(ids, data, dim, n - 1) + [RowAt(ids, data, dim, n - 1)]
  }

  lemma {:induction false} RowsOfAt(ids: seq<int>, data: seq<Float32>, dim: nat, n: nat, i: nat)
    requires Holds(ids, data, dim, n) && i < n
    ensures Cells(dim, i + 1) <= |data| && RowsOf(ids, data, dim, n)[i] == RowAt(ids, data, dim, i)
  {
    Slot(dim, n - 1, n);
    if i < n - 1 {
      RowsOfAt(ids, data, dim, n - 1, i);
    }
  }

  /** Storage that agrees on the first n rows agrees on the first ones among them. */
  lemma ShorterAgreement<T>(s: seq<T>, t: seq<T>, m: nat, n: nat)
    requires m <= n <= |s| && n <= |t| && s[..n] == t[..n]
    ensures s[..m] == t[..m] && s[m..n] == t[m..n]
  {
    assert s[..m] == s[..n][..m] && t[..m] == t[..n][..m];
    assert s[m..n] == s[..n][m..n] && t[m..n] == t[..n][m..n];
  }

  lemma SameRow(ids: seq<int>, data: seq<Float32>, other: seq<int>, more: seq<Float32>, dim: nat, i: nat)
    requires i < |ids| && Cells(dim, i + 1) <= |data| && i < |other| && Cells(dim, i + 1) <= |more|
    requires ids[i..i + 1] == other[i..i + 1]
    requires data[Cells(dim, i)..Cells(dim, i + 1)] == more[Cells(dim, i)..Cells(dim, i + 1)]
    ensures RowAt(ids, data, dim, i) == RowAt(other, more, dim, i)
  {
    assert ids[i] == ids[i..i + 1][0] && other[i] == other[i..i + 1][0];
  }

  /** Storage that agrees row by row holds the same rows. */
  lemma {:induction false} SameRows(
      ids: seq<int>, data: seq<Float32>, other: seq<int>, more: seq<Float32>, dim: nat, n: nat)
    requires Holds(ids, data, dim, n) && Holds(other, more, dim, n)
    requires ids[..n] == other[..n] && data[..Cells(dim, n)] == more[..Cells(dim, n)]
    ensures RowsOf(ids, data, dim, n) == RowsOf(other, more, dim, n)
  {
    hide Cells, RowAt;
    if n > 0 {
      Slot(dim, n - 1, n);
      ShorterAgreement(ids, other, n - 1, n);
      ShorterAgreement(data, more, Cells(dim, n - 1), Cells(dim, n));
      SameRows(ids, data, other, more, dim, n - 1);
      SameRow(ids, data, other, more, dim, n - 1);
    }
  }

  lemma ResizePrefix<T>(s: seq<T>, size: nat, n: nat, zero: T)
    requires n <= |s| && n <= size
    ensures Resize(s, size, zero)[..n] == s[..n]
  {
  }

  /** Growing or trimming the storage beyond n rows keeps them. */
  lemma ResizeKeepsRows(ids: seq<int>, data: seq<Float32>, dim: nat, size: nat, n: nat)
    requires Holds(ids, data, dim, n) && n <= size
    ensures Cells(dim, n) <= Cells(dim, size)
    ensures RowsOf(Resize(ids, size, 0), Resize(data, Cells(dim, size), 0), dim, n) == RowsOf(ids, data, dim, n)
  {
    CellsMonotone(dim, n, size);
    ResizePrefix(ids, size, n, 0);
    ResizePrefix(data, Cells(dim, size), Cells(dim, n), 0);
    SameRows(ids, data, Resize(ids, size, 0), Resize(data, Cells(dim, size), 0), dim, n);
  }

  /** Writing slot n appends a row. */
  lemma WriteAppends(ids: seq<int>, data: seq<Float32>, dim: nat, n: nat, r: Row)
    requires Holds(ids, data, dim, n + 1) && |r.vector| == dim
    ensures Cells(dim, n) + dim <= |data|
    ensures Holds(ids, data, dim, n)
    ensures RowsOf(ids[n := r.id], Copy(data, Cells(dim, n), r.vector), dim, n + 1) == RowsOf(ids, data, dim, n) + [r]
  {
    Slot(dim, n, n + 1);
    var after := Copy(data, Cells(dim, n), r.vector);
    SameRows(ids, data, ids[n := r.id], after, dim, n);
    assert Block(after, dim, n) == r.vector;
  }

  lemma CopyBlock(data: seq<Float32>, dim: nat, j: nat, v: Vector, i: nat)
    requires |v| == dim && Cells(dim, i + 1) <= |data| && Cells(dim, j + 1) <= |data|
    ensures Cells(dim, j) + dim <= |data| && Cells(dim, i) + dim <= |data|
    ensures Block(Copy(data, Cells(dim, j), v), dim, i) == if i == j then v else Block(data, dim, i)
  {
    Slot(dim, i, i + 1);
    Slot(dim, j, j + 1);
    CopyKeeps(data, Cells(dim, j), v, Cells(dim, i), Cells(dim, i) + dim);
    if i < j {
      CellsMonotone(dim, i + 1, j);
    } else if j < i {
      CellsMonotone(dim, j + 1, i);
    }
  }

  /** A copied block is where it was put, and what lies before or behind it stays. */
  lemma CopyKeeps(s: seq<Float32>, at: nat, block: seq<Float32>, from: nat, to: nat)
    requires at + |block| <= |s| && from <= to <= |s|
    ensures Copy(s, at, block)[at..at + |block|] == block
    ensures to <= at || at + |block| <= from ==> Copy(s, at, block)[from..to] == s[from..to]
  {
    var c := Copy(s, at, block);
    forall k | 0 <= k < |s|
      ensures c[k] == if at <= k < at + |block| then block[k - at] else s[k]
    {
    }
  }

  /** Copying the last row over slot i is the swap-removal of row i. */
  lemma MoveRemoves(ids: seq<int>, data: seq<Float32>, dim: nat, n: nat, i: nat)
    requires Holds(ids, data, dim, n + 1) && i <= n
    ensures Cells(dim, n) + dim <= |data| && Cells(dim, i) + dim <= |data|
    ensures Holds(ids, data, dim, n)
    ensures RowsOf(ids[i := ids[n]], Copy(data, Cells(dim, i), Block(data, dim, n)), dim, n) ==
            RemoveAt(RowsOf(ids, data, dim, n + 1), i)
  {
    Slot(dim, n, n + 1);
    Slot(dim, i, n + 1);
    var rows := RowsOf(ids, data, dim, n + 1);
    var moved, after := ids[i := ids[n]], Copy(data, Cells(dim, i), Block(data, dim, n));
    var got := RowsOf(moved, after, dim, n);
    RowsOfAt(ids, data, dim, n + 1, n);
    forall j | 0 <= j < n
      ensures got[j] == RemoveAt(rows, i)[j]
    {
      Slot(dim, j, n);
      RowsOfAt(moved, after, dim, n, j);
      RowsOfAt(ids, data, dim, n + 1, j);
      CopyBlock(data, dim, i, Block(data, dim, n), j);
    }
  }

  /** Finding an id in the id vector is finding its row. */
  lemma IdsAreRowIds(ids: seq<int>, data: seq<Float32>, dim: nat, n: nat, id: int)
    requires Holds(ids, data, dim, n)
    ensures id in ids[..n] <==> HasId(RowsOf(ids, data, dim, n), id)
    ensures forall i :: 0 <= i < n ==> RowsOf(ids, data, dim, n)[i].id == ids[i]
  {
    var rows := RowsOf(ids, data, dim, n);
    forall i | 0 <= i < n
      ensures rows[i].id == ids[i]
    {
      RowsOfAt(ids, data, dim, n, i);
    }
    if HasId(rows, id) {
      var i :| 0 <= i < n && rows[i].id == id;
      assert ids[..n][i] == id;
    }
  }

  /** Removal as the storage performs it: move the last row, then trim. */
  lemma TrimmedRemoval(ids: seq<int>, data: seq<Float32>, dim: nat, n: nat, i: nat)
    requires |ids| == n + 1 && |data| == Cells(dim, n + 1) && i <= n
    ensures Cells(dim, n) + dim <= |data| && Cells(dim, i) + dim <= |data|
    ensures var moved, after := ids[i := ids[n]], Copy(data, Cells(dim, i), Block(data, dim, n));
            RowsOf(Resize(moved, n, 0), Resize(after, Cells(dim, n), 0), dim, n) ==
            RemoveAt(RowsOf(ids, data, dim, n + 1), i)
  {
    MoveRemoves(ids, data, dim, n, i);
    ResizeKeepsRows(ids[i := ids[n]], Copy(data, Cells(dim, i), Block(data, dim, n)), dim, n, n);
  }

  /** One more given row is one more `AddOne`. */
  lemma AddStep(
      newIds: seq<int>, vectors: seq<Float32>, dim: nat, before: seq<Row>, given: seq<Row>, i: nat)
    requires Holds(newIds, vectors, dim, |newIds|) && i < |newIds|
    requires given == RowsOf(newIds, vectors, dim, |newIds|)
    ensures Cells(dim, i) + dim <= |vectors|
    ensures AddAll(before, given[..i + 1]) ==
            AddOne(AddAll(before, given[..i]), Row(newIds[i], Block(vectors, dim, i)))
  {
    Slot(dim, i, |newIds|);
    RowsOfAt(newIds, vectors, dim, |newIds|, i);
    assert given[..i + 1][..i] == given[..i];
  }

  // ---------- storage and rows ----------

  /** The three fields of an index that change. */
  datatype Store = Store(ids: seq<int>, data: seq<Float32>, count: int)

  /** Ids and coordinate blocks line up. */
  predicate LinedUp(s: Store, dim: nat) {
    s.count >= 0 && |s.ids| == s.count && |s.data| == Cells(dim, s.count)
  }

  function RowsIn(s: Store, dim: nat): seq<Row>
    requires LinedUp(s, dim)
  {
    RowsOf(s.ids, s.data, dim, s.count)
  }

  function RowIds(rows: seq<Row>): (ids: seq<int>)
    ensures |ids| == |rows| && forall i :: 0 <= i < |rows| ==> ids[i] == rows[i].id
  {
    seq(|rows|, i requires 0 <= i < |rows| => rows[i].id)
  }

  function Coordinates(rows: seq<Row>): seq<Float32> {
    if rows == [] then [] else Coordinates(rows[..|rows| - 1]) + rows[|rows| - 1].vector
  }

  function StoreOf(rows: seq<Row>): Store {
    Store(RowIds(rows), Coordinates(rows), |rows|)
  }

  lemma SpellStep(rows: seq<Row>, r: Row)
    ensures RowIds(rows + [r]) == RowIds(rows) + [r.id]
    ensures Coordinates(rows + [r]) == Coordinates(rows) + r.vector
  {
    assert (rows + [r])[..|rows|] == rows;
  }

  lemma SpellNothing()
    ensures RowIds([]) == [] && Coordinates([]) == []
  {
  }

  /** The first n slots of the storage spell out its first n rows. */
  lemma {:induction false} RowsSpellOut(ids: seq<int>, data: seq<Float32>, dim: nat, n: nat)
    requires Holds(ids, data, dim, n)
    ensures ids[..n] == RowIds(RowsOf(ids, data, dim, n))
    ensures data[..Cells(dim, n)] == Coordinates(RowsOf(ids, data, dim, n))
  {
    hide RowIds, Coordinates, Cells;
    if n == 0 {
      NoRows(ids, data, dim);
      SpellNothing();
    } else {
      Slot(dim, n - 1, n);
      RowsSpellOut(ids, data, dim, n - 1);
      SpellStep(RowsOf(ids, data, dim, n - 1), RowAt(ids, data, dim, n - 1));
      assert ids[..n] == ids[..n - 1] + [ids[n - 1]];
      assert data[..Cells(dim, n)] == data[..Cells(dim, n - 1)] + Block(data, dim, n - 1);
    }
  }

  /** Storage that lines up is determined by its rows. */
  lemma RowsDetermine(s: Store, dim: nat)
    requires LinedUp(s, dim)
    ensures StoreOf(RowsIn(s, dim)) == s
  {
    RowsSpellOut(s.ids, s.data, dim, s.count);
    assert s.ids[..s.count] == s.ids && s.data[..Cells(dim, s.count)] == s.data;
  }

  // ---------- appending ----------

  /** The buffers agree from slot n on. */
  predicate SameBeyond(
      ids: seq<int>, data: seq<Float32>, oldIds: seq<int>, oldData: seq<Float32>, dim: nat, n: nat)
  {
    && n <= |ids| == |oldIds| && Cells(dim, n) <= |data| == |oldData|
    && ids[n..] == oldIds[n..] && data[Cells(dim, n)..] == oldData[Cells(dim, n)..]
  }

  lemma BeyondChain(
      ids: seq<int>, data: seq<Float32>, midIds: seq<int>, midData: seq<Float32>, oldIds: seq<int>,
      oldData: seq<Float32>, dim: nat, n: nat, m: nat)
    requires SameBeyond(midIds, midData, oldIds, oldData, dim, n) && n <= m
    requires SameBeyond(ids, data, midIds, midData, dim, m)
    ensures SameBeyond(ids, data, oldIds, oldData, dim, m)
  {
    CellsMonotone(dim, n, m);
    var from, to := Cells(dim, n), Cells(dim, m);
    assert midIds[m..] == midIds[n..][m - n..] && oldIds[m..] == oldIds[n..][m - n..];
    assert midData[to..] == midData[from..][to - from..] && oldData[to..] == oldData[from..][to - from..];
  }

  lemma WriteBeyond(ids: seq<int>, data: seq<Float32>, dim: nat, n: nat, r: Row)
    requires Holds(ids, data, dim, n + 1) && |r.vector| == dim
    ensures Cells(dim, n) + dim <= |data|
    ensures SameBeyond(ids[n := r.id], Copy(data, Cells(dim, n), r.vector), ids, data, dim, n + 1)
  {
  }

  /** A row whose id is new is written to slot `size`; otherwise nothing changes. */
  method AppendOne(oldIds: seq<int>, oldData: seq<Float32>, dim: nat, size: nat, id: int, block: Vector)
    returns (ids: seq<int>, data: seq<Float32>, added: nat)
    requires Holds(oldIds, oldData, dim, size + 1) && Holds(oldIds, oldData, dim, size) && |block| == dim
    ensures added <= 1 && Holds(ids, data, dim, size + added)
    ensures SameBeyond(ids, data, oldIds, oldData, dim, size + added)
    ensures RowsOf(ids, data, dim, size + added) == AddOne(RowsOf(oldIds, oldData, dim, size), Row(id, block))
  {
    IdsAreRowIds(oldIds, oldData, dim, size, id);
    if id in oldIds[..size] {
      return oldIds, oldData, 0;
    }
    WriteAppends(oldIds, oldData, dim, size, Row(id, block));
    WriteBeyond(oldIds, oldData, dim, size, Row(id, block));
    return oldIds[size := id], Copy(oldData, Cells(dim, size), block), 1;
  }

  /** The first `size` slots hold these rows. */
  ghost predicate Appended(ids: seq<int>, data: seq<Float32>, dim: nat, size: nat, rows: seq<Row>) {
    Holds(ids, data, dim, size) && RowsOf(ids, data, dim, size) == rows
  }

  /** Handle given row i. */
  method AppendNext(
      oldIds: seq<int>, oldData: seq<Float32>, dim: nat, size: nat, newIds: seq<int>, vectors: seq<Float32>,
      ghost before: seq<Row>, ghost given: seq<Row>, i: nat)
    returns (ids: seq<int>, data: seq<Float32>, added: nat)
    requires |oldData| == Cells(dim, |oldIds|) && size < |oldIds|
    requires Holds(newIds, vectors, dim, |newIds|) && i < |newIds|
    requires given == RowsOf(newIds, vectors, dim, |newIds|)
    requires Appended(oldIds, oldData, dim, size, AddAll(before, given[..i]))
    ensures added <= 1 && SameBeyond(ids, data, oldIds, oldData, dim, size + added)
    ensures Appended(ids, data, dim, size + added, AddAll(before, given[..i + 1]))
  {
    Slot(dim, size, |oldIds|);
    AddStep(newIds, vectors, dim, before, given, i);
    ids, data, added := AppendOne(oldIds, oldData, dim, size, newIds[i], Block(vectors, dim, i));
  }

  lemma AddNothing(rows: seq<Row>)
    ensures AddAll(rows, []) == rows
  {
  }

  /** Rows whose id is new go to the next slots; the others are counted as failed. */
  method AppendRows(
      oldIds: seq<int>, oldData: seq<Float32>, dim: nat, start: nat, newIds: seq<int>, vectors: seq<Float32>,
      ghost before: seq<Row>, ghost given: seq<Row>)
    returns (ids: seq<int>, data: seq<Float32>, failed: seq<int>, added: nat)
    requires |oldIds| == start + |newIds| && |oldData| == Cells(dim, |oldIds|)
    requires Cells(dim, start) <= |oldData| && before == RowsOf(oldIds, oldData, dim, start)
    requires Holds(newIds, vectors, dim, |newIds|) && given == RowsOf(newIds, vectors, dim, |newIds|)
    ensures added <= |newIds| && |failed| == |newIds| - added
    ensures SameBeyond(ids, data, oldIds, oldData, dim, start + added)
    ensures Appended(ids, data, dim, start + added, AddAll(before, given))
  {
    hide AddAll, RowsOf, Cells;
    ids, data, failed, added := oldIds, oldData, [], 0;
    assert given[..0] == [];
    AddNothing(before);
    for i := 0 to |newIds|
      invariant added <= i && |failed| == i - added
      invariant SameBeyond(ids, data, oldIds, oldData, dim, start + added)
      invariant Appended(ids, data, dim, start + added, AddAll(before, given[..i]))
    {
      ghost var midIds, midData := ids, data;
      var grown;
      ids, data, grown := AppendNext(ids, data, dim, start + added, newIds, vectors, before, given, i);
      BeyondChain(
        ids, data, midIds, midData, oldIds, oldData, dim, start + added, start + added + grown);
      if grown == 0 {
        failed := failed + [ids[i]];
      }
      added := added + grown;
    }
    assert given[..|newIds|] == given;
  }

  /** Reserve room for the new rows behind the n stored ones, append, and trim. */
  method Grow(
      oldIds: seq<int>, oldData: seq<Float32>, dim: nat, n: nat, newIds: seq<int>, vectors: seq<Float32>,
      ghost before: seq<Row>, ghost given: seq<Row>)
    returns (ids: seq<int>, data: seq<Float32>, failed: seq<int>, size: nat)
    requires Holds(oldIds, oldData, dim, n) && before == RowsOf(oldIds, oldData, dim, n)
    requires Holds(newIds, vectors, dim, |newIds|) && given == RowsOf(newIds, vectors, dim, |newIds|)
    ensures |ids| == size && |data| == Cells(dim, size) && n <= size && |failed| == |newIds| - (size - n)
    ensures RowsOf(ids, data, dim, size) == AddAll(before, given)
  {
    var room := n + |newIds|;
    ResizeKeepsRows(oldIds, oldData, dim, room, n);
    ids, data := Resize(oldIds, room, 0), Resize(oldData, Cells(dim, room), 0);
    var added;
    ids, data, failed, added := AppendRows(ids, data, dim, n, newIds, vectors, before, given);
    size := n + added;
    ResizeKeepsRows(ids, data, dim, size, size);
    ids, data := Resize(ids, size, 0), Resize(data, Cells(dim, size), 0);
  }

  function Overwrite<T>(buffer: seq<T>, block: seq<T>): seq<T> {
    if |block| <= |buffer| then block + buffer[|block|..] else block
  }

  /**
   * What building leaves: the buffers resized for the offered rows, the new rows over their beginning, and then
   * resized again for the old count plus the new rows.
   */
  function Rebuilt(s: Store, dim: nat, offered: nat, rows: seq<Row>): Store
    requires s.count >= 0
  {
    var size := s.count + |rows|;
    var ids := Overwrite(Resize(s.ids, offered, 0), RowIds(rows));
    var data := Overwrite(Resize(s.data, Cells(dim, offered), 0), Coordinates(rows));
    Store(Resize(ids, size, 0), Resize(data, Cells(dim, size), 0), size)
  }

  lemma WrittenIsOverwrite<T>(buffer: seq<T>, before: seq<T>, block: seq<T>)
    requires |block| <= |buffer| == |before|
    requires buffer[..|block|] == block && buffer[|block|..] == before[|block|..]
    ensures buffer == Overwrite(before, block)
  {
    assert buffer == buffer[..|block|] + buffer[|block|..];
  }

  /** From an empty index building leaves exactly the new rows. */
  lemma RebuiltFromEmpty(s: Store, dim: nat, offered: nat, rows: seq<Row>)
    requires s.count == 0 && |Coordinates(rows)| == Cells(dim, |rows|)
    ensures Rebuilt(s, dim, offered, rows) == StoreOf(rows)
  {
    assert Resize(Overwrite(Resize(s.ids, offered, 0), RowIds(rows)), |rows|, 0) == RowIds(rows);
    var data := Overwrite(Resize(s.data, Cells(dim, offered), 0), Coordinates(rows));
    assert Resize(data, Cells(dim, |rows|), 0) == Coordinates(rows);
  }

  lemma NoRows(ids: seq<int>, data: seq<Float32>, dim: nat)
    ensures Cells(dim, 0) == 0 && RowsOf(ids, data, dim, 0) == []
  {
  }

  /** Start again from slot 0 while still counting the n rows already there. */
  method Refill(
      oldIds: seq<int>, oldData: seq<Float32>, dim: nat, n: nat, newIds: seq<int>, vectors: seq<Float32>,
      ghost given: seq<Row>)
    returns (ids: seq<int>, data: seq<Float32>, failed: seq<int>, size: nat)
    requires Holds(newIds, vectors, dim, |newIds|) && given == RowsOf(newIds, vectors, dim, |newIds|)
    ensures |failed| == |newIds| - (size - n)
    ensures Store(ids, data, size) == Rebuilt(Store(oldIds, oldData, n), dim, |newIds|, AddAll([], given))
  {
    hide RowsOf, AddAll, Coordinates, RowIds, Cells;
    ids, data := Resize(oldIds, |newIds|, 0), Resize(oldData, Cells(dim, |newIds|), 0);
    ghost var freshIds, freshData := ids, data;
    var added;
    NoRows(ids, data, dim);
    ids, data, failed, added := AppendRows(ids, data, dim, 0, newIds, vectors, [], given);
    RowsSpellOut(ids, data, dim, added);
    WrittenIsOverwrite(ids, freshIds, RowIds(AddAll([], given)));
    WrittenIsOverwrite(data, freshData, Coordinates(AddAll([], given)));
    size := n + added;
    ids, data := Resize(ids, size, 0), Resize(data, Cells(dim, size), 0);
  }

  /** The position of an id, found by a scan; it is the first row with that id. */
  method Locate(ids: seq<int>, data: seq<Float32>, dim: nat, id: int) returns (index: nat)
    requires Holds(ids, data, dim, |ids|)
    ensures index == Find(RowsOf(ids, data, dim, |ids|), id)
  {
    ghost var rows := RowsOf(ids, data, dim, |ids|);
    IdsAreRowIds(ids, data, dim, |ids|, id);
    index := 0;
    while index < |ids| && ids[index] != id
      invariant index <= |ids|
      invariant forall j :: 0 <= j < index ==> rows[j].id != id
    {
      index := index + 1;
    }
  }

  /** The last row moves over row `index`, and the storage shrinks by one row. */
  method Shrink(oldIds: seq<int>, oldData: seq<Float32>, dim: nat, index: nat)
    returns (ids: seq<int>, data: seq<Float32>)
    requires index < |oldIds| && |oldData| == Cells(dim, |oldIds|)
    ensures |ids| == |oldIds| - 1 && |data| == Cells(dim, |ids|)
    ensures RowsOf(ids, data, dim, |ids|) == RemoveAt(RowsOf(oldIds, oldData, dim, |oldIds|), index)
  {
    var last := |oldIds| - 1;
    TrimmedRemoval(oldIds, oldData, dim, last, index);
    ids := oldIds[index := oldIds[last]];
    data := Copy(oldData, Cells(dim, index), Block(oldData, dim, last));
    ids, data := Resize(ids, last, 0), Resize(data, Cells(dim, last), 0);
  }
}
