/** Building, adding, removing and reloading as functions on the storage, and what runs of them mean. */
module FlatRuns {
  import opened Outcomes
  import opened Codec
  import opened Vectors
  import opened FlatRows
  import opened FlatBlocks
  import opened FlatBinary
  import Order

  /** Ids with their coordinates, dim per row. */
  datatype Dataset = Dataset(dim: int, ids: seq<int>, vectors: seq<Float32>)

  /** The coordinates of every row can be read with the given stride. */
  predicate Readable(base: Dataset, dim: nat) {
    Holds(base.ids, base.vectors, dim, |base.ids|)
  }

  function Given(base: Dataset, dim: nat): seq<Row>
    requires Readable(base, dim)
  {
    RowsOf(base.ids, base.vectors, dim, |base.ids|)
  }

  /** Storage that lines up and repeats no id. */
  ghost predicate Sound(s: Store, dim: nat) {
    LinedUp(s, dim) && UniqueIds(RowsIn(s, dim))
  }

  /** The finite map the storage stands for. */
  function MapOf(s: Store, dim: nat): map<int, Vector>
    requires LinedUp(s, dim)
  {
    ToMap(RowsIn(s, dim))
  }

  lemma StoredNext(s: Store, dim: nat, r: Row)
    requires LinedUp(s, dim) && |r.vector| == dim
    ensures var t := Store(s.ids + [r.id], s.data + r.vector, s.count + 1);
            LinedUp(t, dim) && RowsIn(t, dim) == RowsIn(s, dim) + [r]
  {
    var n := s.count;
    Slot(dim, n, n + 1);
    var ids, data := s.ids + [r.id], s.data + r.vector;
    assert ids[..n] == s.ids[..n] && data[..Cells(dim, n)] == s.data[..Cells(dim, n)];
    SameRows(s.ids, s.data, ids, data, dim, n);
    assert Block(data, dim, n) == r.vector;
  }

  /** Rows of the right width, stored, are read back as themselves. */
  lemma {:induction false} StoredRows(rows: seq<Row>, dim: nat)
    requires forall i :: 0 <= i < |rows| ==> |rows[i].vector| == dim
    ensures LinedUp(StoreOf(rows), dim) && RowsIn(StoreOf(rows), dim) == rows
  {
    if rows != [] {
      var n := |rows| - 1;
      StoredRows(rows[..n], dim);
      assert rows == rows[..n] + [rows[n]];
      SpellStep(rows[..n], rows[n]);
      StoredNext(StoreOf(rows[..n]), dim, rows[n]);
    }
  }

  /** Every stored row has the width of the index. */
  lemma RowsAreWide(ids: seq<int>, data: seq<Float32>, dim: nat, n: nat)
    requires Holds(ids, data, dim, n)
    ensures forall i :: 0 <= i < n ==> |RowsOf(ids, data, dim, n)[i].vector| == dim
  {
    forall i | 0 <= i < n
      ensures |RowsOf(ids, data, dim, n)[i].vector| == dim
    {
      RowsOfAt(ids, data, dim, n, i);
    }
  }

  // ---------- building ----------

  /** The test that is meant to keep a non-empty index from being built again looks at the coordinates. */
  predicate BuildRefuses(s: Store, dim: nat, base: Dataset) {
    s.data != [] || base.dim != dim
  }

  /** A dataset whose rows cannot be read is ruled out by the callers; here it changes nothing. */
  function BuildStore(s: Store, dim: nat, base: Dataset): Store {
    if BuildRefuses(s, dim, base) || s.count < 0 || !Readable(base, dim) then s
    else Rebuilt(s, dim, |base.ids|, AddAll([], Given(base, dim)))
  }

  lemma {:induction false} AddAllIsWide(rows: seq<Row>, more: seq<Row>, dim: nat)
    requires forall i :: 0 <= i < |rows| ==> |rows[i].vector| == dim
    requires forall i :: 0 <= i < |more| ==> |more[i].vector| == dim
    ensures forall i :: 0 <= i < |AddAll(rows, more)| ==> |AddAll(rows, more)[i].vector| == dim
  {
    if more != [] {
      AddAllIsWide(rows, more[..|more| - 1], dim);
    }
  }

  /** An empty index is built to hold the first row of every id. */
  lemma BuildOnEmpty(s: Store, dim: nat, base: Dataset)
    requires LinedUp(s, dim) && s.count == 0 && base.dim == dim && Readable(base, dim)
    ensures !BuildRefuses(s, dim, base) && Sound(BuildStore(s, dim, base), dim)
    ensures RowsIn(BuildStore(s, dim, base), dim) == AddAll([], Given(base, dim))
    ensures MapOf(BuildStore(s, dim, base), dim) == FirstWins(Given(base, dim))
  {
    var given := Given(base, dim);
    var rows := AddAll([], given);
    RowsAreWide(base.ids, base.vectors, dim, |base.ids|);
    AddAllIsWide([], given, dim);
    StoredRows(rows, dim);
    AddToNothing(given);
    RebuiltFromEmpty(s, dim, |base.ids|, rows);
  }

  /** With coordinates in every row, no coordinates means no rows. */
  lemma NoDataNoRows(s: Store, dim: nat)
    requires LinedUp(s, dim) && dim > 0
    ensures s.data == [] <==> s.count == 0
  {
    CellsIsProduct(dim, s.count);
    if s.count > 0 {
      ScaleMonotone(dim, 1, s.count);
    }
  }

  lemma {:induction false} NoCells(n: nat)
    ensures Cells(0, n) == 0
  {
    if n > 0 {
      NoCells(n - 1);
    }
  }

  /** What Build is for: the index stays sound, and rows already stored are never built over. */
  ghost predicate BuildsSafely(s: Store, dim: nat, base: Dataset) {
    && Sound(BuildStore(s, dim, base), dim)
    && (s.count > 0 ==> BuildRefuses(s, dim, base))
  }

  /** A call with a matching dimension refuses a non-empty index exactly when rows have coordinates. */
  lemma RefusesNonEmpty(s: Store, dim: nat, base: Dataset)
    requires Sound(s, dim) && s.count > 0 && base.dim == dim
    ensures BuildRefuses(s, dim, base) <==> dim > 0
  {
    if dim > 0 {
      NoDataNoRows(s, dim);
    } else {
      NoCells(s.count);
    }
  }

  lemma BuildIsSafe(s: Store, dim: nat, base: Dataset)
    requires Sound(s, dim) && (dim > 0 || s.count == 0)
    ensures BuildsSafely(s, dim, base)
  {
    if !BuildRefuses(s, dim, base) && Readable(base, dim) {
      if dim > 0 {
        NoDataNoRows(s, dim);
      }
      BuildOnEmpty(s, dim, base);
    }
  }

  /** One stored row without coordinates, and a dataset that builds it once more. */
  lemma PointIsRebuilt()
    ensures var s, base := Store([0], [], 1), Dataset(0, [0], []);
            && Sound(s, 0) && Readable(base, 0) && !BuildRefuses(s, 0, base)
            && BuildStore(s, 0, base) == Store([0, 0], [], 2) && !Sound(BuildStore(s, 0, base), 0)
            && !BuildsSafely(s, 0, base)
  {
    var s, base := Store([0], [], 1), Dataset(0, [0], []);
    NoCells(1);
    NoCells(2);
    assert Given(base, 0) == [Row(0, [])];
    assert [Row(0, [])][..0] == [];
    assert AddAll([], Given(base, 0)) == [Row(0, [])];
    assert BuildStore(s, 0, base) == Store([0, 0], [], 2);
    RowsOfAt([0, 0], [], 0, 2, 0);
    RowsOfAt([0, 0], [], 0, 2, 1);
    assert RowsIn(Store([0, 0], [], 2), 0)[0].id == RowsIn(Store([0, 0], [], 2), 0)[1].id;
  }

  lemma PointIsBuilt()
    ensures Readable(Dataset(0, [0], []), 0)
    ensures BuildStore(Store([], [], 0), 0, Dataset(0, [0], [])) == Store([0], [], 1)
  {
    NoCells(1);
    assert Given(Dataset(0, [0], []), 0) == [Row(0, [])];
    assert [Row(0, [])][..0] == [];
    assert AddAll([], Given(Dataset(0, [0], []), 0)) == [Row(0, [])];
  }

  /** Build keeps every sound index sound and never builds over stored rows, if and only if rows have coordinates. */
  lemma BuildIsSafeExactly(dim: nat)
    ensures (forall s: Store, base: Dataset :: Sound(s, dim) && Readable(base, dim) ==> BuildsSafely(s, dim, base)) <==>
            dim > 0
  {
    hide Sound, Readable, BuildsSafely;
    if dim > 0 {
      forall s: Store, base: Dataset | Sound(s, dim) && Readable(base, dim)
        ensures BuildsSafely(s, dim, base)
      {
        BuildIsSafe(s, dim, base);
      }
    } else {
      PointIsRebuilt();
      var s, base := Store([0], [], 1), Dataset(0, [0], []);
      assert Sound(s, dim) && Readable(base, dim) && !BuildsSafely(s, dim, base);
    }
  }

  // ---------- adding, removing and reloading ----------

  function AddStore(s: Store, dim: nat, base: Dataset): Store {
    if (s.data != [] && base.dim != dim) || !LinedUp(s, dim) || !Readable(base, dim) then s
    else StoreOf(AddAll(RowsIn(s, dim), Given(base, dim)))
  }

  function RemoveStore(s: Store, dim: nat, targets: seq<int>): Store {
    if LinedUp(s, dim) then StoreOf(RemoveAll(RowsIn(s, dim), targets)) else s
  }

  /** What loading leaves: the count is taken over before the header is checked. */
  function LoadStore(o: ByteOrder, s: Store, dim: nat, bs: BinarySet): Store {
    match TakeSizes(o, bs.ids)
    case None => s
    case Some((header, rest)) =>
      var (n, d) := header;
      if d != dim || !SizesAgree(n, dim, bs) then s.(count := n)
      else
        Unpacked(
          o, s, n, TakeAll(LongReader(o), rest, n), TakeAll(WordReader(o, WORD - 1), bs.vectors, Cells(dim, n)))
  }

  /** Blocks of the right size always hold their items; the tests only make the function total. */
  function Unpacked(o: ByteOrder, s: Store, n: int, ids: Read<seq<int>>, data: Read<seq<int>>): Store {
    if ids.Some? && data.Some? && AllWords(data.value.0) then Store(ids.value.0, data.value.0, n) else s.(count := n)
  }

  function ReloadStore(o: ByteOrder, s: Store, dim: nat): Store {
    LoadStore(o, s, dim, Pack(o, s.ids, s.data, dim))
  }

  /** A packed store is what loading its packed form gives, whatever the loading index held before. */
  lemma LoadForgets(o: ByteOrder, s: Store, t: Store, dim: nat)
    requires Lawful(o) && FixedWidth(o) && LinedUp(s, dim)
    requires IsInt64(s.count) && IsInt64(dim) && AllLong(s.ids)
    ensures LoadStore(o, t, dim, Pack(o, s.ids, s.data, dim)) == s
  {
    hide TakeSizes, PackIds, PutAll, TakeAll, SizesAgree, Lawful, FixedWidth;
    PackedHeader(o, s.ids, dim);
    PackedSizes(o, s.ids, s.data, dim);
    BlocksRead(o, s.ids, s.data);
  }

  /** A refused load leaves the storage alone and takes the count over; only the old count keeps it sound. */
  lemma RefusedLoad(o: ByteOrder, s: Store, dim: nat, bs: BinarySet)
    requires Sound(s, dim) && TakeSizes(o, bs.ids).Some?
    requires var (n, d) := TakeSizes(o, bs.ids).value.0; d != dim || !SizesAgree(n, dim, bs)
    ensures var n := TakeSizes(o, bs.ids).value.0.0;
            && LoadStore(o, s, dim, bs) == s.(count := n)
            && (Sound(LoadStore(o, s, dim, bs), dim) <==> n == s.count)
  {
    hide TakeSizes, SizesAgree, Cells, UniqueIds;
    if TakeSizes(o, bs.ids).value.0.0 == s.count {
      assert LoadStore(o, s, dim, bs) == s;
    }
  }

  lemma AcceptedLoad(o: ByteOrder, s: Store, dim: nat, bs: BinarySet)
    requires Lawful(o) && FixedWidth(o) && TakeSizes(o, bs.ids).Some?
    requires var (n, d) := TakeSizes(o, bs.ids).value.0; d == dim && SizesAgree(n, dim, bs)
    ensures LinedUp(LoadStore(o, s, dim, bs), dim)
  {
    hide Lawful, FixedWidth, TakeSizes, AllWords, AllLong, PackIds;
    var n := TakeSizes(o, bs.ids).value.0.0;
    IdsUnpack(o, bs.ids, n, dim);
    DataUnpack(o, bs.vectors, Cells(dim, n));
  }

  lemma UniqueRows(s: Store, dim: nat)
    requires LinedUp(s, dim)
    ensures UniqueIds(RowsIn(s, dim)) <==> Order.Distinct(s.ids)
  {
    forall i | 0 <= i < s.count
      ensures RowsIn(s, dim)[i].id == s.ids[i]
    {
      RowsOfAt(s.ids, s.data, dim, s.count, i);
    }
  }

  lemma BlocksRead(o: ByteOrder, ids: seq<int>, data: seq<int>)
    requires Lawful(o) && AllLong(ids) && AllWords(data)
    ensures TakeAll(LongReader(o), PutAll(LongWriter(o), ids), |ids|) == Some((ids, []))
    ensures TakeAll(WordReader(o, WORD - 1), PutAll(o.put32, data), |data|) == Some((data, []))
  {
    LongsComplete(o, ids, []);
    WordsComplete(o, data, WORD - 1, []);
    assert PutAll(LongWriter(o), ids) + [] == PutAll(LongWriter(o), ids);
    assert PutAll(o.put32, data) + [] == PutAll(o.put32, data);
  }

  // ---------- runs ----------

  datatype Operation = Building(base: Dataset) | Adding(base: Dataset) | Removing(targets: seq<int>) | Reloading

  function Apply(o: ByteOrder, dim: nat, s: Store, op: Operation): Store {
    match op
    case Building(base) => BuildStore(s, dim, base)
    case Adding(base) => AddStore(s, dim, base)
    case Removing(targets) => RemoveStore(s, dim, targets)
    case Reloading => ReloadStore(o, s, dim)
  }

  /** The same operation on the map: building fills an empty map only, and reloading changes nothing. */
  function ApplyToMap(dim: nat, m: map<int, Vector>, op: Operation): map<int, Vector> {
    match op
    case Building(base) =>
      if m != map[] || base.dim != dim || !Readable(base, dim) then m else FirstWins(Given(base, dim))
    case Adding(base) =>
      if (m != map[] && base.dim != dim) || !Readable(base, dim) then m else FirstWins(Given(base, dim)) + m
    case Removing(targets) => m - set id | id in targets
    case Reloading => m
  }

  function Replay(o: ByteOrder, dim: nat, s: Store, ops: seq<Operation>): Store {
    if ops == [] then s else Apply(o, dim, Replay(o, dim, s, ops[..|ops| - 1]), ops[|ops| - 1])
  }

  function ReplayOnMap(dim: nat, m: map<int, Vector>, ops: seq<Operation>): map<int, Vector> {
    if ops == [] then m else ApplyToMap(dim, ReplayOnMap(dim, m, ops[..|ops| - 1]), ops[|ops| - 1])
  }

  // ---------- staying within the program's integers ----------

  function Offers(op: Operation): nat {
    match op
    case Building(base) => |base.ids|
    case Adding(base) => |base.ids|
    case _ => 0
  }

  function OfferedBy(ops: seq<Operation>): nat {
    if ops == [] then 0 else OfferedBy(ops[..|ops| - 1]) + Offers(ops[|ops| - 1])
  }

  predicate LongIds(op: Operation) {
    match op
    case Building(base) => AllLong(base.ids)
    case Adding(base) => AllLong(base.ids)
    case _ => true
  }

  /** What the C++ types alone guarantee of a run: 64-bit ids, and never more rows than an int64 counts. */
  predicate FitsTypes(s: Store, dim: nat, ops: seq<Operation>) {
    && IsInt64(dim) && AllLong(s.ids) && IsInt64(s.count + OfferedBy(ops))
    && forall i :: 0 <= i < |ops| ==> LongIds(ops[i])
  }

  lemma LongKeys(s: Store, dim: nat)
    requires Sound(s, dim)
    ensures AllLong(s.ids) <==> forall id :: id in MapOf(s, dim) ==> IsInt64(id)
  {
    var rows := RowsIn(s, dim);
    ToMapFacts(rows);
    forall i | 0 <= i < s.count
      ensures rows[i].id == s.ids[i] && s.ids[i] in MapOf(s, dim)
    {
      RowsOfAt(s.ids, s.data, dim, s.count, i);
    }
    forall id | id in MapOf(s, dim)
      ensures exists i :: 0 <= i < s.count && s.ids[i] == id
    {
      var i :| 0 <= i < |rows| && rows[i].id == id;
      assert s.ids[i] == id;
    }
  }

  lemma OfferedLong(base: Dataset, dim: nat)
    requires Readable(base, dim) && AllLong(base.ids)
    ensures forall id :: id in FirstWins(Given(base, dim)) ==> IsInt64(id)
  {
    var given := Given(base, dim);
    forall id | id in FirstWins(given)
      ensures IsInt64(id)
    {
      FirstWinsKeys(given, id);
      var i :| 0 <= i < |given| && given[i].id == id;
      RowsOfAt(base.ids, base.vectors, dim, |base.ids|, i);
    }
  }

  lemma EmptyMap(s: Store, dim: nat)
    requires Sound(s, dim)
    ensures MapOf(s, dim) == map[] <==> s.count == 0
  {
    ToMapFacts(RowsIn(s, dim));
    if s.count > 0 {
      assert RowsIn(s, dim)[0].id in MapOf(s, dim);
    }
  }

  lemma RemoveAllIsWide(rows: seq<Row>, targets: seq<int>, dim: nat)
    requires forall i :: 0 <= i < |rows| ==> |rows[i].vector| == dim
    ensures forall i :: 0 <= i < |RemoveAll(rows, targets)| ==> |RemoveAll(rows, targets)[i].vector| == dim
  {
    if targets != [] {
      RemoveAllIsWide(rows, targets[..|targets| - 1], dim);
    }
  }

  // ---------- what every operation keeps ----------

  /** The operation leaves sound storage that stands for the changed map. */
  ghost predicate Refines(s: Store, dim: nat, t: Store, m: map<int, Vector>, room: nat) {
    && Sound(s, dim) && Sound(t, dim) && MapOf(t, dim) == m && t.count <= s.count + room
  }

  lemma BuildRefines(s: Store, dim: nat, base: Dataset)
    requires Sound(s, dim) && dim > 0
    ensures Refines(s, dim, BuildStore(s, dim, base), ApplyToMap(dim, MapOf(s, dim), Building(base)), |base.ids|)
  {
    hide RowsOf, AddAll, FirstWins, ToMap, UniqueIds, Coordinates, RowIds, Cells;
    NoDataNoRows(s, dim);
    EmptyMap(s, dim);
    if !BuildRefuses(s, dim, base) && Readable(base, dim) {
      BuildOnEmpty(s, dim, base);
      AddAllIsMerge([], Given(base, dim));
    }
  }

  lemma AddRefines(s: Store, dim: nat, base: Dataset)
    requires Sound(s, dim) && dim > 0
    ensures Refines(s, dim, AddStore(s, dim, base), ApplyToMap(dim, MapOf(s, dim), Adding(base)), |base.ids|)
  {
    hide RowsOf, AddAll, FirstWins, ToMap, UniqueIds, Coordinates, RowIds, Cells;
    NoDataNoRows(s, dim);
    EmptyMap(s, dim);
    if !(s.data != [] && base.dim != dim) && Readable(base, dim) {
      RowsAreWide(s.ids, s.data, dim, s.count);
      RowsAreWide(base.ids, base.vectors, dim, |base.ids|);
      AddAllIsWide(RowsIn(s, dim), Given(base, dim), dim);
      StoredRows(AddAll(RowsIn(s, dim), Given(base, dim)), dim);
      AddAllIsMerge(RowsIn(s, dim), Given(base, dim));
    }
  }

  lemma RemoveRefines(s: Store, dim: nat, targets: seq<int>)
    requires Sound(s, dim)
    ensures Refines(s, dim, RemoveStore(s, dim, targets), ApplyToMap(dim, MapOf(s, dim), Removing(targets)), 0)
  {
    hide RowsOf, RemoveAll, ToMap, UniqueIds, Coordinates, RowIds, Cells;
    RowsAreWide(s.ids, s.data, dim, s.count);
    RemoveAllIsWide(RowsIn(s, dim), targets, dim);
    StoredRows(RemoveAll(RowsIn(s, dim), targets), dim);
    RemoveAllIsErase(RowsIn(s, dim), targets);
  }

  lemma SoundLinesUp(s: Store, dim: nat)
    requires Sound(s, dim)
    ensures LinedUp(s, dim)
  {
  }

  lemma ReloadRefines(o: ByteOrder, s: Store, dim: nat)
    requires Lawful(o) && FixedWidth(o) && Sound(s, dim)
    requires IsInt64(dim) && IsInt64(s.count) && AllLong(s.ids)
    ensures Refines(s, dim, ReloadStore(o, s, dim), MapOf(s, dim), 0)
  {
    hide Lawful, FixedWidth, LoadStore, MapOf;
    LoadForgets(o, s, s, dim);
  }

  lemma ApplyRefinesMap(o: ByteOrder, dim: nat, s: Store, op: Operation)
    requires Lawful(o) && FixedWidth(o) && dim > 0 && Sound(s, dim)
    requires IsInt64(dim) && IsInt64(s.count) && AllLong(s.ids)
    ensures Refines(s, dim, Apply(o, dim, s, op), ApplyToMap(dim, MapOf(s, dim), op), Offers(op))
  {
    hide Sound, Refines, BuildStore, AddStore, RemoveStore, ReloadStore, MapOf, Lawful, FixedWidth, AllLong;
    SoundLinesUp(s, dim);
    match op
    case Building(base) => BuildRefines(s, dim, base);
    case Adding(base) => AddRefines(s, dim, base);
    case Removing(targets) => RemoveRefines(s, dim, targets);
    case Reloading => ReloadRefines(o, s, dim);
  }

  lemma LongIdsStay(dim: nat, m: map<int, Vector>, op: Operation)
    requires LongIds(op) && forall id :: id in m ==> IsInt64(id)
    ensures forall id :: id in ApplyToMap(dim, m, op) ==> IsInt64(id)
  {
    match op
    case Building(base) => if Readable(base, dim) { OfferedLong(base, dim); }
    case Adding(base) => if Readable(base, dim) { OfferedLong(base, dim); }
    case Removing(_) =>
    case Reloading =>
  }

  /**
   * When rows have coordinates, every run of building, adding, removing and reloading keeps the storage sound and
   * standing for the map the same run makes.
   */
  lemma {:induction false} ReplayRefinesMap(o: ByteOrder, dim: nat, s: Store, ops: seq<Operation>)
    requires Lawful(o) && FixedWidth(o) && dim > 0 && Sound(s, dim) && FitsTypes(s, dim, ops)
    ensures Refines(s, dim, Replay(o, dim, s, ops), ReplayOnMap(dim, MapOf(s, dim), ops), OfferedBy(ops))
    ensures AllLong(Replay(o, dim, s, ops).ids)
  {
    if ops != [] {
      var front, op := ops[..|ops| - 1], ops[|ops| - 1];
      ReplayRefinesMap(o, dim, s, front);
      var t := Replay(o, dim, s, front);
      ApplyRefinesMap(o, dim, t, op);
      LongKeys(t, dim);
      LongIdsStay(dim, MapOf(t, dim), op);
      LongKeys(Apply(o, dim, t, op), dim);
    }
  }

  /** The same on a little-endian machine, whose byte order meets both requirements. */
  lemma LittleEndianReplay(dim: nat, s: Store, ops: seq<Operation>)
    requires dim > 0 && Sound(s, dim) && FitsTypes(s, dim, ops)
    ensures var t := Replay(LittleEndian(), dim, s, ops);
            && Refines(s, dim, t, ReplayOnMap(dim, MapOf(s, dim), ops), OfferedBy(ops))
            && AllLong(t.ids)
  {
    hide Lawful, FixedWidth, Refines, Sound, Replay;
    LittleEndianIsLawful();
    LittleEndianIsFixedWidth();
    ReplayRefinesMap(LittleEndian(), dim, s, ops);
  }
}
