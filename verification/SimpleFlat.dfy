/** The mutable brute-force index: parallel id and coordinate storage with swap-removal. */
module SimpleFlatModel {
  import opened Order
  import opened Sorting
  import opened Heaps
  import opened Vectors
  import opened FlatRows
  import opened FlatBlocks
  import opened FlatSearch
  import opened FlatBinary
  import opened FlatRuns
  import opened Codec

  // ---------- the scans ----------

  lemma RowFacts(ids: seq<int>, data: seq<Float32>, dim: nat, n: nat, i: nat)
    requires Holds(ids, data, dim, n) && i < n
    ensures Cells(dim, i) + dim <= |data|
    ensures RowsOf(ids, data, dim, n)[i] == Row(ids[i], Block(data, dim, i))
  {
    Slot(dim, i, n);
    RowsOfAt(ids, data, dim, n, i);
  }

  /** The `limit` nearest unfiltered rows, farthest first. */
  method ScanNearest(
      ids: seq<int>, data: seq<Float32>, dim: nat, n: nat, d: Vector -> real, limit: int, filter: int -> bool)
    returns (results: seq<Result>)
    requires Holds(ids, data, dim, n) && limit >= 0
    ensures results == Reversed(Best(Hits(RowsOf(ids, data, dim, n), NotFiltered(filter), d), limit))
  {
    ghost var rows, keep := RowsOf(ids, data, dim, n), NotFiltered(filter);
    var q := new Heap(FarthestFirst);
    for i := 0 to n
      invariant q.Valid() && q.priority == FarthestFirst
      invariant multiset(q.items) == multiset(Best(Hits(rows[..i], keep, d), limit))
    {
      RowFacts(ids, data, dim, n, i);
      HitsStep(rows, i, keep, d);
      if !filter(ids[i]) {
        PushBounded(q, Result(ids[i], d(Block(data, dim, i))), limit, Hits(rows[..i], keep, d));
      }
    }
    assert rows[..n] == rows;
    BestSorted(Hits(rows, keep, d), limit);
    results := DrainSorted(q, Best(Hits(rows, keep, d), limit));
  }

  /** The unfiltered rows closer than the radius, farthest first. */
  method ScanWithin(
      ids: seq<int>, data: seq<Float32>, dim: nat, n: nat, d: Vector -> real, radius: real, filter: int -> bool)
    returns (results: seq<Result>)
    requires Holds(ids, data, dim, n)
    ensures results == Reversed(Sort(Hits(RowsOf(ids, data, dim, n), Within(filter, d, radius), d)))
  {
    ghost var rows, keep := RowsOf(ids, data, dim, n), Within(filter, d, radius);
    var q := new Heap(FarthestFirst);
    for i := 0 to n
      invariant q.Valid() && q.priority == FarthestFirst
      invariant multiset(q.items) == multiset(Hits(rows[..i], keep, d))
    {
      RowFacts(ids, data, dim, n, i);
      HitsStep(rows, i, keep, d);
      if !filter(ids[i]) {
        var distance := d(Block(data, dim, i));
        if distance < radius {
          q.Push(Result(ids[i], distance));
        }
      }
    }
    assert rows[..n] == rows;
    SortPermutation(q.items, Hits(rows, keep, d));
    results := Drain(q);
  }

  /** What loading says about a header (count, dimension) and its blocks. */
  function Verdict(header: (int, int), dim: nat, bs: BinarySet): Answer<()> {
    if header.1 != dim then Failure(DimensionNotEqual)
    else if !SizesAgree(header.0, dim, bs) then Failure(InvalidBinary)
    else Value(())
  }

  // ---------- the index ----------

  class SimpleFlat {
    const metric: string
    const dim: nat
    var numElements: int
    var ids: seq<int>
    var data: seq<Float32>

    constructor (metric: string, dim: nat)
      ensures Valid() && this.metric == metric && this.dim == dim && Rows() == []
    {
      this.metric, this.dim := metric, dim;
      numElements, ids, data := 0, [], [];
    }

    ghost function Stored(): Store
      reads this
    {
      Store(ids, data, numElements)
    }

    ghost predicate Aligned()
      reads this
    {
      LinedUp(Stored(), dim)
    }

    ghost function Rows(): seq<Row>
      requires Aligned()
      reads this
    {
      RowsIn(Stored(), dim)
    }

    ghost predicate Valid()
      reads this
    {
      Sound(Stored(), dim)
    }

    /** The finite map this index stands for. */
    ghost function View(): map<int, Vector>
      requires Valid()
      reads this
    {
      MapOf(Stored(), dim)
    }

    /**
     * Refused while coordinates are stored or when the dimension differs, changing nothing. When rows have
     * coordinates, a non-empty index is always refused and the index stays valid.
     */
    method Build(base: Dataset) returns (out: Answer<seq<int>>)
      requires Valid() && (base.dim == dim ==> Readable(base, dim))
      modifies `ids, `data, `numElements
      ensures Stored() == BuildStore(old(Stored()), dim, base)
      ensures out.Failure? <==> BuildRefuses(old(Stored()), dim, base)
      ensures out.Failure? ==> out.reason == if old(data) != [] then BuildTwice else DimensionNotEqual
      ensures out.Value? ==> |out.value| == |base.ids| - |AddAll([], Given(base, dim))|
      ensures dim > 0 ==> Valid() && (old(numElements) > 0 ==> out.Failure?)
      ensures out.Value? && old(numElements) == 0 ==> Valid() && View() == FirstWins(Given(base, dim))
    {
      if dim > 0 || numElements == 0 {
        BuildIsSafe(Stored(), dim, base);
      }
      if |data| > 0 {
        return Failure(BuildTwice);
      }
      if dim != base.dim {
        return Failure(DimensionNotEqual);
      }
      if numElements == 0 {
        BuildOnEmpty(Stored(), dim, base);
      }
      var failed := Restart(base);
      return Value(failed);
    }

    /** The loop of Build, from slot 0. */
    method Restart(base: Dataset) returns (failed: seq<int>)
      requires Valid() && Readable(base, dim)
      modifies `ids, `data, `numElements
      ensures Stored() == Rebuilt(old(Stored()), dim, |base.ids|, AddAll([], Given(base, dim)))
      ensures |failed| == |base.ids| - |AddAll([], Given(base, dim))|
    {
      ghost var given := Given(base, dim);
      ids, data, failed, numElements := Refill(ids, data, dim, numElements, base.ids, base.vectors, given);
    }

    /**
     * Adds every row whose id is new. The dimension is compared only while coordinates are stored; an empty
     * index reads the rows with its own stride.
     */
    method Add(base: Dataset) returns (out: Answer<seq<int>>)
      requires Valid() && (data == [] || base.dim == dim ==> Readable(base, dim))
      modifies `ids, `data, `numElements
      ensures Valid() && Stored() == AddStore(old(Stored()), dim, base)
      ensures out.Failure? <==> old(data) != [] && base.dim != dim
      ensures out.Failure? ==> out.reason == DimensionNotEqual
      ensures out.Value? ==>
                && Rows() == AddAll(old(Rows()), Given(base, dim))
                && View() == FirstWins(Given(base, dim)) + old(View())
                && |out.value| == |base.ids| - (numElements - old(numElements))
    {
      if |data| > 0 {
        if dim != base.dim {
          return Failure(DimensionNotEqual);
        }
      }
      var failed := Absorb(base);
      RowsDetermine(Stored(), dim);
      return Value(failed);
    }

    /** The loop of Add. */
    method Absorb(base: Dataset) returns (failed: seq<int>)
      requires Valid() && Readable(base, dim)
      modifies `ids, `data, `numElements
      ensures Valid() && Rows() == AddAll(old(Rows()), Given(base, dim))
      ensures View() == FirstWins(Given(base, dim)) + old(View())
      ensures |failed| == |base.ids| - (numElements - old(numElements))
    {
      ghost var before, given := Rows(), Given(base, dim);
      AddAllIsMerge(before, given);
      ids, data, failed, numElements := Grow(ids, data, dim, numElements, base.ids, base.vectors, before, given);
    }

    /** Swap-removal of one id; false when it is absent. */
    method RemoveId(id: int) returns (found: bool)
      requires Valid()
      modifies `ids, `data, `numElements
      ensures Valid() && Rows() == RemoveOne(old(Rows()), id)
      ensures numElements == old(numElements) - if found then 1 else 0
      ensures found <==> HasId(old(Rows()), id)
    {
      RemoveOneIsErase(Rows(), id);
      var index := Locate(ids, data, dim, id);
      if index == |ids| {
        return false;
      }
      numElements := numElements - 1;
      ids, data := Shrink(ids, data, dim, index);
      return true;
    }

    method Remove(targets: seq<int>) returns (removed: nat)
      requires Valid()
      modifies `ids, `data, `numElements
      ensures Valid() && Rows() == RemoveAll(old(Rows()), targets)
      ensures Stored() == RemoveStore(old(Stored()), dim, targets)
      ensures View() == old(View()) - set id | id in targets
      ensures removed == old(numElements) - numElements
    {
      ghost var before := Rows();
      removed := 0;
      for i := 0 to |targets|
        invariant Valid() && Rows() == RemoveAll(before, targets[..i])
        invariant removed == old(numElements) - numElements
      {
        assert targets[..i + 1][..i] == targets[..i];
        var found := RemoveId(targets[i]);
        if found {
          removed := removed + 1;
        }
      }
      assert targets[..|targets|] == targets;
      RemoveAllIsErase(before, targets);
      RowsDetermine(Stored(), dim);
    }

    method KnnSearch(kernel: FlatKernel, query: Request, k: Long, filter: int -> bool)
      returns (out: Answer<seq<Result>>)
      requires Valid()
      ensures out == KnnAnswer(Rows(), dim, ToQuery(kernel, metric, query.vector), query, k, filter)
    {
      if query.count != 1 {
        return Failure(InternalError);
      }
      if dim != query.dim {
        return Failure(DimensionNotEqual);
      }
      var d := ToQuery(kernel, metric, query.vector);
      var found := ScanNearest(ids, data, dim, numElements, d, Bound(k, numElements), filter);
      FilledIsLimited(Best(Hits(Rows(), NotFiltered(filter), d), Bound(k, numElements)), 0);
      var filled := FillAnswer(found, |found|);
      return Value(filled);
    }

    method RangeSearch(kernel: FlatKernel, query: Request, radius: real, filter: int -> bool, limit: int)
      returns (out: Answer<seq<Result>>)
      requires Valid()
      ensures out == RangeAnswer(Rows(), dim, ToQuery(kernel, metric, query.vector), query, radius, filter, limit)
    {
      if dim != query.dim {
        return Failure(DimensionNotEqual);
      }
      if query.count != 1 {
        return Failure(InternalError);
      }
      var d := ToQuery(kernel, metric, query.vector);
      var found := ScanWithin(ids, data, dim, numElements, d, radius, filter);
      FilledIsLimited(Sort(Hits(Rows(), Within(filter, d, radius), d)), limit);
      var size := |found|;
      if limit >= 1 {
        size := Min(limit, size);
      }
      var filled := FillAnswer(found, size);
      return Value(filled);
    }

    method Serialize(o: ByteOrder) returns (bs: BinarySet)
      requires Aligned()
      ensures bs == Pack(o, ids, data, dim)
    {
      var words: seq<int> := data;
      var idsBlock := Put64(o, numElements) + Put64(o, dim) + PutAll(LongWriter(o), ids);
      bs := BinarySet(idsBlock, PutAll(o.put32, words));
    }

    /**
     * Accepts exactly a header with this dimension and blocks of the announced sizes, and then holds the ids
     * and coordinates that pack to those very bytes. A refusal keeps the storage but not the element count.
     */
    method Deserialize(o: ByteOrder, bs: BinarySet) returns (out: Answer<()>)
      requires Lawful(o) && FixedWidth(o) && |bs.ids| >= 16
      modifies `ids, `data, `numElements
      ensures TakeSizes(o, bs.ids).Some?
      ensures out == Verdict(TakeSizes(o, bs.ids).value.0, dim, bs)
      ensures Stored() == LoadStore(o, old(Stored()), dim, bs)
      ensures numElements == TakeSizes(o, bs.ids).value.0.0
      ensures out.Failure? ==> ids == old(ids) && data == old(data)
      ensures out.Value? ==> Aligned() && AllLong(ids) && Pack(o, ids, data, dim) == bs
      ensures old(Valid()) ==>
                (Valid() <==> if out.Value? then Distinct(ids) else numElements == old(numElements))
    {
      hide TakeSizes, Pack, Cells, AllLong, Lawful, FixedWidth, SizesAgree, Sound, Distinct;
      if Valid() {
        LoadIsSoundExactly(o, Stored(), dim, bs);
      }
      SizesTotal(o, bs.ids);
      var (header, rest) := TakeSizes(o, bs.ids).value;
      numElements := header.0;
      if header.1 != dim {
        return Failure(DimensionNotEqual);
      }
      if !SizesAgree(header.0, dim, bs) {
        return Failure(InvalidBinary);
      }
      CountIsNat(header.0, dim, bs);
      ids, data := Unpack(o, bs, header.0, dim, rest);
      return Value(());
    }
  }

  lemma CountIsNat(n: int, dim: nat, bs: BinarySet)
    requires SizesAgree(n, dim, bs)
    ensures n >= 0
  {
  }

  /**
   * When loading any bytes leaves a sound index: a refused load exactly when the header announces the old element
   * count, whatever the reason for the refusal, and an accepted one exactly when the loaded ids are distinct.
   */
  lemma LoadIsSoundExactly(o: ByteOrder, s: Store, dim: nat, bs: BinarySet)
    requires Lawful(o) && FixedWidth(o) && Sound(s, dim) && |bs.ids| >= 16
    ensures TakeSizes(o, bs.ids).Some?
    ensures var header, t := TakeSizes(o, bs.ids).value.0, LoadStore(o, s, dim, bs);
            Sound(t, dim) <==> if Verdict(header, dim, bs).Value? then Distinct(t.ids) else header.0 == s.count
  {
    hide Lawful, FixedWidth, TakeSizes, SizesAgree, LoadStore, UniqueIds, RowsIn;
    SizesTotal(o, bs.ids);
    if Verdict(TakeSizes(o, bs.ids).value.0, dim, bs).Value? {
      AcceptedLoad(o, s, dim, bs);
      UniqueRows(LoadStore(o, s, dim, bs), dim);
    } else {
      RefusedLoad(o, s, dim, bs);
    }
  }

  /** What the fields satisfy by their C++ types alone. */
  ghost predicate FitsItsTypes(flat: SimpleFlat)
    reads flat
  {
    IsInt64(flat.numElements) && IsInt64(flat.dim) && AllLong(flat.ids)
  }

  /** A packed index is accepted by an index of the same dimension. */
  lemma PackedIsAccepted(o: ByteOrder, ids: seq<int>, data: seq<int>, dim: nat)
    requires Lawful(o) && FixedWidth(o) && IsInt64(|ids|) && IsInt64(dim) && |data| == Cells(dim, |ids|)
    ensures var bs := Pack(o, ids, data, dim);
            && |bs.ids| >= 16 && TakeSizes(o, bs.ids).Some?
            && Verdict(TakeSizes(o, bs.ids).value.0, dim, bs) == Value(())
  {
    PackedHeader(o, ids, dim);
    PackedSizes(o, ids, data, dim);
    PackedIdsLength(o, ids, dim);
  }

  /** An index of the same dimension, possibly the same one, loads the serialised storage and then holds it. */
  method SerializeThenDeserialize(o: ByteOrder, a: SimpleFlat, b: SimpleFlat)
    requires Lawful(o) && FixedWidth(o)
    requires a.Valid() && FitsItsTypes(a) && a.dim == b.dim
    modifies b
    ensures b.Valid() && b.Stored() == old(a.Stored()) && b.View() == old(a.View())
  {
    hide Lawful, FixedWidth, Verdict, LoadStore, AllLong;
    var bs := a.Serialize(o);
    PackedIsAccepted(o, a.ids, a.data, a.dim);
    LoadForgets(o, a.Stored(), b.Stored(), a.dim);
    var out := b.Deserialize(o, bs);
  }

  // ---------- runs ----------

  /** The datasets of the operation can be read. */
  predicate CanRead(op: Operation, dim: nat) {
    match op
    case Building(base) => base.dim == dim ==> Readable(base, dim)
    case Adding(base) => Readable(base, dim)
    case _ => true
  }

  method Perform(o: ByteOrder, flat: SimpleFlat, op: Operation)
    requires Lawful(o) && FixedWidth(o) && flat.dim > 0 && flat.Valid() && FitsItsTypes(flat)
    requires CanRead(op, flat.dim)
    modifies flat
    ensures flat.Stored() == Apply(o, flat.dim, old(flat.Stored()), op)
  {
    hide Lawful, FixedWidth, RowsIn, UniqueIds, AddAll, RemoveAll, Cells, LoadStore, AllLong, ToMap;
    match op {
      case Building(base) => var built := flat.Build(base);
      case Adding(base) => var added := flat.Add(base);
      case Removing(targets) => var removed := flat.Remove(targets);
      case Reloading =>
        LoadForgets(o, flat.Stored(), flat.Stored(), flat.dim);
        SerializeThenDeserialize(o, flat, flat);
    }
  }

  /**
   * Any run of Build, Add, Remove and reloads from the index's own packed form, through the methods themselves:
   * the index stays valid and stands for the map the run makes.
   */
  method Run(o: ByteOrder, flat: SimpleFlat, ops: seq<Operation>)
    requires Lawful(o) && FixedWidth(o) && flat.dim > 0 && flat.Valid() && FitsTypes(flat.Stored(), flat.dim, ops)
    requires forall i :: 0 <= i < |ops| ==> CanRead(ops[i], flat.dim)
    modifies flat
    ensures flat.Valid() && flat.Stored() == Replay(o, flat.dim, old(flat.Stored()), ops)
    ensures flat.View() == ReplayOnMap(flat.dim, old(flat.View()), ops)
  {
    hide Lawful, FixedWidth, Apply, Refines, FitsTypes, Sound;
    ghost var start := flat.Stored();
    NothingReplayed(o, flat.dim, start);
    for i := 0 to |ops|
      invariant flat.Stored() == Replay(o, flat.dim, start, ops[..i])
    {
      RunFits(o, flat.dim, start, ops, i);
      Perform(o, flat, ops[i]);
      assert ops[..i + 1][..i] == ops[..i];
    }
    assert ops[..|ops|] == ops;
    RunFits(o, flat.dim, start, ops, |ops|);
  }

  /** The run on a little-endian machine needs nothing of the byte order. */
  method RunLittleEndian(flat: SimpleFlat, ops: seq<Operation>)
    requires flat.dim > 0 && flat.Valid() && FitsTypes(flat.Stored(), flat.dim, ops)
    requires forall i :: 0 <= i < |ops| ==> CanRead(ops[i], flat.dim)
    modifies flat
    ensures flat.Valid() && flat.Stored() == Replay(LittleEndian(), flat.dim, old(flat.Stored()), ops)
    ensures flat.View() == ReplayOnMap(flat.dim, old(flat.View()), ops)
  {
    hide Lawful, FixedWidth, FitsTypes, Sound;
    LittleEndianIsLawful();
    LittleEndianIsFixedWidth();
    Run(LittleEndian(), flat, ops);
  }

  lemma NothingReplayed(o: ByteOrder, dim: nat, s: Store)
    ensures Replay(o, dim, s, []) == s
  {
  }

  lemma {:induction false} OfferedPrefix(ops: seq<Operation>, i: nat)
    requires i <= |ops|
    ensures OfferedBy(ops[..i]) <= OfferedBy(ops)
  {
    if i == |ops| {
      assert ops[..i] == ops;
    } else {
      assert ops[..|ops| - 1][..i] == ops[..i];
      OfferedPrefix(ops[..|ops| - 1], i);
    }
  }

  /** After any part of a run that fits the program's integers, the storage does. */
  lemma RunFits(o: ByteOrder, dim: nat, s: Store, ops: seq<Operation>, i: nat)
    requires Lawful(o) && FixedWidth(o) && dim > 0 && Sound(s, dim) && FitsTypes(s, dim, ops) && i <= |ops|
    ensures var t := Replay(o, dim, s, ops[..i]);
            && Sound(t, dim) && MapOf(t, dim) == ReplayOnMap(dim, MapOf(s, dim), ops[..i])
            && IsInt64(t.count) && IsInt64(dim) && AllLong(t.ids)
  {
    OfferedPrefix(ops, i);
    ReplayRefinesMap(o, dim, s, ops[..i]);
  }

  /** A new index of dimension 1 refuses a block announcing one row of dimension 2, and then counts that row. */
  method RefusedLoadBreaks(o: ByteOrder) returns (flat: SimpleFlat, out: Answer<()>)
    requires Lawful(o) && FixedWidth(o)
    ensures out.Failure? && flat.Stored() == Store([], [], 1) && !flat.Valid()
  {
    flat := new SimpleFlat("l2", 1);
    var bs := BinarySet(Put64(o, 1) + Put64(o, 2), []);
    SizesComplete(o, 1, 2, []);
    assert Put64(o, 1) + Put64(o, 2) + [] == bs.ids;
    out := flat.Deserialize(o, bs);
  }

  /** With zero-dimensional rows a second Build is not refused and stores one id twice. */
  method ZeroDimensionBuildsTwice() returns (flat: SimpleFlat)
    ensures flat.dim == 0 && flat.Stored() == Store([0, 0], [], 2) && !flat.Valid()
  {
    flat := new SimpleFlat("l2", 0);
    var base := Dataset(0, [0], []);
    PointIsBuilt();
    PointIsRebuilt();
    var first := flat.Build(base);
    var second := flat.Build(base);
  }
}
