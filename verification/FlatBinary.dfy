/** The binary form of a flat index: counts and ids in one block, coordinates in another. */
module FlatBinary {
  import opened Outcomes
  import opened Codec
  import opened Vectors
  import opened FlatBlocks

  datatype BinarySet = BinarySet(ids: seq<byte>, vectors: seq<byte>)

  function LongWriter(o: ByteOrder): int -> seq<byte> {
    (v: int) => Put64(o, v)
  }

  function LongReader(o: ByteOrder): (seq<byte>, nat) -> Read<int> {
    (s: seq<byte>, i: nat) => TakeLong(o, s)
  }

  function PackIds(o: ByteOrder, ids: seq<int>, dim: int): seq<byte> {
    Put64(o, |ids|) + Put64(o, dim) + PutAll(LongWriter(o), ids)
  }

  function Pack(o: ByteOrder, ids: seq<int>, data: seq<int>, dim: int): BinarySet {
    BinarySet(PackIds(o, ids, dim), PutAll(o.put32, data))
  }

  /** The leading count and dimension. */
  function TakeSizes(o: ByteOrder, s: seq<byte>): Read<(int, int)> {
    var (n, s1) :- TakeLong(o, s);
    var (d, s2) :- TakeLong(o, s1);
    Some(((n, d), s2))
  }

  /** Both blocks have the size their header announces. */
  predicate SizesAgree(n: int, dim: nat, bs: BinarySet) {
    n >= 0 && 16 + 8 * n == |bs.ids| && 4 * Cells(dim, n) == |bs.vectors|
  }

  lemma SizesSound(o: ByteOrder, s: seq<byte>)
    requires Lawful(o) && TakeSizes(o, s).Some?
    ensures var ((n, d), rest) := TakeSizes(o, s).value; s == Put64(o, n) + Put64(o, d) + rest
  {
    PutLongTake(o, s);
    PutLongTake(o, TakeLong(o, s).value.1);
  }

  lemma SizesComplete(o: ByteOrder, n: int, d: int, rest: seq<byte>)
    requires Lawful(o) && IsInt64(n) && IsInt64(d)
    ensures TakeSizes(o, Put64(o, n) + Put64(o, d) + rest) == Some(((n, d), rest))
  {
    assert Put64(o, n) + Put64(o, d) + rest == Put64(o, n) + (Put64(o, d) + rest);
    TakeLongPut(o, n, Put64(o, d) + rest);
    TakeLongPut(o, d, rest);
  }

  predicate AllLong(vs: seq<int>) {
    forall i :: 0 <= i < |vs| ==> IsInt64(vs[i])
  }

  predicate AllWords(vs: seq<int>) {
    forall i :: 0 <= i < |vs| ==> 0 <= vs[i] < WORD
  }

  lemma LongsComplete(o: ByteOrder, vs: seq<int>, rest: seq<byte>)
    requires Lawful(o) && AllLong(vs)
    ensures TakeAll(LongReader(o), PutAll(LongWriter(o), vs) + rest, |vs|) == Some((vs, rest))
  {
    forall i | 0 <= i < |vs|
      ensures ReadsBack(LongWriter(o), LongReader(o), vs[i], i)
    {
      forall rest
        ensures LongReader(o)(LongWriter(o)(vs[i]) + rest, i) == Some((vs[i], rest))
      {
        TakeLongPut(o, vs[i], rest);
      }
    }
    AllComplete(LongWriter(o), LongReader(o), vs, rest);
  }

  function AnyLong(): (int, nat) -> bool {
    (v: int, i: nat) => IsInt64(v)
  }

  lemma LongsSound(o: ByteOrder, s: seq<byte>, n: nat)
    requires Lawful(o) && TakeAll(LongReader(o), s, n).Some?
    ensures var (vs, rest) := TakeAll(LongReader(o), s, n).value; s == PutAll(LongWriter(o), vs) + rest && AllLong(vs)
  {
    forall i | 0 <= i < n
      ensures ReadsOnly(LongWriter(o), LongReader(o), AnyLong(), i)
    {
      forall t | LongReader(o)(t, i).Some?
        ensures t == LongWriter(o)(LongReader(o)(t, i).value.0) + LongReader(o)(t, i).value.1
        ensures AnyLong()(LongReader(o)(t, i).value.0, i)
      {
        PutLongTake(o, t);
      }
    }
    AllSound(LongWriter(o), LongReader(o), AnyLong(), s, n);
    var vs := TakeAll(LongReader(o), s, n).value.0;
    forall i | 0 <= i < n
      ensures IsInt64(vs[i])
    {
      assert AnyLong()(vs[i], i);
    }
  }

  // ---------- enough bytes always read ----------

  /** Reading an item uses exactly `width` bytes, and that many suffice. */
  ghost predicate ReadsWidth<T(!new)>(take: (seq<byte>, nat) -> Read<T>, width: nat) {
    && (forall s, i :: |s| >= width ==> take(s, i).Some?)
    && (forall s, i :: take(s, i).Some? ==> |take(s, i).value.1| == |s| - width)
  }

  lemma {:induction false} AllTotal<T(!new)>(take: (seq<byte>, nat) -> Read<T>, width: nat, s: seq<byte>, n: nat)
    requires ReadsWidth(take, width) && |s| >= width * n
    ensures TakeAll(take, s, n).Some? && |TakeAll(take, s, n).value.1| == |s| - width * n
  {
    if n > 0 {
      assert width * n == width * (n - 1) + width;
      AllTotal(take, width, s, n - 1);
    }
  }

  lemma WordTotal(o: ByteOrder, s: seq<byte>)
    requires Lawful(o) && FixedWidth(o)
    ensures |s| >= 4 ==> TakeAtMost(o, s, WORD - 1).Some?
    ensures TakeAtMost(o, s, WORD - 1).Some? ==> |TakeAtMost(o, s, WORD - 1).value.1| == |s| - 4
  {
    if o.take32(s).Some? {
      Put32Take(o, s);
    }
  }

  lemma WordWidth(o: ByteOrder)
    requires Lawful(o) && FixedWidth(o)
    ensures ReadsWidth(WordReader(o, WORD - 1), 4)
  {
    hide Lawful, FixedWidth, TakeAtMost;
    var take := WordReader(o, WORD - 1);
    forall s: seq<byte>, i: nat
      ensures |s| >= 4 ==> take(s, i).Some?
      ensures take(s, i).Some? ==> |take(s, i).value.1| == |s| - 4
    {
      WordTotal(o, s);
    }
  }

  lemma Take64Total(o: ByteOrder, s: seq<byte>)
    requires Lawful(o) && FixedWidth(o)
    ensures |s| >= 8 ==> TakeLong(o, s).Some?
    ensures TakeLong(o, s).Some? ==> |TakeLong(o, s).value.1| == |s| - 8
  {
    if o.take32(s).Some? {
      Put32Take(o, s);
      var s1 := o.take32(s).value.1;
      if o.take32(s1).Some? {
        Put32Take(o, s1);
      }
    }
  }

  lemma LongWidth(o: ByteOrder)
    requires Lawful(o) && FixedWidth(o)
    ensures ReadsWidth(LongReader(o), 8)
  {
    forall s: seq<byte>, i: nat
      ensures |s| >= 8 ==> LongReader(o)(s, i).Some?
      ensures LongReader(o)(s, i).Some? ==> |LongReader(o)(s, i).value.1| == |s| - 8
    {
      Take64Total(o, s);
    }
  }

  /** Sixteen bytes always hold the sizes. */
  lemma SizesTotal(o: ByteOrder, s: seq<byte>)
    requires Lawful(o) && FixedWidth(o) && |s| >= 16
    ensures TakeSizes(o, s).Some? && |TakeSizes(o, s).value.1| == |s| - 16
  {
    Take64Total(o, s);
    Take64Total(o, TakeLong(o, s).value.1);
  }

  // ---------- both blocks ----------

  /** The ids of a block of the announced size: they exist and pack to that block. */
  lemma IdsUnpack(o: ByteOrder, s: seq<byte>, n: nat, dim: int)
    requires Lawful(o) && FixedWidth(o) && |s| == 16 + 8 * n
    requires TakeSizes(o, s).Some? && TakeSizes(o, s).value.0 == (n, dim)
    ensures var ids := TakeAll(LongReader(o), TakeSizes(o, s).value.1, n);
            ids.Some? && s == PackIds(o, ids.value.0, dim) && AllLong(ids.value.0)
  {
    hide Lawful, FixedWidth, TakeSizes, TakeAll, PutAll, Put64, TakeLong;
    var rest := TakeSizes(o, s).value.1;
    SizesTotal(o, s);
    SizesSound(o, s);
    LongWidth(o);
    AllTotal(LongReader(o), 8, rest, n);
    LongsSound(o, rest, n);
    assert PutAll(LongWriter(o), TakeAll(LongReader(o), rest, n).value.0) == rest;
  }

  lemma DataUnpack(o: ByteOrder, s: seq<byte>, n: nat)
    requires Lawful(o) && FixedWidth(o) && |s| == 4 * n
    ensures var data := TakeAll(WordReader(o, WORD - 1), s, n);
            data.Some? && s == PutAll(o.put32, data.value.0) && AllWords(data.value.0)
  {
    WordWidth(o);
    AllTotal(WordReader(o, WORD - 1), 4, s, n);
    WordsSound(o, s, n, WORD - 1);
    assert PutAll(o.put32, TakeAll(WordReader(o, WORD - 1), s, n).value.0) == s;
  }

  /** The ids and coordinates of two blocks whose sizes agree with their header. */
  method Unpack(o: ByteOrder, bs: BinarySet, n: nat, dim: nat, rest: seq<byte>)
    returns (ids: seq<int>, data: seq<Float32>)
    requires Lawful(o) && FixedWidth(o) && SizesAgree(n, dim, bs)
    requires TakeSizes(o, bs.ids) == Some(((n, dim), rest))
    ensures |ids| == n && |data| == Cells(dim, n) && AllLong(ids) && AllWords(data)
    ensures TakeAll(LongReader(o), rest, n).Some? && TakeAll(LongReader(o), rest, n).value.0 == ids
    ensures var words := TakeAll(WordReader(o, WORD - 1), bs.vectors, Cells(dim, n));
            words.Some? && words.value.0 == data
    ensures Pack(o, ids, data, dim) == bs
  {
    IdsUnpack(o, bs.ids, n, dim);
    DataUnpack(o, bs.vectors, Cells(dim, n));
    ids := TakeAll(LongReader(o), rest, n).value.0;
    var words := TakeAll(WordReader(o, WORD - 1), bs.vectors, Cells(dim, n)).value.0;
    assert AllWords(words);
    data := words;
  }

  lemma {:induction false} PackedLength<T>(put: T -> seq<byte>, xs: seq<T>, width: nat)
    requires forall i :: 0 <= i < |xs| ==> |put(xs[i])| == width
    ensures |PutAll(put, xs)| == width * |xs|
  {
    if xs != [] {
      PackedLength(put, xs[..|xs| - 1], width);
      assert width * |xs| == width * (|xs| - 1) + width;
    }
  }

  lemma WordIsFourBytes(o: ByteOrder, v: int)
    requires FixedWidth(o)
    ensures |o.put32(v)| == 4
  {
  }

  lemma LongIsEightBytes(o: ByteOrder, v: int)
    requires FixedWidth(o)
    ensures |Put64(o, v)| == 8
  {
  }

  lemma PackedIdsLength(o: ByteOrder, ids: seq<int>, dim: int)
    requires FixedWidth(o)
    ensures |PackIds(o, ids, dim)| == 16 + 8 * |ids|
  {
    LongIsEightBytes(o, |ids|);
    LongIsEightBytes(o, dim);
    forall i | 0 <= i < |ids|
      ensures |LongWriter(o)(ids[i])| == 8
    {
      LongIsEightBytes(o, ids[i]);
    }
    PackedLength(LongWriter(o), ids, 8);
  }

  lemma PackedWordsLength(o: ByteOrder, data: seq<int>)
    requires FixedWidth(o)
    ensures |PutAll(o.put32, data)| == 4 * |data|
  {
    forall i | 0 <= i < |data|
      ensures |o.put32(data[i])| == 4
    {
      WordIsFourBytes(o, data[i]);
    }
    PackedLength(o.put32, data, 4);
  }

  lemma PackedHeader(o: ByteOrder, ids: seq<int>, dim: int)
    requires Lawful(o) && IsInt64(|ids|) && IsInt64(dim)
    ensures TakeSizes(o, PackIds(o, ids, dim)) == Some(((|ids|, dim), PutAll(LongWriter(o), ids)))
  {
    SizesComplete(o, |ids|, dim, PutAll(LongWriter(o), ids));
  }

  /** A packed index announces its own sizes. */
  lemma PackedSizes(o: ByteOrder, ids: seq<int>, data: seq<int>, dim: nat)
    requires FixedWidth(o) && |data| == Cells(dim, |ids|)
    ensures SizesAgree(|ids|, dim, Pack(o, ids, data, dim))
  {
    PackedIdsLength(o, ids, dim);
    PackedWordsLength(o, data);
  }

  /** Equal packed forms hold equal ids and coordinates. */
  lemma PackInjective(o: ByteOrder, a: seq<int>, x: seq<int>, b: seq<int>, y: seq<int>, dim: nat)
    requires Lawful(o) && IsInt64(|a|) && IsInt64(|b|) && IsInt64(dim)
    requires AllLong(a) && AllLong(b) && AllWords(x) && AllWords(y) && |x| == Cells(dim, |a|) && |y| == Cells(dim, |b|)
    requires Pack(o, a, x, dim) == Pack(o, b, y, dim)
    ensures a == b && x == y
  {
    SizesComplete(o, |a|, dim, PutAll(LongWriter(o), a));
    SizesComplete(o, |b|, dim, PutAll(LongWriter(o), b));
    LongsComplete(o, a, []);
    LongsComplete(o, b, []);
    WordsComplete(o, x, WORD - 1, []);
    WordsComplete(o, y, WORD - 1, []);
    assert PutAll(LongWriter(o), a) + [] == PutAll(LongWriter(o), a);
    assert PutAll(LongWriter(o), b) + [] == PutAll(LongWriter(o), b);
    assert PutAll(o.put32, x) + [] == PutAll(o.put32, x);
    assert PutAll(o.put32, y) + [] == PutAll(o.put32, y);
  }
}
