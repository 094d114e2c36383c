/** The reusable id set of the candidate exchange, and the neighbour lists it starts from. */
module Collector {
  import opened Order
  import opened Sorting
  import opened Scans
  import opened Prune
  import opened MarkTables

  // ---------- laws of first-occurrence lists ----------

  lemma DedupAppend(source: int, ids: seq<int>, id: int)
    ensures Dedup(source, ids + [id]) ==
            if id == source || id in Dedup(source, ids) then Dedup(source, ids) else Dedup(source, ids) + [id]
  {
    assert (ids + [id])[..|ids|] == ids;
  }

  lemma {:induction false} DedupPrefix(source: int, ids: seq<int>, more: seq<int>)
    ensures Dedup(source, ids) <= Dedup(source, ids + more)
  {
    if more == [] {
      assert ids + more == ids;
    } else {
      var m := |more| - 1;
      DedupPrefix(source, ids, more[..m]);
      assert ids + more == (ids + more[..m]) + [more[m]];
      DedupAppend(source, ids + more[..m], more[m]);
    }
  }

  lemma {:induction false} DedupOfDistinct(source: int, ids: seq<int>)
    requires Distinct(ids) && source !in ids
    ensures Dedup(source, ids) == ids
  {
    if ids != [] {
      var front := ids[..|ids| - 1];
      assert ids == front + [ids[|ids| - 1]];
      DedupOfDistinct(source, front);
    }
  }

  // ---------- collecting over a stamped table ----------

  /** A stamped table and the ids collected since its last reset. */
  datatype Collecting = Collecting(table: Table, ids: seq<int>)

  function Begin(t: Table): Collecting {
    Collecting(ResetTable(t), [])
  }

  /** The source, ids stamped in this generation and ids outside the table are ignored. */
  function AddId(c: Collecting, source: int, id: int): Collecting {
    if id == source || id < 0 || id >= |c.table.store| || IsMarked(c.table, id) then c
    else Collecting(MarkTable(c.table, id), c.ids + [id])
  }

  function AddIds(c: Collecting, source: int, ids: seq<int>): Collecting {
    if ids == [] then c else AddId(AddIds(c, source, ids[..|ids| - 1]), source, ids[|ids| - 1])
  }

  /** The limit is tested before every insertion. */
  function AddUpTo(c: Collecting, source: int, ids: seq<int>, limit: int): Collecting {
    if ids == [] then c
    else
      var b := AddUpTo(c, source, ids[..|ids| - 1], limit);
      if |b.ids| >= limit then b else AddId(b, source, ids[|ids| - 1])
  }

  /** The stamps of the current generation are exactly the first occurrences in `received`, without the source. */
  ghost predicate Tracks(c: Collecting, source: int, received: seq<int>) {
    && MarkTables.Valid(c.table)
    && c.ids == Dedup(source, received)
    && forall id :: 0 <= id < |c.table.store| ==> (IsMarked(c.table, id) <==> id in c.ids)
  }

  lemma BeginTracks(t: Table, source: int)
    requires MarkTables.Valid(t)
    ensures Tracks(Begin(t), source, []) && |Begin(t).table.store| == |t.store|
  {
    StepRefines(t, MarkTables.Reset);
  }

  lemma AddIdTracks(c: Collecting, source: int, received: seq<int>, id: int)
    requires Tracks(c, source, received) && 0 <= id < |c.table.store|
    ensures Tracks(AddId(c, source, id), source, received + [id])
    ensures |AddId(c, source, id).table.store| == |c.table.store|
  {
    DedupAppend(source, received, id);
  }

  /** Insertion by stamps is removal of duplicates, whatever earlier generations left in the table. */
  lemma {:induction false} AddIdsTracks(c: Collecting, source: int, received: seq<int>, ids: seq<int>)
    requires Tracks(c, source, received) && InRange(|c.table.store|, ids)
    ensures Tracks(AddIds(c, source, ids), source, received + ids)
    ensures |AddIds(c, source, ids).table.store| == |c.table.store|
    decreases |ids|
  {
    if ids == [] {
      assert received + ids == received;
    } else {
      var front, id := ids[..|ids| - 1], ids[|ids| - 1];
      AddIdsTracks(c, source, received, front);
      AddIdTracks(AddIds(c, source, front), source, received + front, id);
      assert received + front + [id] == received + ids;
    }
  }

  lemma {:induction false} AddIdsAppend(c: Collecting, source: int, a: seq<int>, b: seq<int>)
    ensures AddIds(AddIds(c, source, a), source, b) == AddIds(c, source, a + b)
    decreases |b|
  {
    if b == [] {
      assert a + b == a;
    } else {
      AddIdsAppend(c, source, a, b[..|b| - 1]);
      assert (a + b)[..|a + b| - 1] == a + b[..|b| - 1];
    }
  }

  /** The tracked list may be replaced by what it collected. */
  lemma TracksItself(c: Collecting, source: int, received: seq<int>)
    requires Tracks(c, source, received)
    ensures Tracks(c, source, c.ids)
  {
    DedupFacts(source, received);
    DedupOfDistinct(source, c.ids);
  }

  lemma AddUpToStepTracks(b: Collecting, source: int, received: seq<int>, id: int, limit: int)
    requires Tracks(b, source, b.ids) && 0 <= id < |b.table.store|
    requires b.ids == Take(Dedup(source, received), limit) && |b.ids| < limit
    ensures var r := AddId(b, source, id);
            && Tracks(r, source, r.ids) && |r.table.store| == |b.table.store|
            && r.ids == Take(Dedup(source, received + [id]), limit)
  {
    DedupAppend(source, received, id);
    AddIdTracks(b, source, b.ids, id);
    DedupAppend(source, b.ids, id);
    TracksItself(AddId(b, source, id), source, b.ids + [id]);
  }

  /** A list cut to its limit stays what it is. */
  lemma CutStays(source: int, received: seq<int>, id: int, limit: int)
    requires |Dedup(source, received)| >= limit
    ensures Take(Dedup(source, received + [id]), limit) == Take(Dedup(source, received), limit)
  {
    DedupAppend(source, received, id);
  }

  lemma {:induction false} AddUpToTracks(c: Collecting, source: int, ids: seq<int>, limit: int)
    requires Tracks(c, source, c.ids) && InRange(|c.table.store|, ids) && |c.ids| <= limit
    ensures var r := AddUpTo(c, source, ids, limit);
            && Tracks(r, source, r.ids) && |r.table.store| == |c.table.store|
            && r.ids == Take(Dedup(source, c.ids + ids), limit)
    decreases |ids|
  {
    if ids == [] {
      assert c.ids + ids == c.ids;
    } else {
      var front, id := ids[..|ids| - 1], ids[|ids| - 1];
      AddUpToTracks(c, source, front, limit);
      var b := AddUpTo(c, source, front, limit);
      assert (c.ids + front) + [id] == c.ids + ids;
      if |b.ids| < limit {
        AddUpToStepTracks(b, source, c.ids + front, id, limit);
      } else {
        CutStays(source, c.ids + front, id, limit);
      }
    }
  }

  /** A collection at its limit ignores whatever follows. */
  lemma {:induction false} FullIgnores(c: Collecting, source: int, a: seq<int>, b: seq<int>, limit: int)
    requires a <= b && |AddUpTo(c, source, a, limit).ids| >= limit
    ensures AddUpTo(c, source, b, limit) == AddUpTo(c, source, a, limit)
    decreases |b|
  {
    if a == b {
    } else {
      FullIgnores(c, source, a, b[..|b| - 1], limit);
    }
  }

  // ---------- the collector ----------

  class CandidateIDCollector {
    var marks: array<uint32>
    var mark: uint32
    var ids: seq<int>

    constructor ()
      ensures Valid() && fresh(marks) && marks.Length == 0
    {
      marks := new uint32[0];
      mark := 0;
      ids := [];
    }

    ghost function AsTable(): Table
      reads this, marks
    {
      Table(marks[..], marks.Length, mark)
    }

    ghost function AsCollecting(): Collecting
      reads this, marks
    {
      Collecting(AsTable(), ids)
    }

    ghost predicate Valid()
      reads this, marks
    {
      MarkTables.Valid(AsTable())
    }

    method Reserve(count: nat, capacity: int)
      requires Valid()
      modifies this
      ensures Valid() && (marks == old(marks) || fresh(marks))
      ensures AsTable() == ReserveExactTable(old(AsTable()), count) && marks.Length == count
      ensures ids == []
    {
      if marks.Length != count {
        marks := new uint32[count](_ => 0);
        mark := 0;
        assert marks[..] == Zeros(count);
      }
      ids := [];
    }

    /** The past of the table is forgotten: nothing is stamped in the new generation. */
    method Reset(ghost source: int)
      requires Valid()
      modifies this, marks
      ensures marks == old(marks) && AsCollecting() == Begin(old(AsTable()))
      ensures Tracks(AsCollecting(), source, [])
    {
      BeginTracks(AsTable(), source);
      mark := (mark + 1) % 0x1_0000_0000;
      if mark == 0 {
        forall i | 0 <= i < marks.Length {
          marks[i] := 0;
        }
        mark := 1;
        assert marks[..] == Zeros(marks.Length);
      }
      ids := [];
    }

    method Add(id: int, source: int)
      requires 0 <= id < marks.Length
      modifies this`ids, marks
      ensures AsCollecting() == AddId(old(AsCollecting()), source, id)
    {
      if id == source || marks[id] == mark {
        return;
      }
      marks[id] := mark;
      ids := ids + [id];
    }

    method AddAll(added: seq<int>, source: int)
      requires InRange(marks.Length, added)
      modifies this`ids, marks
      ensures AsCollecting() == AddIds(old(AsCollecting()), source, added)
    {
      ghost var c := AsCollecting();
      for i := 0 to |added|
        invariant AsCollecting() == AddIds(c, source, added[..i])
      {
        Add(added[i], source);
        assert added[..i + 1][..i] == added[..i];
      }
      assert added[..|added|] == added;
    }
  }

  // ---------- the initial neighbours ----------

  /** Nearby ids: one after, one before, two after, two before, and so on. */
  function Nearby(count: int, source: int, offsets: nat): (s: seq<int>)
    requires 0 <= source < count && offsets < count
    ensures InRange(count, s)
  {
    if offsets == 0 then []
    else
      Nearby(count, source, offsets - 1) +
      [(source + offsets) % count, (source - offsets + count) % count]
  }

  /** Ids drawn from the seeded stream. */
  function Drawn(count: int, draw: nat -> nat, attempts: nat): (s: seq<int>)
    requires count > 0
    ensures |s| == attempts && InRange(count, s)
    ensures forall i :: 0 <= i < attempts ==> s[i] == draw(i) % count
  {
    seq(attempts, i requires 0 <= i => draw(i) % count)
  }

  /** Every id once, from a seeded start. */
  function Sweep(count: int, start: nat, steps: nat): (s: seq<int>)
    requires count > 0
    ensures |s| == steps && InRange(count, s)
    ensures forall i :: 0 <= i < steps ==> s[i] == (start % count + i) % count
  {
    seq(steps, i requires 0 <= i => (start % count + i) % count)
  }

  /** Half the limit from nearby ids, then drawn ids, then the sweep, first occurrences only. */
  function InitialIds(count: int, source: int, limit: nat, draw: nat -> nat, start: nat): seq<int>
    requires 0 <= source < count
  {
    var near := Take(Dedup(source, Nearby(count, source, count - 1)), limit / 2);
    Take(Dedup(source, near + Drawn(count, draw, 4 * count) + Sweep(count, start, count)), limit)
  }

  lemma WrapOnce(x: int, count: int)
    requires 0 <= x < count
    ensures (x + count) % count == x && x % count == x
  {
    var q, r := (x + count) / count, (x + count) % count;
    assert x + count == q * count + r;
    Multiples(q, count);
  }

  lemma Multiples(q: int, count: nat)
    ensures q >= 2 ==> q * count >= 2 * count
    ensures q <= 0 ==> q * count <= 0
  {
  }

  lemma SweepCovers(count: int, start: nat, x: int)
    requires 0 <= x < count
    ensures x in Sweep(count, start, count)
  {
    var s := start % count;
    WrapOnce(x, count);
    if x >= s {
      assert s + (x - s) == x;
      SweepHits(count, start, x - s, x);
    } else {
      assert s + (x + count - s) == x + count;
      SweepHits(count, start, x + count - s, x);
    }
  }

  lemma SweepHits(count: int, start: nat, i: nat, x: int)
    requires i < count && (start % count + i) % count == x
    ensures x in Sweep(count, start, count)
  {
    assert Sweep(count, start, count)[i] == x;
  }

  ghost predicate ValidIds(count: int, source: int, limit: int, ids: seq<int>) {
    |ids| == limit && Distinct(ids) && InRange(count, ids) && source !in ids
  }

  /** A stream that names every node yields exactly `limit` distinct neighbours. */
  lemma CoveringStream(count: nat, source: int, stream: seq<int>, limit: nat)
    requires 0 <= source < count && limit < count
    requires forall x :: x in stream ==> 0 <= x < count
    requires forall x :: 0 <= x < count ==> x in stream
    ensures ValidIds(count, source, limit, Take(Dedup(source, stream), limit))
  {
    var all := Dedup(source, stream);
    DedupFacts(source, stream);
    forall i | 0 <= i < |all|
      ensures 0 <= all[i] < count && all[i] != source
    {
      assert all[i] in all;
    }
    AllButOne(count, source, all);
  }

  /** Exactly `limit` distinct in-range neighbours, whatever the hash draws. */
  lemma InitialIdsAreValid(count: int, source: int, limit: nat, draw: nat -> nat, start: nat)
    requires 0 <= source < count && limit < count
    ensures ValidIds(count, source, limit, InitialIds(count, source, limit, draw, start))
  {
    var near := Take(Dedup(source, Nearby(count, source, count - 1)), limit / 2);
    var drawn, sweep := Drawn(count, draw, 4 * count), Sweep(count, start, count);
    NearInRange(count, source, limit / 2);
    forall x | x in near + drawn + sweep
      ensures 0 <= x < count
    {
      InStream(count, near, drawn, sweep, x);
    }
    forall x | 0 <= x < count
      ensures x in near + drawn + sweep
    {
      SweepCovers(count, start, x);
    }
    CoveringStream(count, source, near + drawn + sweep, limit);
  }

  lemma NearInRange(count: int, source: int, budget: nat)
    requires 0 <= source < count
    ensures InRange(count, Take(Dedup(source, Nearby(count, source, count - 1)), budget))
  {
    var near := Nearby(count, source, count - 1);
    var ids := Dedup(source, near);
    DedupFacts(source, near);
    forall i | 0 <= i < |ids|
      ensures 0 <= ids[i] < count
    {
      assert ids[i] in ids;
    }
  }

  lemma InStream(count: int, a: seq<int>, b: seq<int>, c: seq<int>, x: int)
    requires InRange(count, a) && InRange(count, b) && InRange(count, c) && x in a + b + c
    ensures 0 <= x < count
  {
  }

  lemma AllButOne(count: nat, source: int, ids: seq<int>)
    requires 0 <= source < count && Distinct(ids) && InRange(count, ids) && source !in ids
    requires forall x :: 0 <= x < count && x != source ==> x in ids
    ensures |ids| == count - 1
  {
    DistinctSize(ids);
    RangeSize(count);
    assert Elements(ids) == Range(count) - {source};
  }

  lemma {:induction false} NearbyPrefix(count: int, source: int, a: nat, b: nat)
    requires 0 <= source < count && a <= b < count
    ensures Nearby(count, source, a) <= Nearby(count, source, b)
  {
    if a < b {
      NearbyPrefix(count, source, a, b - 1);
    }
  }

  lemma NearbyStep(count: int, source: int, offset: nat)
    requires 0 <= source < count && 1 <= offset < count
    ensures var part, whole := Nearby(count, source, offset - 1), Nearby(count, source, count - 1);
            var after, before := (source + offset) % count, (source - offset + count) % count;
            && part + [after] <= whole
            && part + [after, before] == Nearby(count, source, offset)
            && 0 <= after < count && 0 <= before < count
  {
    NearbyPrefix(count, source, offset, count - 1);
    var after, before := (source + offset) % count, (source - offset + count) % count;
    var part := Nearby(count, source, offset - 1);
    assert Nearby(count, source, offset) == part + [after, before];
  }

  /** Nearby ids, drawn ids and the sweep, each until its limit is reached, over a stamped table. */
  function InitialOn(t: Table, count: int, source: int, limit: int, draw: nat -> nat, start: nat): Collecting
    requires 0 <= source < count
  {
    var near := AddUpTo(Begin(t), source, Nearby(count, source, count - 1), limit / 2);
    var drawn := AddUpTo(near, source, Drawn(count, draw, 4 * count), limit);
    AddUpTo(drawn, source, Sweep(count, start, count), limit)
  }

  /** Three streams in turn collect the first occurrences of the cut first one followed by the other two. */
  lemma ThreeStreams(t: Table, source: int, a: seq<int>, b: seq<int>, c: seq<int>, small: nat, limit: nat)
    requires MarkTables.Valid(t) && small <= limit
    requires InRange(|t.store|, a) && InRange(|t.store|, b) && InRange(|t.store|, c)
    ensures var r := AddUpTo(AddUpTo(AddUpTo(Begin(t), source, a, small), source, b, limit), source, c, limit);
            && MarkTables.Valid(r.table) && |r.table.store| == |t.store|
            && r.ids == Take(Dedup(source, Take(Dedup(source, a), small) + b + c), limit)
  {
    BeginTracks(t, source);
    AddUpToTracks(Begin(t), source, a, small);
    assert [] + a == a;
    var near := AddUpTo(Begin(t), source, a, small);
    AddUpToTracks(near, source, b, limit);
    AddUpToTracks(AddUpTo(near, source, b, limit), source, c, limit);
    TakeThenMore(source, near.ids + b, c, limit);
  }

  /** Whatever the table held before, the ids are the specified ones. */
  lemma InitialOnIds(t: Table, count: int, source: int, limit: nat, draw: nat -> nat, start: nat)
    requires 0 <= source < count && MarkTables.Valid(t) && |t.store| == count
    ensures var c := InitialOn(t, count, source, limit, draw, start);
            && MarkTables.Valid(c.table) && |c.table.store| == count
            && c.ids == InitialIds(count, source, limit, draw, start)
  {
    ThreeStreams(t, source, Nearby(count, source, count - 1), Drawn(count, draw, 4 * count),
                 Sweep(count, start, count), limit / 2, limit);
  }

  /** Two streams with the same cut list keep the same cut list. */
  lemma SameCutStep(source: int, x: seq<int>, y: seq<int>, id: int, limit: nat)
    requires Take(Dedup(source, x), limit) == Take(Dedup(source, y), limit)
    ensures Take(Dedup(source, x + [id]), limit) == Take(Dedup(source, y + [id]), limit)
  {
    if |Take(Dedup(source, x), limit)| == limit {
      CutStays(source, x, id, limit);
      CutStays(source, y, id, limit);
    } else {
      DedupAppend(source, x, id);
      DedupAppend(source, y, id);
    }
  }

  lemma CutOfCut(source: int, a: seq<int>, limit: nat)
    ensures Take(Dedup(source, Take(Dedup(source, a), limit)), limit) == Take(Dedup(source, a), limit)
  {
    var w := Take(Dedup(source, a), limit);
    DedupFacts(source, a);
    assert forall x :: x in w ==> x in Dedup(source, a);
    DedupOfDistinct(source, w);
  }

  /** Cutting before more ids arrive does not change the cut list. */
  lemma {:induction false} TakeThenMore(source: int, a: seq<int>, b: seq<int>, limit: nat)
    ensures Take(Dedup(source, Take(Dedup(source, a), limit) + b), limit) == Take(Dedup(source, a + b), limit)
    decreases |b|
  {
    var w := Take(Dedup(source, a), limit);
    if b == [] {
      CutOfCut(source, a, limit);
      assert w + b == w && a + b == a;
    } else {
      var front, id := b[..|b| - 1], b[|b| - 1];
      TakeThenMore(source, a, front, limit);
      assert (w + front) + [id] == w + b && (a + front) + [id] == a + b;
      SameCutStep(source, w + front, a + front, id, limit);
    }
  }

  // ---------- the initial neighbours by position ----------

  ghost predicate OnlySeen(source: int, s: seq<int>, seen: seq<int>) {
    forall x :: x in s ==> x == source || x in seen
  }

  /** ids[k] turns up in the stream behind nothing but the source and earlier ids. */
  ghost predicate FirstAt(source: int, s: seq<int>, ids: seq<int>, k: nat)
    requires k < |ids|
  {
    exists j :: 0 <= j < |s| && s[j] == ids[k] && OnlySeen(source, s[..j], ids[..k])
  }

  /** The first `limit` different ids of a stream, the source left out. */
  ghost predicate FirstOf(source: int, s: seq<int>, limit: nat, ids: seq<int>) {
    && |ids| <= limit && Distinct(ids) && source !in ids
    && (forall k :: 0 <= k < |ids| ==> FirstAt(source, s, ids, k))
    && (|ids| == limit || OnlySeen(source, s, ids))
  }

  lemma {:induction false} DedupIsFirst(source: int, s: seq<int>, k: nat)
    requires k < |Dedup(source, s)|
    ensures FirstAt(source, s, Dedup(source, s), k)
  {
    var t := Dedup(source, s);
    var front, last := s[..|s| - 1], s[|s| - 1];
    var before := Dedup(source, front);
    DedupFacts(source, front);
    if k < |before| {
      DedupIsFirst(source, front, k);
      var j :| 0 <= j < |front| && front[j] == before[k] && OnlySeen(source, front[..j], before[..k]);
      assert s[..j] == front[..j] && t[..k] == before[..k];
      assert s[j] == t[k] && OnlySeen(source, s[..j], t[..k]);
    } else {
      assert t[..k] == before && s[..|s| - 1] == front;
      assert s[|s| - 1] == t[k] && OnlySeen(source, s[..|s| - 1], t[..k]);
    }
  }

  /** Removing repetitions and cutting gives the first ids. */
  lemma CutIsFirstOf(source: int, s: seq<int>, limit: nat)
    ensures FirstOf(source, s, limit, Take(Dedup(source, s), limit))
  {
    var t := Dedup(source, s);
    var ids := Take(t, limit);
    DedupFacts(source, s);
    assert forall x :: x in ids ==> x in t;
    forall k | 0 <= k < |ids|
      ensures FirstAt(source, s, ids, k)
    {
      DedupIsFirst(source, s, k);
      assert ids[..k] == t[..k];
    }
  }

  lemma {:induction false} SamePrefix(source: int, s: seq<int>, limit: nat, a: seq<int>, b: seq<int>, k: nat)
    requires FirstOf(source, s, limit, a) && FirstOf(source, s, limit, b) && k <= |a| && k <= |b|
    ensures a[..k] == b[..k]
  {
    if k > 0 {
      SamePrefix(source, s, limit, a, b, k - 1);
      assert FirstAt(source, s, a, k - 1) && FirstAt(source, s, b, k - 1);
      SameFirst(source, s, a, b, k - 1);
      assert a[..k] == a[..k - 1] + [a[k - 1]] && b[..k] == b[..k - 1] + [b[k - 1]];
    }
  }

  lemma SameFirst(source: int, s: seq<int>, a: seq<int>, b: seq<int>, k: nat)
    requires k < |a| && k < |b| && a[..k] == b[..k] && Distinct(a) && Distinct(b)
    requires source !in a && source !in b && FirstAt(source, s, a, k) && FirstAt(source, s, b, k)
    ensures a[k] == b[k]
  {
    var i :| 0 <= i < |s| && s[i] == a[k] && OnlySeen(source, s[..i], a[..k]);
    var j :| 0 <= j < |s| && s[j] == b[k] && OnlySeen(source, s[..j], b[..k]);
    NotEarlier(source, s, a, k, i, j);
    NotEarlier(source, s, b, k, j, i);
  }

  lemma NotEarlier(source: int, s: seq<int>, a: seq<int>, k: nat, i: nat, j: nat)
    requires k < |a| && Distinct(a) && source !in a && i < |s| && j < |s| && s[i] == a[k]
    requires OnlySeen(source, s[..j], a[..k])
    ensures j <= i
  {
    InPrefix(s, i, j);
    NotInPrefix(a, k);
  }

  lemma InPrefix(s: seq<int>, i: nat, j: nat)
    requires i < |s| && j < |s|
    ensures i < j ==> s[i] in s[..j]
  {
    if i < j {
      assert s[..j][i] == s[i];
    }
  }

  lemma NotInPrefix(a: seq<int>, k: nat)
    requires Distinct(a) && k < |a|
    ensures a[k] in a && a[k] !in a[..k]
  {
  }

  /** A stream has only one such list. */
  lemma FirstOnce(source: int, s: seq<int>, limit: nat, a: seq<int>, b: seq<int>)
    requires FirstOf(source, s, limit, a) && FirstOf(source, s, limit, b)
    ensures a == b
  {
    var k := if |a| < |b| then |a| else |b|;
    SamePrefix(source, s, limit, a, b, k);
    NotShorter(source, s, limit, a, b);
    NotShorter(source, s, limit, b, a);
    assert a[..|a|] == a && b[..|b|] == b;
  }

  lemma NotShorter(source: int, s: seq<int>, limit: nat, a: seq<int>, b: seq<int>)
    requires FirstOf(source, s, limit, a) && FirstOf(source, s, limit, b)
    ensures |a| >= |b|
  {
    assert a[..|a|] == a;
    if |a| < |b| {
      SamePrefix(source, s, limit, a, b, |a|);
      FromStream(source, s, limit, b, |a|);
    }
  }

  lemma FromStream(source: int, s: seq<int>, limit: nat, b: seq<int>, k: nat)
    requires FirstOf(source, s, limit, b) && k < |b|
    ensures b[k] in s && b[k] != source && b[k] !in b[..k]
  {
    NotInPrefix(b, k);
    assert FirstAt(source, s, b, k);
  }

  /** Position p of the nearby ids: one after, one before, two after, two before, and so on. */
  function NearbyId(count: int, source: int, p: nat): int
    requires count > 0
  {
    if p % 2 == 0 then (source + p / 2 + 1) % count else (source - p / 2 - 1 + count) % count
  }

  ghost predicate NearbyStream(count: int, source: int, s: seq<int>)
    requires count > 0
  {
    |s| == 2 * (count - 1) && forall p :: 0 <= p < |s| ==> s[p] == NearbyId(count, source, p)
  }

  /** 4 * count draws, then every id once from the seeded start. */
  ghost predicate SeededStream(count: int, draw: nat -> nat, start: nat, s: seq<int>)
    requires count > 0
  {
    && |s| == 5 * count
    && forall p :: 0 <= p < |s| ==>
         s[p] == if p < 4 * count then draw(p) % count else (start % count + (p - 4 * count)) % count
  }

  lemma {:induction false} NearbyAt(count: int, source: int, offsets: nat)
    requires 0 <= source < count && offsets < count
    ensures var s := Nearby(count, source, offsets);
            |s| == 2 * offsets && forall p :: 0 <= p < |s| ==> s[p] == NearbyId(count, source, p)
  {
    hide NearbyId;
    if offsets > 0 {
      NearbyAt(count, source, offsets - 1);
      NearbyPair(count, source, offsets);
    }
  }

  lemma NearbyPair(count: int, source: int, offset: nat)
    requires count > 0 && offset > 0
    ensures NearbyId(count, source, 2 * offset - 2) == (source + offset) % count
    ensures NearbyId(count, source, 2 * offset - 1) == (source - offset + count) % count
  {
    assert (2 * offset - 2) % 2 == 0 && (2 * offset - 2) / 2 == offset - 1;
    assert (2 * offset - 1) % 2 == 1 && (2 * offset - 1) / 2 == offset - 1;
  }

  /**
   * The initial neighbours by position alone: half the limit from the nearby ids, the rest from these followed by
   * the draws and the sweep.
   */
  ghost predicate Initial(count: int, source: int, limit: nat, draw: nat -> nat, start: nat, ids: seq<int>)
    requires count > 0
  {
    exists nearby, near, seeded :: InitialFrom(count, source, limit, draw, start, ids, nearby, near, seeded)
  }

  ghost predicate InitialFrom(
      count: int, source: int, limit: nat, draw: nat -> nat, start: nat, ids: seq<int>, nearby: seq<int>,
      near: seq<int>, seeded: seq<int>)
    requires count > 0
  {
    && NearbyStream(count, source, nearby) && FirstOf(source, nearby, limit / 2, near)
    && SeededStream(count, draw, start, seeded) && FirstOf(source, near + seeded, limit, ids)
  }

  lemma InitialIdsAreInitial(count: int, source: int, limit: nat, draw: nat -> nat, start: nat)
    requires 0 <= source < count
    ensures Initial(count, source, limit, draw, start, InitialIds(count, source, limit, draw, start))
  {
    hide FirstOf, Nearby, Dedup;
    var nearby := Nearby(count, source, count - 1);
    var near := Take(Dedup(source, nearby), limit / 2);
    var drawn, sweep := Drawn(count, draw, 4 * count), Sweep(count, start, count);
    NearbyAt(count, source, count - 1);
    CutIsFirstOf(source, nearby, limit / 2);
    assert near + drawn + sweep == near + (drawn + sweep);
    CutIsFirstOf(source, near + (drawn + sweep), limit);
    assert InitialFrom(count, source, limit, draw, start, InitialIds(count, source, limit, draw, start), nearby, near,
                       drawn + sweep);
  }

  /** The positions determine the list. */
  lemma InitialExactly(count: int, source: int, limit: nat, draw: nat -> nat, start: nat, ids: seq<int>)
    requires 0 <= source < count
    ensures Initial(count, source, limit, draw, start, ids) <==> ids == InitialIds(count, source, limit, draw, start)
  {
    hide FirstOf, NearbyStream, SeededStream, InitialIds;
    InitialIdsAreInitial(count, source, limit, draw, start);
    if Initial(count, source, limit, draw, start, ids) {
      var other := InitialIds(count, source, limit, draw, start);
      var a, n, s :| InitialFrom(count, source, limit, draw, start, ids, a, n, s);
      var a', n', s' :| InitialFrom(count, source, limit, draw, start, other, a', n', s');
      SameStreams(count, source, draw, start, a, a', s, s');
      FirstOnce(source, a, limit / 2, n, n');
      FirstOnce(source, n + s, limit, ids, other);
    }
  }

  lemma SameStreams(
      count: int, source: int, draw: nat -> nat, start: nat, a: seq<int>, a': seq<int>, s: seq<int>, s': seq<int>)
    requires count > 0
    requires NearbyStream(count, source, a) && NearbyStream(count, source, a')
    requires SeededStream(count, draw, start, s) && SeededStream(count, draw, start, s')
    ensures a == a' && s == s'
  {
  }

  lemma AddStep(c: Collecting, source: int, ids: seq<int>, i: nat, limit: int)
    requires i < |ids| && |AddUpTo(c, source, ids[..i], limit).ids| < limit
    ensures AddUpTo(c, source, ids[..i + 1], limit) == AddId(AddUpTo(c, source, ids[..i], limit), source, ids[i])
  {
    assert ids[..i + 1][..i] == ids[..i];
  }

  lemma AddTwo(c: Collecting, source: int, part: seq<int>, after: int, before: int, limit: int)
    requires |AddUpTo(c, source, part, limit).ids| < limit
    ensures var b := AddId(AddUpTo(c, source, part, limit), source, after);
            && AddUpTo(c, source, part + [after], limit) == b
            && (|b.ids| < limit ==> AddUpTo(c, source, part + [after, before], limit) == AddId(b, source, before))
  {
    var whole := part + [after, before];
    assert whole[..|part|] == part && whole[..|part| + 1] == part + [after] && whole[..|part| + 2] == whole;
    AddStep(c, source, whole, |part|, limit);
    if |AddId(AddUpTo(c, source, part, limit), source, after).ids| < limit {
      AddStep(c, source, whole, |part| + 1, limit);
    }
  }

  /** The table and ids of a collector are those of `c` after the nearby ids up to an offset. */
  ghost predicate NearbyDone(
      collector: CandidateIDCollector, c: Collecting, count: int, source: int, offsets: int, budget: int)
    reads collector, collector.marks
  {
    && 0 <= source < count && 0 <= offsets < count && collector.marks.Length == count
    && collector.AsCollecting() == AddUpTo(c, source, Nearby(count, source, offsets), budget)
  }

  method AddNearby(count: int, source: int, budget: int, collector: CandidateIDCollector)
    requires 0 <= source < count && collector.marks.Length == count
    modifies collector`ids, collector.marks
    ensures collector.AsCollecting() ==
            AddUpTo(old(collector.AsCollecting()), source, Nearby(count, source, count - 1), budget)
  {
    ghost var c := collector.AsCollecting();
    var offset := 1;
    while |collector.ids| < budget && offset < count
      invariant 1 <= offset <= count && NearbyDone(collector, c, count, source, offset - 1, budget)
      decreases count - offset
    {
      var full := AddBothSides(count, source, offset, budget, collector, c);
      if full {
        return;
      }
      offset := offset + 1;
    }
    NearbyStops(c, count, source, offset - 1, budget);
  }

  lemma NearbyStops(c: Collecting, count: int, source: int, offsets: nat, budget: int)
    requires 0 <= source < count && offsets < count
    requires offsets == count - 1 || |AddUpTo(c, source, Nearby(count, source, offsets), budget).ids| >= budget
    ensures AddUpTo(c, source, Nearby(count, source, offsets), budget) ==
            AddUpTo(c, source, Nearby(count, source, count - 1), budget)
  {
    if offsets < count - 1 {
      NearbyPrefix(count, source, offsets, count - 1);
      FullIgnores(c, source, Nearby(count, source, offsets), Nearby(count, source, count - 1), budget);
    }
  }

  /** One id after the source and, unless the budget is used up, one before it. */
  method AddBothSides(
      count: int, source: int, offset: int, budget: int, collector: CandidateIDCollector, ghost c: Collecting)
    returns (full: bool)
    requires 1 <= offset < count && NearbyDone(collector, c, count, source, offset - 1, budget)
    requires |collector.ids| < budget
    modifies collector`ids, collector.marks
    ensures NearbyDone(collector, c, count, source, if full then count - 1 else offset, budget)
  {
    NearbyStep(count, source, offset);
    ghost var part, whole := Nearby(count, source, offset - 1), Nearby(count, source, count - 1);
    var after, before := (source + offset) % count, (source - offset + count) % count;
    AddTwo(c, source, part, after, before, budget);
    collector.Add(after, source);
    if |collector.ids| >= budget {
      FullIgnores(c, source, part + [after], whole, budget);
      return true;
    }
    collector.Add(before, source);
    return false;
  }

  method AddDrawn(count: int, source: int, limit: int, draw: nat -> nat, collector: CandidateIDCollector)
    requires 0 <= source < count && collector.marks.Length == count
    modifies collector`ids, collector.marks
    ensures collector.AsCollecting() ==
            AddUpTo(old(collector.AsCollecting()), source, Drawn(count, draw, 4 * count), limit)
  {
    ghost var c := collector.AsCollecting();
    ghost var all := Drawn(count, draw, 4 * count);
    var attempt, attempts := 0, 4 * count;
    while |collector.ids| < limit && attempt < attempts
      invariant 0 <= attempt <= attempts
      invariant collector.AsCollecting() == AddUpTo(c, source, all[..attempt], limit)
      decreases attempts - attempt
    {
      AddStep(c, source, all, attempt, limit);
      var id := draw(attempt) % count;
      assert id == all[attempt];
      collector.Add(id, source);
      attempt := attempt + 1;
    }
    StoppedUpTo(c, source, all, attempt, limit);
  }

  /** A loop that ended at its limit or at the end of the stream has collected the stream up to the limit. */
  lemma StoppedUpTo(c: Collecting, source: int, ids: seq<int>, i: nat, limit: int)
    requires i <= |ids| && (i == |ids| || |AddUpTo(c, source, ids[..i], limit).ids| >= limit)
    ensures AddUpTo(c, source, ids[..i], limit) == AddUpTo(c, source, ids, limit)
  {
    if i == |ids| {
      assert ids[..i] == ids;
    } else {
      FullIgnores(c, source, ids[..i], ids, limit);
    }
  }

  method AddSweep(count: int, source: int, limit: int, start: nat, collector: CandidateIDCollector)
    requires 0 <= source < count && collector.marks.Length == count
    modifies collector`ids, collector.marks
    ensures collector.AsCollecting() ==
            AddUpTo(old(collector.AsCollecting()), source, Sweep(count, start, count), limit)
  {
    ghost var c := collector.AsCollecting();
    ghost var all := Sweep(count, start, count);
    var offset := 0;
    while |collector.ids| < limit && offset < count
      invariant 0 <= offset <= count
      invariant collector.AsCollecting() == AddUpTo(c, source, all[..offset], limit)
      decreases count - offset
    {
      AddStep(c, source, all, offset, limit);
      collector.Add((start % count + offset) % count, source);
      offset := offset + 1;
    }
    StoppedUpTo(c, source, all, offset, limit);
  }

  method CollectInitial(
      count: int, source: int, limit: nat, draw: nat -> nat, start: nat, collector: CandidateIDCollector)
    requires 0 <= source < count && collector.Valid() && collector.marks.Length == count
    modifies collector, collector.marks
    ensures collector.marks == old(collector.marks)
    ensures collector.AsCollecting() == InitialOn(old(collector.AsTable()), count, source, limit, draw, start)
  {
    collector.Reset(source);
    AddNearby(count, source, limit / 2, collector);
    AddDrawn(count, source, limit, draw, collector);
    AddSweep(count, source, limit, start, collector);
  }

  /** Nearby ids first, then drawn ids, then a sweep that fills whatever is missing. */
  method InitialApproxNeighborIDs(
      count: int, source: int, limit: nat, draw: nat -> nat, start: nat, collector: CandidateIDCollector)
    returns (ids: seq<int>)
    requires 0 <= source < count && collector.Valid() && collector.marks.Length == count
    modifies collector, collector.marks
    ensures collector.Valid() && collector.marks == old(collector.marks)
    ensures collector.AsTable() == InitialOn(old(collector.AsTable()), count, source, limit, draw, start).table
    ensures ids == InitialIds(count, source, limit, draw, start)
  {
    InitialOnIds(collector.AsTable(), count, source, limit, draw, start);
    CollectInitial(count, source, limit, draw, start, collector);
    ids := collector.ids;
  }
}
