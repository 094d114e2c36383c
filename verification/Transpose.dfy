/** Reverse neighbour lists in one compact backing array. */
module Transpose {
  import opened Order

  function Occurrences(ids: seq<int>, v: int): nat {
    if ids == [] then 0
    else Occurrences(ids[..|ids| - 1], v) + if ids[|ids| - 1] == v then 1 else 0
  }

  function Repeat(u: int, times: nat): (s: seq<int>)
    ensures |s| == times && forall i :: 0 <= i < times ==> s[i] == u
  {
    seq(times, _ => u)
  }

  /** Every list index u that names v, ascending, once per occurrence. */
  function Sources(lists: seq<seq<int>>, v: int): seq<int> {
    if lists == [] then []
    else
      var u := |lists| - 1;
      Sources(lists[..u], v) + Repeat(u, Occurrences(lists[u], v))
  }

  lemma {:induction false} OccurrencesMember(ids: seq<int>, v: int)
    ensures Occurrences(ids, v) > 0 <==> v in ids
    ensures Distinct(ids) ==> Occurrences(ids, v) <= 1
  {
    if ids != [] {
      var front := ids[..|ids| - 1];
      assert ids == front + [ids[|ids| - 1]];
      OccurrencesMember(front, v);
    }
  }

  lemma {:induction false} SourcesMember(lists: seq<seq<int>>, v: int, u: int)
    ensures u in Sources(lists, v) <==> 0 <= u < |lists| && v in lists[u]
  {
    if lists != [] {
      var last := |lists| - 1;
      SourcesMember(lists[..last], v, u);
      OccurrencesMember(lists[last], v);
      var r := Repeat(last, Occurrences(lists[last], v));
      assert u in r <==> u == last && |r| > 0 by {
        if u == last && |r| > 0 {
          assert r[0] == u;
        }
      }
    }
  }

  /** With distinct lists the transpose is strictly ascending. */
  lemma {:induction false} SourcesAscend(lists: seq<seq<int>>, v: int)
    requires forall u :: 0 <= u < |lists| ==> Distinct(lists[u])
    ensures var s := Sources(lists, v); forall i, j :: 0 <= i < j < |s| ==> s[i] < s[j]
  {
    if lists != [] {
      var last := |lists| - 1;
      SourcesAscend(lists[..last], v);
      OccurrencesMember(lists[last], v);
      var front := Sources(lists[..last], v);
      forall i | 0 <= i < |front|
        ensures front[i] < last
      {
        SourcesMember(lists[..last], v, front[i]);
      }
    }
  }

  predicate ListsInRange(count: int, lists: seq<seq<int>>) {
    forall u :: 0 <= u < |lists| ==> InRange(count, lists[u])
  }

  // ---------- growing one edge at a time ----------

  /** The lists before u, and the first j entries of list u. */
  function Part(lists: seq<seq<int>>, u: nat, j: nat): (p: seq<seq<int>>)
    requires u < |lists| && j <= |lists[u]|
    ensures |p| == u + 1
  {
    lists[..u] + [lists[u][..j]]
  }

  lemma PartEnds(lists: seq<seq<int>>, u: nat, v: int)
    requires u < |lists|
    ensures Sources(Part(lists, u, 0), v) == Sources(lists[..u], v)
    ensures Part(lists, u, |lists[u]|) == lists[..u + 1]
  {
    assert Part(lists, u, 0)[..u] == lists[..u];
    assert Occurrences([], v) == 0;
    assert lists[u][..|lists[u]|] == lists[u];
  }

  lemma PartStep(lists: seq<seq<int>>, u: nat, j: nat, v: int)
    requires u < |lists| && j < |lists[u]|
    ensures Sources(Part(lists, u, j + 1), v) ==
            Sources(Part(lists, u, j), v) + if lists[u][j] == v then [u] else []
  {
    var a, b := Part(lists, u, j), Part(lists, u, j + 1);
    assert a[..u] == lists[..u] && b[..u] == lists[..u];
    assert lists[u][..j + 1][..j] == lists[u][..j];
    var n := Occurrences(lists[u][..j], v);
    assert Repeat(u, n + 1) == Repeat(u, n) + [u];
  }

  lemma {:induction false} OccurrencesPrefix(ids: seq<int>, j: nat, v: int)
    requires j <= |ids|
    ensures Occurrences(ids[..j], v) <= Occurrences(ids, v)
  {
    if j == |ids| {
      assert ids[..j] == ids;
    } else {
      assert ids[..|ids| - 1][..j] == ids[..j];
      OccurrencesPrefix(ids[..|ids| - 1], j, v);
    }
  }

  lemma {:induction false} SourcesPrefix(lists: seq<seq<int>>, u: nat, v: int)
    requires u <= |lists|
    ensures Sources(lists[..u], v) <= Sources(lists, v)
  {
    if u == |lists| {
      assert lists[..u] == lists;
    } else {
      assert lists[..|lists| - 1][..u] == lists[..u];
      SourcesPrefix(lists[..|lists| - 1], u, v);
    }
  }

  lemma PartPrefix(lists: seq<seq<int>>, u: nat, j: nat, v: int)
    requires u < |lists| && j <= |lists[u]|
    ensures Sources(Part(lists, u, j), v) <= Sources(lists, v)
  {
    SourcesPrefix(lists, u + 1, v);
    OccurrencesPrefix(lists[u], j, v);
    assert lists[..u + 1][..u] == lists[..u] == Part(lists, u, j)[..u];
    var n, m := Occurrences(lists[u][..j], v), Occurrences(lists[u], v);
    assert Repeat(u, n) <= Repeat(u, m);
    assert Sources(lists[..u + 1], v) == Sources(lists[..u], v) + Repeat(u, m);
    assert Sources(Part(lists, u, j), v) == Sources(lists[..u], v) + Repeat(u, n);
  }

  // ---------- where each list starts ----------

  /** How many entries of all reverse lists come before list v. */
  function Start(lists: seq<seq<int>>, v: nat): nat {
    if v == 0 then 0 else Start(lists, v - 1) + |Sources(lists, v - 1)|
  }

  lemma {:induction false} StartOrder(lists: seq<seq<int>>, v: nat, w: nat)
    requires v < w
    ensures Start(lists, v) + |Sources(lists, v)| <= Start(lists, w)
  {
    if v < w - 1 {
      StartOrder(lists, v, w - 1);
    }
  }

  function EdgeCount(lists: seq<seq<int>>): nat {
    if lists == [] then 0 else EdgeCount(lists[..|lists| - 1]) + |lists[|lists| - 1]|
  }

  function OccurrencesBelow(ids: seq<int>, n: nat): nat {
    if n == 0 then 0 else OccurrencesBelow(ids, n - 1) + Occurrences(ids, n - 1)
  }

  lemma {:induction false} OccurrencesBelowEmpty(n: nat)
    ensures OccurrencesBelow([], n) == 0
  {
    if n > 0 {
      OccurrencesBelowEmpty(n - 1);
    }
  }

  lemma {:induction false} OccurrencesBelowStep(ids: seq<int>, x: int, n: nat)
    ensures OccurrencesBelow(ids + [x], n) == OccurrencesBelow(ids, n) + if 0 <= x < n then 1 else 0
  {
    if n > 0 {
      OccurrencesBelowStep(ids, x, n - 1);
      assert (ids + [x])[..|ids|] == ids;
    }
  }

  lemma {:induction false} OccurrencesTotal(ids: seq<int>, n: nat)
    requires InRange(n, ids)
    ensures OccurrencesBelow(ids, n) == |ids|
  {
    if ids == [] {
      OccurrencesBelowEmpty(n);
    } else {
      var m := |ids| - 1;
      OccurrencesTotal(ids[..m], n);
      OccurrencesBelowStep(ids[..m], ids[m], n);
      assert ids == ids[..m] + [ids[m]];
    }
  }

  lemma {:induction false} StartSplit(lists: seq<seq<int>>, n: nat)
    requires lists != []
    ensures Start(lists, n) == Start(lists[..|lists| - 1], n) + OccurrencesBelow(lists[|lists| - 1], n)
  {
    if n > 0 {
      StartSplit(lists, n - 1);
    }
  }

  /** The reverse lists hold exactly one entry per edge. */
  lemma {:induction false} StartTotal(lists: seq<seq<int>>, n: nat)
    requires ListsInRange(n, lists)
    ensures Start(lists, n) == EdgeCount(lists)
  {
    if lists == [] {
      StartOfNone(n);
    } else {
      var last := |lists| - 1;
      StartTotal(lists[..last], n);
      StartSplit(lists, n);
      OccurrencesTotal(lists[last], n);
    }
  }

  lemma {:induction false} StartOfNone(n: nat)
    ensures Start([], n) == 0
  {
    if n > 0 {
      StartOfNone(n - 1);
    }
  }

  // ---------- the counting, prefix-sum and scatter loops ----------

  /** offsets[v + 1] counts the entries of reverse list v. */
  ghost predicate Counted(offsets: seq<nat>, lists: seq<seq<int>>) {
    && offsets != [] && offsets[0] == 0
    && forall w :: 1 <= w < |offsets| ==> offsets[w] == |Sources(lists, w - 1)|
  }

  lemma CountStep(before: seq<nat>, after: seq<nat>, lists: seq<seq<int>>, u: nat, j: nat)
    requires u < |lists| && j < |lists[u]| && Counted(before, Part(lists, u, j))
    requires 0 <= lists[u][j] < |before| - 1
    requires after == before[lists[u][j] + 1 := before[lists[u][j] + 1] + 1]
    ensures Counted(after, Part(lists, u, j + 1))
  {
    forall w | 1 <= w < |after|
      ensures after[w] == |Sources(Part(lists, u, j + 1), w - 1)|
    {
      PartStep(lists, u, j, w - 1);
    }
  }

  lemma CountEnds(offsets: seq<nat>, lists: seq<seq<int>>, u: nat)
    requires u < |lists|
    ensures Counted(offsets, lists[..u]) ==> Counted(offsets, Part(lists, u, 0))
    ensures Counted(offsets, Part(lists, u, |lists[u]|)) ==> Counted(offsets, lists[..u + 1])
  {
    forall v
      ensures Sources(Part(lists, u, 0), v) == Sources(lists[..u], v)
    {
      PartEnds(lists, u, v);
    }
    PartEnds(lists, u, 0);
  }

  method CountOffsets(lists: seq<seq<int>>, count: nat) returns (offsets: array<nat>)
    requires ListsInRange(count, lists)
    ensures fresh(offsets) && offsets.Length == count + 1 && Counted(offsets[..], lists)
  {
    offsets := new nat[count + 1](_ => 0);
    for u := 0 to |lists|
      invariant Counted(offsets[..], lists[..u])
    {
      CountEnds(offsets[..], lists, u);
      for j := 0 to |lists[u]|
        invariant Counted(offsets[..], Part(lists, u, j))
      {
        ghost var before := offsets[..];
        assert InRange(count, lists[u]);
        offsets[lists[u][j] + 1] := offsets[lists[u][j] + 1] + 1;
        CountStep(before, offsets[..], lists, u, j);
      }
      CountEnds(offsets[..], lists, u);
    }
    assert lists[..|lists|] == lists;
  }

  ghost predicate Started(offsets: seq<nat>, lists: seq<seq<int>>) {
    forall v :: 0 <= v < |offsets| ==> offsets[v] == Start(lists, v)
  }

  method PrefixSums(offsets: array<nat>, ghost lists: seq<seq<int>>)
    requires Counted(offsets[..], lists)
    modifies offsets
    ensures Started(offsets[..], lists)
  {
    assert offsets.Length == |offsets[..]|;
    assert offsets[0] == offsets[..][0];
    forall w | 1 <= w < offsets.Length
      ensures offsets[w] == |Sources(lists, w - 1)|
    {
      assert offsets[w] == offsets[..][w];
    }
    for v := 1 to offsets.Length
      invariant forall w :: 0 <= w < v ==> offsets[w] == Start(lists, w)
      invariant forall w :: v <= w < offsets.Length ==> offsets[w] == |Sources(lists, w - 1)|
    {
      assert Start(lists, v) == Start(lists, v - 1) + |Sources(lists, v - 1)|;
      offsets[v] := offsets[v] + offsets[v - 1];
    }
  }

  /** List v of the partial transpose sits in its slot of the storage. */
  ghost predicate Placed(storage: seq<int>, lists: seq<seq<int>>, part: seq<seq<int>>, v: nat) {
    Occupies(storage, Start(lists, v), Sources(part, v))
  }

  function PositionOf(lists: seq<seq<int>>, part: seq<seq<int>>, v: nat): nat {
    Start(lists, v) + |Sources(part, v)|
  }

  /** positions[v] is the next free cell of list v. */
  ghost predicate Scattered(
      storage: seq<int>, positions: seq<nat>, lists: seq<seq<int>>, part: seq<seq<int>>)
  {
    && |storage| == Start(lists, |positions|)
    && (forall v :: 0 <= v < |positions| ==> positions[v] == PositionOf(lists, part, v))
    && (forall v :: 0 <= v < |positions| ==> Placed(storage, lists, part, v))
  }

  lemma RoomFor(lists: seq<seq<int>>, u: nat, j: nat, count: nat)
    requires u < |lists| && j < |lists[u]| && 0 <= lists[u][j] < count
    ensures var v := lists[u][j];
            Start(lists, v) + |Sources(Part(lists, u, j), v)| < Start(lists, v) + |Sources(lists, v)| <=
            Start(lists, count)
  {
    var v := lists[u][j];
    PartStep(lists, u, j, v);
    PartPrefix(lists, u, j + 1, v);
    StartOrder(lists, v, count);
  }

  ghost predicate Occupies(storage: seq<int>, base: nat, s: seq<int>) {
    base + |s| <= |storage| && storage[base..base + |s|] == s
  }

  lemma WriteElsewhere(storage: seq<int>, base: nat, s: seq<int>, p: nat, x: int)
    requires Occupies(storage, base, s) && p < |storage| && (p < base || base + |s| <= p)
    ensures Occupies(storage[p := x], base, s)
  {
  }

  lemma WriteNext(storage: seq<int>, base: nat, s: seq<int>, x: int)
    requires Occupies(storage, base, s) && base + |s| < |storage|
    ensures Occupies(storage[base + |s| := x], base, s + [x])
  {
    var t := storage[base + |s| := x];
    assert t[base..base + |s| + 1] == t[base..base + |s|] + [x];
  }

  /** A write into the slot of list y leaves every other list alone. */
  lemma PlacedElsewhere(
      storage: seq<int>, lists: seq<seq<int>>, u: nat, j: nat, v: nat, p: nat, x: int)
    requires u < |lists| && j < |lists[u]| && 0 <= lists[u][j] && v != lists[u][j]
    requires Placed(storage, lists, Part(lists, u, j), v)
    requires p < |storage| && p == Start(lists, lists[u][j]) + |Sources(Part(lists, u, j), lists[u][j])|
    ensures Placed(storage[p := x], lists, Part(lists, u, j + 1), v)
  {
    PartStep(lists, u, j, v);
    assert p < Start(lists, v) || Start(lists, v) + |Sources(Part(lists, u, j), v)| <= p by {
      SlotsApart(lists, u, j, v);
    }
    WriteElsewhere(storage, Start(lists, v), Sources(Part(lists, u, j), v), p, x);
  }

  lemma SlotsApart(lists: seq<seq<int>>, u: nat, j: nat, v: nat)
    requires u < |lists| && j < |lists[u]| && 0 <= lists[u][j] && v != lists[u][j]
    ensures var p := Start(lists, lists[u][j]) + |Sources(Part(lists, u, j), lists[u][j])|;
            p < Start(lists, v) || Start(lists, v) + |Sources(Part(lists, u, j), v)| <= p
  {
    var y := lists[u][j];
    PartPrefix(lists, u, j, v);
    RoomFor(lists, u, j, y + 1);
    if v < y {
      StartOrder(lists, v, y);
    } else {
      StartOrder(lists, y, v);
    }
  }

  lemma ScatterAt(storage: seq<int>, lists: seq<seq<int>>, u: nat, j: nat, v: nat, p: nat)
    requires u < |lists| && j < |lists[u]| && 0 <= lists[u][j]
    requires Placed(storage, lists, Part(lists, u, j), v)
    requires p < |storage| && p == Start(lists, lists[u][j]) + |Sources(Part(lists, u, j), lists[u][j])|
    ensures Placed(storage[p := u], lists, Part(lists, u, j + 1), v)
  {
    if v == lists[u][j] {
      PartStep(lists, u, j, v);
      WriteNext(storage, Start(lists, v), Sources(Part(lists, u, j), v), u);
    } else {
      PlacedElsewhere(storage, lists, u, j, v, p, u);
    }
  }

  lemma ScatterStep(storage: seq<int>, positions: seq<nat>, lists: seq<seq<int>>, u: nat, j: nat)
    requires u < |lists| && j < |lists[u]| && 0 <= lists[u][j] < |positions|
    requires Scattered(storage, positions, lists, Part(lists, u, j))
    ensures var v := lists[u][j];
            && positions[v] < |storage|
            && Scattered(storage[positions[v] := u], positions[v := positions[v] + 1], lists, Part(lists, u, j + 1))
  {
    var y := lists[u][j];
    RoomFor(lists, u, j, |positions|);
    var p := positions[y];
    var next := positions[y := p + 1];
    var after, part := storage[p := u], Part(lists, u, j + 1);
    forall v | 0 <= v < |positions|
      ensures Placed(after, lists, part, v)
    {
      ScatterAt(storage, lists, u, j, v, p);
    }
    forall v | 0 <= v < |next|
      ensures next[v] == PositionOf(lists, part, v)
    {
      PartStep(lists, u, j, v);
      assert positions[v] == PositionOf(lists, Part(lists, u, j), v);
    }
  }

  lemma ScatterEnds(storage: seq<int>, positions: seq<nat>, lists: seq<seq<int>>, u: nat)
    requires u < |lists|
    ensures Scattered(storage, positions, lists, lists[..u]) ==> Scattered(storage, positions, lists, Part(lists, u, 0))
    ensures Scattered(storage, positions, lists, Part(lists, u, |lists[u]|)) ==>
              Scattered(storage, positions, lists, lists[..u + 1])
  {
    PartEnds(lists, u, 0);
    if Scattered(storage, positions, lists, lists[..u]) {
      forall v | 0 <= v < |positions|
        ensures positions[v] == PositionOf(lists, Part(lists, u, 0), v)
        ensures Placed(storage, lists, Part(lists, u, 0), v)
      {
        PartEnds(lists, u, v);
        assert Placed(storage, lists, lists[..u], v);
      }
    }
  }

  lemma {:induction false} ScatterStart(storage: seq<int>, positions: seq<nat>, lists: seq<seq<int>>)
    requires |storage| == Start(lists, |positions|)
    requires forall v :: 0 <= v < |positions| ==> positions[v] == Start(lists, v)
    ensures Scattered(storage, positions, lists, [])
  {
    forall v | 0 <= v < |positions|
      ensures Placed(storage, lists, [], v)
    {
      SlotInStorage(lists, v, |positions|);
    }
  }

  /** Write one source behind the reverse list of its neighbour. */
  method ScatterEdge(storage: array<int>, positions: array<nat>, lists: seq<seq<int>>, u: nat, j: nat)
    requires u < |lists| && j < |lists[u]| && 0 <= lists[u][j] < positions.Length
    requires Scattered(storage[..], positions[..], lists, Part(lists, u, j))
    modifies storage, positions
    ensures Scattered(storage[..], positions[..], lists, Part(lists, u, j + 1))
  {
    hide Scattered, Part;
    ScatterStep(storage[..], positions[..], lists, u, j);
    var v := lists[u][j];
    var position := positions[v];
    storage[position] := u;
    positions[v] := positions[v] + 1;
  }

  /** Write one source behind the reverse lists of all its neighbours. */
  method ScatterSource(storage: array<int>, positions: array<nat>, lists: seq<seq<int>>, u: nat)
    requires u < |lists| && InRange(positions.Length, lists[u])
    requires Scattered(storage[..], positions[..], lists, lists[..u])
    modifies storage, positions
    ensures Scattered(storage[..], positions[..], lists, lists[..u + 1])
  {
    hide Scattered;
    ScatterEnds(storage[..], positions[..], lists, u);
    for j := 0 to |lists[u]|
      invariant Scattered(storage[..], positions[..], lists, Part(lists, u, j))
    {
      ScatterEdge(storage, positions, lists, u, j);
    }
    ScatterEnds(storage[..], positions[..], lists, u);
  }

  /** The storage after the scatter loop is all reverse lists, one after another. */
  method Scatter(lists: seq<seq<int>>, offsets: array<nat>, count: nat) returns (storage: array<int>)
    requires ListsInRange(count, lists)
    requires offsets.Length == count + 1 && Started(offsets[..], lists)
    ensures fresh(storage) && storage.Length == Start(lists, count)
    ensures forall v :: 0 <= v < count ==> Placed(storage[..], lists, lists, v)
  {
    assert offsets[..][count] == offsets[count];
    storage := new int[offsets[count]];
    var positions := new nat[count](v requires 0 <= v < count reads offsets => offsets[v]);
    forall v | 0 <= v < count
      ensures positions[v] == Start(lists, v)
    {
      assert offsets[v] == offsets[..][v];
    }
    ScatterStart(storage[..], positions[..], lists);
    assert lists[..0] == [];
    hide Start, Placed;
    for u := 0 to |lists|
      invariant Scattered(storage[..], positions[..], lists, lists[..u])
    {
      ScatterSource(storage, positions, lists, u);
    }
    assert lists[..|lists|] == lists;
  }

  /** The reverse lists: exactly the transpose, as slices that tile the storage. */
  method ReverseCandidateIDs(lists: seq<seq<int>>, count: nat) returns (reverse: seq<seq<int>>)
    requires ListsInRange(count, lists)
    ensures |reverse| == count && forall v :: 0 <= v < count ==> reverse[v] == Sources(lists, v)
  {
    var offsets := CountOffsets(lists, count);
    PrefixSums(offsets, lists);
    var storage := Scatter(lists, offsets, count);
    forall v | 0 <= v < count
      ensures Slot(offsets[..], storage.Length, v)
    {
      SlotInStorage(lists, v, count);
    }
    reverse := Slices(storage, offsets, count);
    forall v | 0 <= v < count
      ensures reverse[v] == Sources(lists, v)
    {
      assert Placed(storage[..], lists, lists, v);
      assert Slot(offsets[..], storage.Length, v);
      assert IsSlice(reverse[v], storage[..], offsets[..], v);
      assert reverse[v] == storage[..][Start(lists, v)..Start(lists, v + 1)];
    }
  }

  ghost predicate Slot(offsets: seq<nat>, size: nat, v: nat) {
    v + 1 < |offsets| && offsets[v] <= offsets[v + 1] <= size
  }

  ghost predicate IsSlice(s: seq<int>, storage: seq<int>, offsets: seq<nat>, v: nat) {
    Slot(offsets, |storage|, v) && s == storage[offsets[v]..offsets[v + 1]]
  }

  method Slices(storage: array<int>, offsets: array<nat>, count: nat) returns (reverse: seq<seq<int>>)
    requires offsets.Length == count + 1
    requires forall v :: 0 <= v < count ==> Slot(offsets[..], storage.Length, v)
    ensures |reverse| == count
    ensures forall v :: 0 <= v < count ==> IsSlice(reverse[v], storage[..], offsets[..], v)
  {
    reverse := [];
    for v := 0 to count
      invariant |reverse| == v
      invariant forall w :: 0 <= w < v ==> IsSlice(reverse[w], storage[..], offsets[..], w)
    {
      assert Slot(offsets[..], storage.Length, v);
      reverse := reverse + [storage[offsets[v]..offsets[v + 1]]];
    }
  }

  lemma SlotInStorage(lists: seq<seq<int>>, v: nat, count: nat)
    requires v < count
    ensures Start(lists, v) <= Start(lists, v + 1) <= Start(lists, count)
  {
    StartOrder(lists, v, v + 1);
    if v + 1 < count {
      StartOrder(lists, v + 1, count);
    }
  }
}
