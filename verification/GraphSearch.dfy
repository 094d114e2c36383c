/** SEARCH-LAYER over reusable scratch: a stamped visited table and two heaps. */
module GraphSearch {
  import opened Order
  import opened Sorting
  import opened Heaps
  import opened Beams
  import opened MarkTables
  import opened TableBeams

  class Scratch {
    var visited: array<uint32>
    var length: nat
    var visitMark: uint32
    const candidates: Heap
    const results: Heap

    constructor ()
      ensures Valid() && fresh(visited) && fresh(candidates) && fresh(results)
    {
      visited := new uint32[0];
      length := 0;
      visitMark := 0;
      candidates := new Heap(NearestFirst);
      results := new Heap(FarthestFirst);
    }

    ghost predicate Valid()
      reads this, visited, candidates, results
    {
      && MarkTables.Valid(AsTable())
      && candidates != results
      && candidates.priority == NearestFirst && results.priority == FarthestFirst
    }

    ghost function AsTable(): Table
      reads this, visited
    {
      Table(visited[..], length, visitMark)
    }

    method Reserve(count: nat, ef: int)
      requires Valid()
      modifies this, candidates, results
      ensures Valid() && (visited == old(visited) || fresh(visited))
      ensures AsTable() == ReserveTable(old(AsTable()), count)
      ensures candidates.items == [] && results.items == []
    {
      if visited.Length < count {
        visited := new uint32[count](_ => 0);
        length := count;
        visitMark := 0;
        assert visited[..] == Zeros(count);
      } else {
        length := count;
      }
      candidates.items := [];
      results.items := [];
    }

    method Reset(count: nat, ef: int)
      requires Valid()
      modifies this, visited, candidates, results
      ensures Valid() && (visited == old(visited) || fresh(visited))
      ensures AsTable() == ResetTable(ReserveTable(old(AsTable()), count))
      ensures candidates.items == [] && results.items == []
    {
      Reserve(count, ef);
      StepRefines(AsTable(), MarkTables.Reset);
      visitMark := (visitMark + 1) % 0x1_0000_0000;
      if visitMark == 0 {
        forall i | 0 <= i < visited.Length {
          visited[i] := 0;
        }
        visitMark := 1;
        assert visited[..] == Zeros(visited.Length);
      }
    }

    predicate IsVisited(id: nat)
      requires id < length <= visited.Length
      reads this, visited
    {
      visited[id] == visitMark
    }

    method MarkVisited(id: nat)
      requires Valid() && id < length
      modifies visited
      ensures Valid()
      ensures AsTable() == MarkTable(old(AsTable()), id)
    {
      StepRefines(AsTable(), Mark(id));
      visited[id] := visitMark;
    }

    ghost predicate HoldsHeaps(frontier: seq<Result>, best: seq<Result>)
      reads this, candidates, results
    {
      && candidates.Valid() && results.Valid()
      && multiset(candidates.items) == multiset(frontier)
      && multiset(results.items) == multiset(best)
    }

    /** The scratch is in the middle of a search over n nodes: same table, same heap contents. */
    ghost predicate Holds(n: nat, s: Searching)
      reads this, visited, candidates, results
    {
      Valid() && AsTable() == s.table && Sees(n, s) && HoldsHeaps(s.beam.frontier, s.beam.best)
    }

    /** The scratch after a search: its table, and the retained results. */
    ghost predicate HoldsAnswer(s: Searching)
      reads this, visited, candidates, results
    {
      Valid() && AsTable() == s.table && results.Valid() && multiset(results.items) == multiset(s.beam.best)
    }

    /** Push the result on both heaps, or swap it for the worst retained one, or drop it. */
    method Retain(result: Result, ef: int, ghost b: Beam, ghost c: Beam)
      requires ef > 0 && Valid() && HoldsHeaps(b.frontier, b.best)
      requires Sorted(b.best) && |b.best| <= ef && Keeps(ef, b, c, result)
      modifies candidates, results
      ensures HoldsHeaps(c.frontier, c.best)
    {
      SameMembers(results.items, b.best);
      if |results.items| < ef {
        candidates.Push(result);
        results.Push(result);
        return;
      }
      RootOfSorted(FarthestFirst, results.items, b.best);
      if Better(result, results.items[0]) {
        candidates.Push(result);
        results.ReplaceWorst(result);
      }
    }

    /** Visit one unseen node. */
    method Visit(n: nat, q: int -> real, ef: int, id: int, ghost s: Searching)
      requires ef > 0 && Holds(n, s) && Core(n, q, ef, s.beam) && UnseenOn(n, s, id)
      modifies visited, candidates, results
      ensures Holds(n, AdmitOn(q, ef, s, id))
    {
      ghost var b := s.beam;
      AdmitSees(n, q, ef, s, id);
      MarkVisited(id);
      var result := Result(id, q(id));
      BestSorted(Tag(q, b.visited), ef);
      AdmitKeeps(n, q, ef, b, id);
      Retain(result, ef, b, Admit(q, ef, b, id));
    }

    /** Visit the unseen in-range ids of an entry or neighbour list. */
    method VisitEach(n: nat, q: int -> real, ef: int, ids: seq<int>, ghost s: Searching)
      requires ef > 0 && Holds(n, s) && Core(n, q, ef, s.beam)
      modifies visited, candidates, results
      ensures Holds(n, VisitAllOn(n, q, ef, s, ids))
    {
      hide VisitAllOn, Core, HoldsHeaps;
      VisitNone(n, q, ef, s, ids);
      for i := 0 to |ids|
        invariant Holds(n, VisitAllOn(n, q, ef, s, ids[..i]))
      {
        ghost var c := VisitAllOn(n, q, ef, s, ids[..i]);
        VisitOnStep(n, q, ef, s, ids, i);
        if ids[i] < 0 || ids[i] >= n || IsVisited(ids[i]) {
          continue;
        }
        Visit(n, q, ef, ids[i], c);
      }
      assert ids[..|ids|] == ids;
    }

    /** The retained results, nearest first, cut to `limit`; the heap is sorted in place. */
    method SortedResults(limit: int) returns (sorted: seq<Result>)
      modifies results
      ensures sorted == Take(Sort(old(results.items)), Limit(limit, |old(results.items)|))
      ensures results.items == Sort(old(results.items))
    {
      var cut := if limit < 0 || limit > |results.items| then |results.items| else limit;
      SortSorted(results.items);
      ghost var expected := Sort(results.items);
      var all := results.SortedItems();
      SortedUnique(all, expected);
      sorted := all[..cut];
    }
  }

  /** A negative limit means no limit. */
  function Limit(limit: int, available: nat): int {
    if limit < 0 then available else limit
  }

  /** What visiting does to the two heaps, case by case. */
  ghost predicate Keeps(ef: int, b: Beam, c: Beam, r: Result)
    requires |b.best| <= ef && ef > 0
  {
    if |b.best| < ef then
      && multiset(c.frontier) == multiset(b.frontier) + multiset{r}
      && multiset(c.best) == multiset(b.best) + multiset{r}
    else if Better(r, b.best[ef - 1]) then
      && multiset(c.frontier) == multiset(b.frontier) + multiset{r}
      && multiset(c.best) == multiset(b.best) - multiset{b.best[ef - 1]} + multiset{r}
    else
      c.frontier == b.frontier && c.best == b.best
  }

  lemma AdmitKeeps(n: nat, q: int -> real, ef: int, b: Beam, id: int)
    requires ef > 0 && Core(n, q, ef, b) && Unseen(n, b, id) && Sorted(b.best) && |b.best| <= ef
    ensures Keeps(ef, b, Admit(q, ef, b, id), Result(id, q(id)))
  {
    var r := Result(id, q(id));
    if |b.best| < ef {
      OfferRoom(b.best, r, ef);
    } else {
      OfferFull(b.best, r, ef);
      MultisetTail(b.best);
      InsertMember(b.best[..ef - 1], r, r);
      NotKept(n, q, ef, b, r);
    }
  }

  lemma NotKept(n: nat, q: int -> real, ef: int, b: Beam, r: Result)
    requires Core(n, q, ef, b) && r.id !in b.visited
    ensures r !in b.best
  {
    if r in b.best {
      BestMember(Tag(q, b.visited), ef, r);
      TagMember(q, b.visited, r);
    }
  }

  /** The heap of candidates gives up the head of C, and nothing else changes. */
  method PopNearest(n: nat, q: int -> real, ef: int, scratch: Scratch, ghost s: Searching) returns (current: Result)
    requires scratch.Holds(n, s) && Core(n, q, ef, s.beam) && |scratch.candidates.items| > 0
    modifies scratch.candidates
    ensures s.beam.frontier != [] && current == s.beam.frontier[0]
    ensures scratch.Holds(n, PopOn(s))
  {
    hide Core, IsMarked;
    ghost var frontier := s.beam.frontier;
    SameMembers(scratch.candidates.items, frontier);
    FrontierSorted(n, q, ef, s.beam);
    RootOfSorted(NearestFirst, scratch.candidates.items, frontier);
    PopSees(n, s);
    current := scratch.candidates.Pop();
    MultisetTail(frontier);
  }

  lemma FrontierSorted(n: int, q: int -> real, ef: int, b: Beam)
    requires Core(n, q, ef, b)
    ensures Sorted(b.frontier)
  {
  }

  /** The loop is left when the nearest candidate is farther than the worst result. */
  method IsFarther(n: nat, q: int -> real, ef: int, scratch: Scratch, current: Result, ghost s: Searching)
    returns (done: bool)
    requires Core(n, q, ef, s.beam) && s.beam.frontier != [] && current == s.beam.frontier[0]
    requires scratch.Holds(n, PopOn(s))
    ensures done <==> Stops(s.beam)
  {
    hide Core, Sees;
    WorstIsRoot(n, q, ef, s.beam, scratch.results);
    return |scratch.results.items| > 0 && current.distance > scratch.results.items[0].distance;
  }

  /** Pop the nearest candidate and, unless it is farther than the worst result, expand it. */
  method ExpandNext(adjacency: seq<seq<int>>, q: int -> real, ef: int, scratch: Scratch, ghost s: Searching)
    returns (done: bool)
    requires ef > 0 && scratch.Holds(|adjacency|, s) && Inv(adjacency, q, ef, s.beam)
    requires |scratch.candidates.items| > 0
    modifies scratch.visited, scratch.candidates, scratch.results
    ensures s.beam.frontier != [] && 0 <= s.beam.frontier[0].id < |adjacency| && (done <==> Stops(s.beam))
    ensures if done then scratch.HoldsAnswer(s) else scratch.Holds(|adjacency|, ExpandOn(adjacency, q, ef, s))
  {
    hide VisitAllOn, Core, Closed, Sees, Stops;
    var n := |adjacency|;
    var current := PopNearest(n, q, ef, scratch, s);
    ExpandKeepsInv(adjacency, q, ef, s.beam);
    done := IsFarther(n, q, ef, scratch, current, s);
    if !done {
      PopKeepsCore(n, q, ef, s.beam);
      scratch.VisitEach(n, q, ef, adjacency[current.id], PopOn(s));
    }
  }

  /** Pop C until it is empty or its nearest element is farther than the worst result. */
  method ExpandAll(adjacency: seq<seq<int>>, q: int -> real, ef: int, scratch: Scratch, ghost start: Searching)
    requires ef > 0 && scratch.Holds(|adjacency|, start) && Inv(adjacency, q, ef, start.beam)
    modifies scratch.visited, scratch.candidates, scratch.results
    ensures scratch.HoldsAnswer(RunOn(adjacency, q, ef, start))
  {
    hide RunOn, ExpandOn, Sees, Inv, Stops;
    ghost var s := start;
    while |scratch.candidates.items| > 0
      invariant scratch.Holds(|adjacency|, s) && Inv(adjacency, q, ef, s.beam)
      invariant RunOn(adjacency, q, ef, s) == RunOn(adjacency, q, ef, start)
      decreases Left(adjacency, s)
    {
      LeftNatural(adjacency, q, ef, s);
      var done := ExpandNext(adjacency, q, ef, scratch, s);
      if done {
        RunOnStops(adjacency, q, ef, s);
        return;
      }
      RunOnStep(adjacency, q, ef, s);
      s := ExpandOn(adjacency, q, ef, s);
    }
    EmptyFrontier(scratch.candidates.items, s.beam);
    RunOnStops(adjacency, q, ef, s);
  }

  lemma LeftNatural(adj: seq<seq<int>>, q: int -> real, ef: int, s: Searching)
    requires Inv(adj, q, ef, s.beam)
    ensures Left(adj, s) >= 0
  {
    VisitedBound(|adj|, q, ef, s.beam);
  }

  lemma EmptyFrontier(items: seq<Result>, b: Beam)
    requires multiset(items) == multiset(b.frontier) && items == []
    ensures Stops(b)
  {
    SameMembers(items, b.frontier);
  }

  lemma WorstIsRoot(n: nat, q: int -> real, ef: int, b: Beam, results: Heap)
    requires Core(n, q, ef, b) && results.Valid() && results.priority == FarthestFirst
    requires multiset(results.items) == multiset(b.best)
    ensures |results.items| == |b.best|
    ensures b.best != [] ==> results.items[0] == b.best[|b.best| - 1]
  {
    SameMembers(results.items, b.best);
    BestSorted(Tag(q, b.visited), ef);
    if b.best != [] {
      RootOfSorted(FarthestFirst, results.items, b.best);
    }
  }

  /**
   * SEARCH-LAYER; the answer is left in the result heap and never depends on earlier uses of the scratch. The
   * visited table ends up as the search over tables leaves it.
   */
  method GraphSearchLayerFromEntriesInto(
      adjacency: seq<seq<int>>, q: int -> real, entries: seq<int>, ef: int, scratch: Scratch) returns (found: bool)
    requires scratch.Valid()
    modifies scratch, scratch.visited, scratch.candidates, scratch.results
    ensures scratch.Valid() && (scratch.visited == old(scratch.visited) || fresh(scratch.visited))
    ensures scratch.AsTable() == SearchOn(adjacency, q, entries, ef, old(scratch.AsTable())).table
    ensures found <==> Search(adjacency, q, entries, ef).best != []
    ensures found ==> scratch.results.Valid() &&
                      multiset(scratch.results.items) == multiset(Search(adjacency, q, entries, ef).best)
  {
    ghost var t := scratch.AsTable();
    SearchOnIsSearch(adjacency, q, entries, ef, t);
    if ef <= 0 || |entries| == 0 {
      return false;
    }
    found := SearchFromEntries(adjacency, q, entries, ef, scratch);
  }

  method SearchFromEntries(
      adjacency: seq<seq<int>>, q: int -> real, entries: seq<int>, ef: int, scratch: Scratch) returns (found: bool)
    requires scratch.Valid() && ef > 0 && entries != []
    modifies scratch, scratch.visited, scratch.candidates, scratch.results
    ensures scratch.visited == old(scratch.visited) || fresh(scratch.visited)
    ensures scratch.Valid()
    ensures scratch.AsTable() == SearchOn(adjacency, q, entries, ef, old(scratch.AsTable())).table
    ensures var best := SearchOn(adjacency, q, entries, ef, old(scratch.AsTable())).beam.best;
            && (found <==> best != [])
            && (found ==> scratch.results.Valid() && multiset(scratch.results.items) == multiset(best))
  {
    var count := |adjacency|;
    ghost var t := scratch.AsTable();
    EnterInv(adjacency, q, entries, ef);
    EmptyInv(adjacency, q, ef);
    StartSees(t, count);
    scratch.Reset(count, ef);
    scratch.VisitEach(count, q, ef, entries, StartOn(t, count));
    ghost var s := EnterOn(adjacency, q, entries, ef, t);
    SameMembers(scratch.results.items, s.beam.best);
    if |scratch.results.items| == 0 {
      NothingEntered(adjacency, q, ef, s.beam);
      return false;
    }
    ExpandAll(adjacency, q, ef, scratch, s);
    SameMembers(scratch.results.items, RunOn(adjacency, q, ef, s).beam.best);
    return |scratch.results.items| > 0;
  }

  lemma HeadIn(s: seq<Result>)
    ensures s != [] ==> s[0] in s
  {
  }

  /** No valid entry means no candidates and no results. */
  lemma NothingEntered(adj: seq<seq<int>>, q: int -> real, ef: int, b: Beam)
    requires ef > 0 && Core(|adj|, q, ef, b) && b.best == []
    ensures b.frontier == []
  {
    assert |Tag(q, b.visited)| == 0;
    HeadIn(b.frontier);
  }

  method GraphSearchLayerFromEntries(
      adjacency: seq<seq<int>>, q: int -> real, entries: seq<int>, ef: int, scratch: Scratch)
    returns (results: seq<Result>)
    requires scratch.Valid()
    modifies scratch, scratch.visited, scratch.candidates, scratch.results
    ensures scratch.Valid() && (scratch.visited == old(scratch.visited) || fresh(scratch.visited))
    ensures scratch.AsTable() == SearchOn(adjacency, q, entries, ef, old(scratch.AsTable())).table
    ensures results == Search(adjacency, q, entries, ef).best
  {
    var found := GraphSearchLayerFromEntriesInto(adjacency, q, entries, ef, scratch);
    if !found {
      return [];
    }
    SortedAnswer(adjacency, q, entries, ef, scratch.results.items);
    results := scratch.SortedResults(|scratch.results.items|);
  }

  method GraphSearchLayerTopK(
      adjacency: seq<seq<int>>, q: int -> real, entry: int, ef: int, k: int, scratch: Scratch)
    returns (results: seq<Result>)
    requires scratch.Valid()
    modifies scratch, scratch.visited, scratch.candidates, scratch.results
    ensures scratch.Valid() && (scratch.visited == old(scratch.visited) || fresh(scratch.visited))
    ensures var w := Search(adjacency, q, [entry], ef).best; results == Take(w, Limit(k, |w|))
  {
    var found := GraphSearchLayerFromEntriesInto(adjacency, q, [entry], ef, scratch);
    if !found {
      return [];
    }
    SortedAnswer(adjacency, q, [entry], ef, scratch.results.items);
    results := scratch.SortedResults(k);
  }

  lemma SortedAnswer(adj: seq<seq<int>>, q: int -> real, entries: seq<int>, ef: int, items: seq<Result>)
    requires multiset(items) == multiset(Search(adj, q, entries, ef).best)
    ensures Sort(items) == Search(adj, q, entries, ef).best && |items| == |Search(adj, q, entries, ef).best|
  {
    var w := Search(adj, q, entries, ef).best;
    SearchInv(adj, q, entries, ef);
    BestSorted(Tag(q, Search(adj, q, entries, ef).visited), ef);
    SameMembers(items, w);
    SortPermutation(items, w);
    SortOfSorted(w);
  }
}
