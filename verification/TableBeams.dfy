/** SEARCH-LAYER as it runs: what was visited is read from a stamped table that earlier searches have used. */
module TableBeams {
  import opened Order
  import opened Sorting
  import opened Beams
  import opened MarkTables

  /** The table and the beam. Tests read the table; the beam's visited list only records the order. */
  datatype Searching = Searching(table: Table, beam: Beam)

  predicate UnseenOn(n: int, s: Searching, id: int) {
    0 <= id < n && id < |s.table.store| && !IsMarked(s.table, id)
  }

  function AdmitOn(q: int -> real, ef: int, s: Searching, id: nat): Searching
    requires id < |s.table.store|
  {
    Searching(MarkTable(s.table, id), Admit(q, ef, s.beam, id))
  }

  function VisitAllOn(n: int, q: int -> real, ef: int, s: Searching, ids: seq<int>): Searching {
    if ids == [] then s
    else
      var c := VisitAllOn(n, q, ef, s, ids[..|ids| - 1]);
      var id := ids[|ids| - 1];
      if UnseenOn(n, c, id) then AdmitOn(q, ef, c, id) else c
  }

  function PopOn(s: Searching): Searching
    requires s.beam.frontier != []
  {
    Searching(s.table, Pop(s.beam))
  }

  function ExpandOn(adj: seq<seq<int>>, q: int -> real, ef: int, s: Searching): Searching
    requires s.beam.frontier != [] && 0 <= s.beam.frontier[0].id < |adj|
  {
    VisitAllOn(|adj|, q, ef, PopOn(s), adj[s.beam.frontier[0].id])
  }

  /** Among the n nodes the table marks exactly the visited ones. */
  ghost predicate Sees(n: int, s: Searching) {
    && MarkTables.Valid(s.table) && s.table.len == n
    && forall id :: 0 <= id < n ==> (IsMarked(s.table, id) <==> id in s.beam.visited)
  }

  lemma AdmitSees(n: int, q: int -> real, ef: int, s: Searching, id: nat)
    requires Sees(n, s) && UnseenOn(n, s, id)
    ensures Sees(n, AdmitOn(q, ef, s, id))
  {
    StepRefines(s.table, Mark(id));
  }

  lemma {:induction false} VisitAllSees(n: int, q: int -> real, ef: int, s: Searching, ids: seq<int>)
    requires Sees(n, s)
    ensures Sees(n, VisitAllOn(n, q, ef, s, ids))
    ensures VisitAllOn(n, q, ef, s, ids).beam == VisitAll(n, q, ef, s.beam, ids)
    decreases |ids|
  {
    if ids != [] {
      var front, id := ids[..|ids| - 1], ids[|ids| - 1];
      VisitAllSees(n, q, ef, s, front);
      var c := VisitAllOn(n, q, ef, s, front);
      if UnseenOn(n, c, id) {
        AdmitSees(n, q, ef, c, id);
      }
    }
  }

  lemma VisitNone(n: int, q: int -> real, ef: int, s: Searching, ids: seq<int>)
    ensures VisitAllOn(n, q, ef, s, ids[..0]) == s
  {
  }

  lemma VisitOnStep(n: int, q: int -> real, ef: int, s: Searching, ids: seq<int>, i: nat)
    requires Sees(n, s) && Core(n, q, ef, s.beam) && i < |ids|
    ensures var c := VisitAllOn(n, q, ef, s, ids[..i]);
            && Sees(n, c) && Core(n, q, ef, c.beam)
            && VisitAllOn(n, q, ef, s, ids[..i + 1]) ==
               if UnseenOn(n, c, ids[i]) then AdmitOn(q, ef, c, ids[i]) else c
  {
    assert ids[..i + 1][..i] == ids[..i];
    VisitAllSees(n, q, ef, s, ids[..i]);
    VisitAllKeepsCore(n, q, ef, s.beam, ids[..i]);
  }

  /** One round of the loop over the table is one round of the loop over the visited list. */
  lemma ExpandSees(adj: seq<seq<int>>, q: int -> real, ef: int, s: Searching)
    requires Inv(adj, q, ef, s.beam) && Sees(|adj|, s) && s.beam.frontier != []
    ensures 0 <= s.beam.frontier[0].id < |adj|
    ensures var t := ExpandOn(adj, q, ef, s);
            && t.beam == Expand(adj, q, ef, s.beam)
            && Inv(adj, q, ef, t.beam) && Sees(|adj|, t) && Left(adj, t) < Left(adj, s)
  {
    ExpandKeepsInv(adj, q, ef, s.beam);
    VisitAllSees(|adj|, q, ef, PopOn(s), adj[s.beam.frontier[0].id]);
    VisitedBound(|adj|, q, ef, s.beam);
  }

  /** The measure of the loop. */
  function Left(adj: seq<seq<int>>, s: Searching): int {
    |adj| - |s.beam.visited| + |s.beam.frontier|
  }

  function RunOn(adj: seq<seq<int>>, q: int -> real, ef: int, s: Searching): Searching
    requires Inv(adj, q, ef, s.beam) && Sees(|adj|, s)
    decreases Left(adj, s)
  {
    if Stops(s.beam) then s
    else
      ExpandSees(adj, q, ef, s);
      VisitedBound(|adj|, q, ef, s.beam);
      RunOn(adj, q, ef, ExpandOn(adj, q, ef, s))
  }

  lemma RunOnStep(adj: seq<seq<int>>, q: int -> real, ef: int, s: Searching)
    requires Inv(adj, q, ef, s.beam) && Sees(|adj|, s) && !Stops(s.beam)
    ensures 0 <= s.beam.frontier[0].id < |adj|
    ensures var t := ExpandOn(adj, q, ef, s);
            && t == VisitAllOn(|adj|, q, ef, PopOn(s), adj[s.beam.frontier[0].id])
            && Inv(adj, q, ef, t.beam) && Sees(|adj|, t) && Left(adj, t) < Left(adj, s)
            && RunOn(adj, q, ef, s) == RunOn(adj, q, ef, t)
  {
    ExpandSees(adj, q, ef, s);
    VisitedBound(|adj|, q, ef, s.beam);
  }

  lemma PopSees(n: int, s: Searching)
    requires Sees(n, s) && s.beam.frontier != []
    ensures Sees(n, PopOn(s))
  {
  }

  lemma RunOnStops(adj: seq<seq<int>>, q: int -> real, ef: int, s: Searching)
    requires Inv(adj, q, ef, s.beam) && Sees(|adj|, s) && Stops(s.beam)
    ensures RunOn(adj, q, ef, s) == s
  {
  }

  lemma {:induction false} RunOnIsRun(adj: seq<seq<int>>, q: int -> real, ef: int, s: Searching)
    requires Inv(adj, q, ef, s.beam) && Sees(|adj|, s)
    ensures Sees(|adj|, RunOn(adj, q, ef, s)) && RunOn(adj, q, ef, s).beam == Run(adj, q, ef, s.beam)
    decreases Left(adj, s)
  {
    if !Stops(s.beam) {
      ExpandSees(adj, q, ef, s);
      VisitedBound(|adj|, q, ef, s.beam);
      RunOnIsRun(adj, q, ef, ExpandOn(adj, q, ef, s));
    }
  }

  /** A search reserves the table for the graph and starts a new generation. */
  function StartOn(t: Table, n: nat): Searching {
    Searching(ResetTable(ReserveTable(t, n)), Empty)
  }

  /** Nothing of earlier searches is left. */
  lemma StartSees(t: Table, n: nat)
    requires MarkTables.Valid(t)
    ensures Sees(n, StartOn(t, n))
  {
    StepRefines(t, Reserve(n));
    StepRefines(ReserveTable(t, n), Reset);
    var s := StartOn(t, n);
    forall id | 0 <= id < n
      ensures !IsMarked(s.table, id)
    {
      assert id !in Members(s.table);
    }
  }

  function EnterOn(adj: seq<seq<int>>, q: int -> real, entries: seq<int>, ef: int, t: Table): (s: Searching)
    requires MarkTables.Valid(t)
    ensures Sees(|adj|, s) && s.beam == VisitAll(|adj|, q, ef, Empty, entries)
  {
    StartSees(t, |adj|);
    VisitAllSees(|adj|, q, ef, StartOn(t, |adj|), entries);
    VisitAllOn(|adj|, q, ef, StartOn(t, |adj|), entries)
  }

  /** SEARCH-LAYER from the given entry points over a table in any valid state. */
  function SearchOn(adj: seq<seq<int>>, q: int -> real, entries: seq<int>, ef: int, t: Table): Searching
    requires MarkTables.Valid(t)
  {
    if ef <= 0 || entries == [] then Searching(t, Empty)
    else
      EnterInv(adj, q, entries, ef);
      RunOn(adj, q, ef, EnterOn(adj, q, entries, ef, t))
  }

  /** Whatever the table held before, the search finds what the specification finds and leaves a valid table. */
  lemma SearchOnIsSearch(adj: seq<seq<int>>, q: int -> real, entries: seq<int>, ef: int, t: Table)
    requires MarkTables.Valid(t)
    ensures var s := SearchOn(adj, q, entries, ef, t);
            MarkTables.Valid(s.table) && s.beam == Search(adj, q, entries, ef)
  {
    if !(ef <= 0 || entries == []) {
      EnterInv(adj, q, entries, ef);
      RunOnIsRun(adj, q, ef, EnterOn(adj, q, entries, ef, t));
    }
  }
}
