/** RNG and alpha pruning of one node's candidates. */
module Prune {
  import opened Order
  import opened Sorting
  import opened Scans
  import opened Outcomes

  /** Scores seen from `source`. */
  function From(d: (int, int) -> real, source: int): int -> real {
    v => d(source, v)
  }

  /** Scores of every node against the stored vector of `source`. */
  function To(d: (int, int) -> real, source: int): int -> real {
    v => d(v, source)
  }

  /** Which accepted neighbour may prune which candidate: (candidate, accepted). */
  type AngleFilter = (int, int) -> bool

  const NoFilter: AngleFilter := (candidate: int, accepted: int) => true

  // ---------- normalisation ----------

  /** The ids other than the source, in first-occurrence order. */
  function Dedup(source: int, ids: seq<int>): seq<int> {
    if ids == [] then []
    else
      var seen := Dedup(source, ids[..|ids| - 1]);
      var id := ids[|ids| - 1];
      if id == source || id in seen then seen else seen + [id]
  }

  lemma {:induction false} DedupFacts(source: int, ids: seq<int>)
    ensures Distinct(Dedup(source, ids))
    ensures forall x :: x in Dedup(source, ids) <==> x in ids && x != source
  {
    if ids != [] {
      DedupFacts(source, ids[..|ids| - 1]);
      assert ids == ids[..|ids| - 1] + [ids[|ids| - 1]];
    }
  }

  /** The first id that is neither the source nor a node. */
  function FirstBad(count: int, source: int, ids: seq<int>): Option<int> {
    if ids == [] then None
    else
      var earlier := FirstBad(count, source, ids[..|ids| - 1]);
      var id := ids[|ids| - 1];
      if earlier.Some? then earlier
      else if id != source && !(0 <= id < count) then Some(id) else None
  }

  lemma {:induction false} FirstBadPrefix(count: int, source: int, ids: seq<int>, i: nat)
    requires i <= |ids| && FirstBad(count, source, ids[..i]).Some?
    ensures FirstBad(count, source, ids) == FirstBad(count, source, ids[..i])
  {
    if i < |ids| {
      assert ids[..|ids| - 1][..i] == ids[..i];
      FirstBadPrefix(count, source, ids[..|ids| - 1], i);
    } else {
      assert ids[..i] == ids;
    }
  }

  lemma {:induction false} FirstBadExact(count: int, source: int, ids: seq<int>)
    ensures FirstBad(count, source, ids) == None <==>
            forall x :: x in ids ==> x == source || 0 <= x < count
  {
    if ids != [] {
      var front, last := ids[..|ids| - 1], ids[|ids| - 1];
      FirstBadExact(count, source, front);
      assert ids == front + [last];
      assert last in ids && forall x :: x in ids <==> x in front || x == last;
    }
  }

  /** The bad id reported is the first one in the list. */
  lemma {:induction false} FirstBadIsFirst(count: int, source: int, ids: seq<int>)
    requires FirstBad(count, source, ids).Some?
    ensures exists i :: && 0 <= i < |ids| && ids[i] == FirstBad(count, source, ids).value
                        && ids[i] != source && !(0 <= ids[i] < count)
                        && forall j :: 0 <= j < i ==> ids[j] == source || 0 <= ids[j] < count
  {
    var front, last := ids[..|ids| - 1], ids[|ids| - 1];
    if FirstBad(count, source, front).Some? {
      FirstBadIsFirst(count, source, front);
      var i :| && 0 <= i < |front| && front[i] == FirstBad(count, source, front).value
               && front[i] != source && !(0 <= front[i] < count)
               && forall j :: 0 <= j < i ==> front[j] == source || 0 <= front[j] < count;
      assert ids[i] == front[i] && forall j :: 0 <= j < i ==> ids[j] == front[j];
    } else {
      FirstBadExact(count, source, front);
      assert forall j :: 0 <= j < |front| ==> front[j] in front && ids[j] == front[j];
    }
  }

  /** Distinct neighbours with freshly computed scores, nearest first. */
  function Normalize(d: (int, int) -> real, source: int, ids: seq<int>): seq<Result> {
    Sort(Tag(From(d, source), Dedup(source, ids)))
  }

  lemma NormalizeFacts(d: (int, int) -> real, source: int, ids: seq<int>)
    ensures var s := Normalize(d, source, ids);
            && Sorted(s) && Distinct(Ids(s))
            && (forall r :: r in s ==> r.distance == d(source, r.id))
            && (forall r :: r in s ==> r.id in ids && r.id != source)
            && (forall x :: x in ids && x != source ==> Result(x, d(source, x)) in s)
  {
    var q := From(d, source);
    var s := Normalize(d, source, ids);
    DedupFacts(source, ids);
    SortSorted(Tag(q, Dedup(source, ids)));
    SortDistinct(q, Dedup(source, ids));
    forall r
      ensures r in s <==> r.id in ids && r.id != source && r.distance == d(source, r.id)
    {
      SortMember(Tag(q, Dedup(source, ids)), r);
      TagMember(q, Dedup(source, ids), r);
    }
  }

  /** Only the set of candidate ids matters. */
  lemma NormalizeSet(d: (int, int) -> real, source: int, a: seq<int>, b: seq<int>)
    requires forall x :: x != source ==> (x in a <==> x in b)
    ensures Normalize(d, source, a) == Normalize(d, source, b)
  {
    DedupFacts(source, a);
    DedupFacts(source, b);
    SortOfSet(From(d, source), Dedup(source, a), Dedup(source, b));
  }

  /** Collects candidates in a map and sorts its entries, whatever order the map yields them in. */
  method NormalizePruneCandidates(count: int, d: (int, int) -> real, source: int, candidates: seq<Result>)
    returns (out: Outcome<seq<Result>>)
    ensures out == match FirstBad(count, source, Ids(candidates))
                   case Some(id) => Err(CandidateOutOfRange(id))
                   case None => Ok(Normalize(d, source, Ids(candidates)))
  {
    var seen, bad := Collect(count, d, source, candidates);
    if bad.Some? {
      return Err(CandidateOutOfRange(bad.value));
    }
    var entries := Entries(d, source, seen);
    ghost var ids, order := Ids(candidates), Ids(entries);
    assert entries == Tag(From(d, source), order);
    DedupFacts(source, ids);
    SortOfSet(From(d, source), order, Dedup(source, ids));
    return Ok(Sort(entries));
  }

  method Collect(count: int, d: (int, int) -> real, source: int, candidates: seq<Result>)
    returns (seen: map<int, Result>, bad: Option<int>)
    ensures bad == FirstBad(count, source, Ids(candidates))
    ensures bad == None ==> forall x :: x in seen <==> x in Ids(candidates) && x != source
    ensures forall x :: x in seen ==> seen[x] == Result(x, d(source, x))
  {
    ghost var ids := Ids(candidates);
    seen := map[];
    for i := 0 to |candidates|
      invariant FirstBad(count, source, ids[..i]) == None
      invariant forall x :: x in seen <==> x in ids[..i] && x != source
      invariant forall x :: x in seen ==> seen[x] == Result(x, d(source, x))
    {
      var next := candidates[i];
      assert ids[..i + 1] == ids[..i] + [next.id];
      assert ids[..i + 1][..i] == ids[..i];
      if next.id == source {
        continue;
      }
      if next.id < 0 || next.id >= count {
        FirstBadPrefix(count, source, ids, i + 1);
        return seen, Some(next.id);
      }
      var normalized := Result(next.id, d(source, next.id));
      if next.id !in seen || Better(normalized, seen[next.id]) {
        seen := seen[next.id := normalized];
      }
    }
    assert ids[..|candidates|] == ids;
    bad := None;
  }

  /** Some element, chosen by the map's iteration order. */
  method Pick(keys: set<int>) returns (key: int)
    requires keys != {}
    ensures key in keys
  {
    assert (forall k :: k !in keys) ==> keys == {};
    key :| key in keys;
  }

  /** The entries of the map in an arbitrary order. */
  method Entries(ghost d: (int, int) -> real, ghost source: int, seen: map<int, Result>)
    returns (entries: seq<Result>)
    requires forall x :: x in seen ==> seen[x] == Result(x, d(source, x))
    ensures Distinct(Ids(entries)) && forall x :: x in Ids(entries) <==> x in seen
    ensures forall i :: 0 <= i < |entries| ==> entries[i].distance == d(source, entries[i].id)
  {
    var keys := seen.Keys;
    entries := [];
    while keys != {}
      invariant forall x :: x in keys ==> x in seen
      invariant Distinct(Ids(entries))
      invariant forall x :: x in Ids(entries) <==> x in seen && x !in keys
      invariant forall i :: 0 <= i < |entries| ==> entries[i].distance == d(source, entries[i].id)
      decreases keys
    {
      var key := Pick(keys);
      assert Ids(entries + [seen[key]]) == Ids(entries) + [key];
      entries := entries + [seen[key]];
      keys := keys - {key};
    }
  }

  // ---------- the greedy kernel ----------

  /** An accepted `w` dominates `v`: it is nearer to the source, nearer to `v`, and passes the filter. */
  predicate Dominates(d: (int, int) -> real, angle: AngleFilter, w: Result, v: Result) {
    w.distance < v.distance && d(v.id, w.id) < v.distance && angle(v.id, w.id)
  }

  predicate Dominated(d: (int, int) -> real, angle: AngleFilter, kept: seq<Result>, v: Result) {
    exists i :: 0 <= i < |kept| && Dominates(d, angle, kept[i], v)
  }

  /** Greedy selection without a degree bound. */
  function Kernel(d: (int, int) -> real, angle: AngleFilter, s: seq<Result>): seq<Result> {
    if s == [] then []
    else
      var kept := Kernel(d, angle, s[..|s| - 1]);
      if Dominated(d, angle, kept, s[|s| - 1]) then kept else kept + [s[|s| - 1]]
  }

  /** The bound is tested only after an append, so at least one candidate is always taken. */
  function Cap(maxDegree: int): int {
    if maxDegree < 1 then 1 else maxDegree
  }

  function Greedy(d: (int, int) -> real, angle: AngleFilter, s: seq<Result>, maxDegree: int): seq<Result> {
    Take(Kernel(d, angle, s), Cap(maxDegree))
  }

  lemma {:induction false} KernelPrefix(d: (int, int) -> real, angle: AngleFilter, s: seq<Result>, i: nat)
    requires i <= |s|
    ensures Kernel(d, angle, s[..i]) <= Kernel(d, angle, s)
  {
    if i == |s| {
      assert s[..i] == s;
    } else {
      assert s[..|s| - 1][..i] == s[..i];
      KernelPrefix(d, angle, s[..|s| - 1], i);
    }
  }

  lemma {:induction false} KernelMember(d: (int, int) -> real, angle: AngleFilter, s: seq<Result>, v: Result)
    ensures v in Kernel(d, angle, s) ==> v in s
  {
    if s != [] {
      KernelMember(d, angle, s[..|s| - 1], v);
      assert s == s[..|s| - 1] + [s[|s| - 1]];
    }
  }

  lemma {:induction false} KernelSorted(d: (int, int) -> real, angle: AngleFilter, s: seq<Result>)
    requires Sorted(s) && Distinct(Ids(s))
    ensures var k := Kernel(d, angle, s); Sorted(k) && Distinct(Ids(k))
  {
    if s != [] {
      var front, last := s[..|s| - 1], s[|s| - 1];
      DistinctIdsFront(s);
      KernelSorted(d, angle, front);
      var k := Kernel(d, angle, front);
      forall i | 0 <= i < |k|
        ensures !Better(last, k[i]) && k[i].id != last.id
      {
        KernelMember(d, angle, front, k[i]);
        LastApart(s, k[i]);
      }
      AppendSorted(k, last);
    }
  }

  lemma LastApart(s: seq<Result>, r: Result)
    requires Sorted(s) && Distinct(Ids(s)) && s != [] && r in s[..|s| - 1]
    ensures !Better(s[|s| - 1], r) && r.id != s[|s| - 1].id
  {
    var j :| 0 <= j < |s| - 1 && s[j] == r;
    assert Ids(s)[j] != Ids(s)[|s| - 1];
  }

  lemma AppendSorted(k: seq<Result>, last: Result)
    requires Sorted(k) && Distinct(Ids(k))
    requires forall i :: 0 <= i < |k| ==> !Better(last, k[i]) && k[i].id != last.id
    ensures Sorted(k + [last]) && Distinct(Ids(k + [last]))
  {
    assert Ids(k + [last]) == Ids(k) + [last.id];
  }

  /** The nearest candidate is always kept. */
  lemma {:induction false} KernelNonEmpty(d: (int, int) -> real, angle: AngleFilter, s: seq<Result>)
    requires s != []
    ensures Kernel(d, angle, s) != [] && Kernel(d, angle, s)[0] == s[0]
  {
    KernelPrefix(d, angle, s, 1);
    assert s[..1][..0] == [];
    assert Kernel(d, angle, s[..1]) == [s[0]];
  }

  lemma DistinctIdsFront(s: seq<Result>)
    requires Distinct(Ids(s)) && s != []
    ensures Distinct(Ids(s[..|s| - 1])) && s[|s| - 1] !in s[..|s| - 1]
  {
    var front := s[..|s| - 1];
    assert forall i :: 0 <= i < |front| ==> Ids(front)[i] == Ids(s)[i];
    assert forall i :: 0 <= i < |front| ==> Ids(s)[i] != Ids(s)[|s| - 1];
  }

  lemma DominatedAppend(d: (int, int) -> real, angle: AngleFilter, kept: seq<Result>, x: Result, v: Result)
    ensures Dominated(d, angle, kept + [x], v) <==> Dominated(d, angle, kept, v) || Dominates(d, angle, x, v)
  {
    var t := kept + [x];
    if Dominated(d, angle, kept, v) {
      var i :| 0 <= i < |kept| && Dominates(d, angle, kept[i], v);
      assert Dominates(d, angle, t[i], v);
    }
    if Dominates(d, angle, x, v) {
      assert Dominates(d, angle, t[|kept|], v);
    }
  }

  /** Kept exactly when nothing kept dominates it. */
  lemma {:induction false} KernelIsKernel(d: (int, int) -> real, angle: AngleFilter, s: seq<Result>, v: Result)
    requires Sorted(s) && Distinct(Ids(s)) && v in s
    ensures v in Kernel(d, angle, s) <==> !Dominated(d, angle, Kernel(d, angle, s), v)
  {
    var front, last := s[..|s| - 1], s[|s| - 1];
    assert s == front + [last];
    DistinctIdsFront(s);
    SortedParts(s);
    var k := Kernel(d, angle, front);
    KernelMember(d, angle, front, last);
    DominatedAppend(d, angle, k, last, v);
    if v != last {
      KernelIsKernel(d, angle, front, v);
      var i :| 0 <= i < |s| && s[i] == v;
      assert !Better(last, v);
      assert !Dominates(d, angle, last, v);
    }
  }

  ghost predicate Undominated(d: (int, int) -> real, angle: AngleFilter, kept: set<Result>, v: Result) {
    forall w :: w in kept ==> !Dominates(d, angle, w, v)
  }

  /** A set of candidates that is a kernel: kept exactly when nothing kept dominates it. */
  ghost predicate IsKernel(d: (int, int) -> real, angle: AngleFilter, s: seq<Result>, kept: set<Result>) {
    && (forall v :: v in kept ==> v in s)
    && (forall v :: v in s ==> (v in kept <==> Undominated(d, angle, kept, v)))
  }

  lemma KernelExists(d: (int, int) -> real, angle: AngleFilter, s: seq<Result>)
    requires Sorted(s) && Distinct(Ids(s))
    ensures IsKernel(d, angle, s, set v | v in Kernel(d, angle, s))
  {
    hide Kernel, Sorted, Distinct;
    var k := Kernel(d, angle, s);
    var kept := set v | v in k;
    forall v | v in s
      ensures v in kept <==> Undominated(d, angle, kept, v)
    {
      KernelIsKernel(d, angle, s, v);
      DominatedBySet(d, angle, k, v);
    }
    forall v | v in kept
      ensures v in s
    {
      KernelMember(d, angle, s, v);
    }
  }

  lemma DominatedBySet(d: (int, int) -> real, angle: AngleFilter, k: seq<Result>, v: Result)
    ensures Dominated(d, angle, k, v) <==> !Undominated(d, angle, (set w | w in k), v)
  {
    if Dominated(d, angle, k, v) {
      var i :| 0 <= i < |k| && Dominates(d, angle, k[i], v);
      assert k[i] in (set w | w in k);
    }
  }

  lemma LaterNotBetter(s: seq<Result>, i: nat, j: nat)
    requires Sorted(s) && i < |s| && j < |s|
    ensures i < j ==> !Better(s[j], s[i])
  {
  }

  /** Only an earlier candidate dominates. */
  lemma DominatorIsEarlier(d: (int, int) -> real, angle: AngleFilter, s: seq<Result>, i: nat, w: Result)
    returns (j: nat)
    requires Sorted(s) && i < |s| && w in s && Dominates(d, angle, w, s[i])
    ensures j < i && s[j] == w
  {
    j :| 0 <= j < |s| && s[j] == w;
    LaterNotBetter(s, i, j);
  }

  /** Any two kernels of one sorted list agree on each element, nearest first. */
  lemma {:induction false} KernelsAgree(
      d: (int, int) -> real, angle: AngleFilter, s: seq<Result>, a: set<Result>, b: set<Result>, i: nat)
    requires Sorted(s) && IsKernel(d, angle, s, a) && IsKernel(d, angle, s, b) && i < |s|
    ensures s[i] in a <==> s[i] in b
    decreases i
  {
    hide Sorted, Dominates;
    forall w | Dominates(d, angle, w, s[i]) && w in s
      ensures w in a <==> w in b
    {
      var j := DominatorIsEarlier(d, angle, s, i, w);
      KernelsAgree(d, angle, s, a, b, j);
    }
    assert Undominated(d, angle, a, s[i]) <==> Undominated(d, angle, b, s[i]);
  }

  lemma KernelListed(d: (int, int) -> real, angle: AngleFilter, s: seq<Result>, kept: set<Result>)
    requires IsKernel(d, angle, s, kept)
    ensures forall v :: v in kept ==> v in s
  {
  }

  /** The pruning rule has exactly one kernel, and the greedy loop computes it. */
  lemma UniqueKernel(d: (int, int) -> real, angle: AngleFilter, source: int, ids: seq<int>, kept: set<Result>)
    ensures var s := Normalize(d, source, ids);
            IsKernel(d, angle, s, kept) <==> kept == set v | v in Kernel(d, angle, s)
  {
    hide Normalize, Kernel, Sorted, IsKernel;
    var s := Normalize(d, source, ids);
    NormalizeFacts(d, source, ids);
    KernelExists(d, angle, s);
    var k := set v | v in Kernel(d, angle, s);
    if IsKernel(d, angle, s, kept) {
      KernelListed(d, angle, s, kept);
      KernelListed(d, angle, s, k);
      forall v
        ensures v in kept <==> v in k
      {
        if v in s {
          var i :| 0 <= i < |s| && s[i] == v;
          KernelsAgree(d, angle, s, kept, k, i);
        }
      }
    }
  }

  // ---------- the pruned list without the loop ----------

  /** Listed `w` rules out `v` for node u: nearer to u than v is, nearer to v than u is, and the filter agrees. */
  ghost predicate RulesOut(d: (int, int) -> real, angle: AngleFilter, u: int, w: int, v: int) {
    d(u, w) < d(u, v) && d(v, w) < d(u, v) && angle(v, w)
  }

  /** Seen from u, a is nearer than b; of two equally far nodes the smaller id comes first. */
  ghost predicate Before(d: (int, int) -> real, u: int, a: int, b: int) {
    d(u, a) < d(u, b) || (d(u, a) == d(u, b) && a < b)
  }

  /** A full list stops taking candidates, so those behind it are missing too. */
  ghost predicate FullBefore(d: (int, int) -> real, u: int, bound: int, list: seq<int>, v: int) {
    |list| == (if bound < 1 then 1 else bound) && forall w :: w in list ==> Before(d, u, w, v)
  }

  ghost predicate RuledOut(d: (int, int) -> real, angle: AngleFilter, u: int, list: seq<int>, v: int) {
    exists w :: w in list && RulesOut(d, angle, u, w, v)
  }

  /**
   * The list pruned from a pool of candidates of u, by distances alone: nearest first, within the bound, no listed
   * node rules out another one, and every candidate that is missing is ruled out or behind a full list.
   */
  ghost predicate PrunedTo(
      d: (int, int) -> real, angle: AngleFilter, u: int, pool: set<int>, bound: int, list: seq<int>)
  {
    && |list| <= (if bound < 1 then 1 else bound)
    && (forall i, j :: 0 <= i < j < |list| ==> Before(d, u, list[i], list[j]))
    && (forall v :: v in list ==> v in pool && v != u && !RuledOut(d, angle, u, list, v))
    && (forall v :: v in pool && v != u ==>
          v in list || RuledOut(d, angle, u, list, v) || FullBefore(d, u, bound, list, v))
  }

  lemma BeforeIsBetter(d: (int, int) -> real, u: int, a: int, b: int)
    ensures Before(d, u, a, b) <==> Better(Result(a, d(u, a)), Result(b, d(u, b)))
  {
  }

  /** Candidates of u with their scores. */
  ghost predicate ScoredFrom(d: (int, int) -> real, u: int, s: seq<Result>) {
    forall r :: r in s ==> r.distance == d(u, r.id)
  }

  lemma RuledOutIsDominated(d: (int, int) -> real, angle: AngleFilter, u: int, k: seq<Result>, v: Result)
    requires ScoredFrom(d, u, k) && v.distance == d(u, v.id)
    ensures RuledOut(d, angle, u, Ids(k), v.id) <==> Dominated(d, angle, k, v)
  {
    if RuledOut(d, angle, u, Ids(k), v.id) {
      var w :| w in Ids(k) && RulesOut(d, angle, u, w, v.id);
      var i :| 0 <= i < |Ids(k)| && Ids(k)[i] == w;
      assert k[i] in k && Dominates(d, angle, k[i], v);
    }
    if Dominated(d, angle, k, v) {
      var i :| 0 <= i < |k| && Dominates(d, angle, k[i], v);
      assert k[i] in k && k[i].id == Ids(k)[i];
      assert RulesOut(d, angle, u, k[i].id, v.id);
    }
  }

  lemma AscendingBefore(d: (int, int) -> real, u: int, k: seq<Result>, i: nat, j: nat)
    requires Sorted(k) && Distinct(Ids(k)) && ScoredFrom(d, u, k) && i < j < |k|
    ensures Before(d, u, k[i].id, k[j].id)
  {
    assert k[i] in k && k[j] in k;
    assert Ids(k)[i] != Ids(k)[j];
    StrictTotalOrder(k[i], k[j], k[i]);
    BeforeIsBetter(d, u, k[i].id, k[j].id);
  }

  /** A prefix of the kernel rules out what the kernel does, or is full and ahead of it. */
  lemma CutKernel(
      d: (int, int) -> real, angle: AngleFilter, u: int, k: seq<Result>, bound: int, v: Result)
    requires Sorted(k) && Distinct(Ids(k)) && ScoredFrom(d, u, k) && v.distance == d(u, v.id)
    requires v in k || Dominated(d, angle, k, v)
    ensures var list := Ids(Take(k, Cap(bound)));
            v.id in list || RuledOut(d, angle, u, list, v.id) || FullBefore(d, u, bound, list, v.id)
  {
    var t := Take(k, Cap(bound));
    var i := IndexOfOrDominator(d, angle, k, v);
    if i < |t| {
      assert t[i] == k[i] && Ids(t)[i] == k[i].id;
      if k[i] != v {
        assert RulesOut(d, angle, u, k[i].id, v.id);
      }
    } else {
      forall w | w in Ids(t)
        ensures Before(d, u, w, v.id)
      {
        var j :| 0 <= j < |Ids(t)| && Ids(t)[j] == w;
        AscendingBefore(d, u, k, j, i);
      }
    }
  }

  lemma IndexOfOrDominator(d: (int, int) -> real, angle: AngleFilter, k: seq<Result>, v: Result) returns (i: nat)
    requires v in k || Dominated(d, angle, k, v)
    ensures i < |k| && (k[i] == v || Dominates(d, angle, k[i], v))
  {
    if v in k {
      i :| 0 <= i < |k| && k[i] == v;
    } else {
      i :| 0 <= i < |k| && Dominates(d, angle, k[i], v);
    }
  }

  /** The pruning loop computes such a list. */
  lemma PruneIsPrunedTo(d: (int, int) -> real, angle: AngleFilter, u: int, ids: seq<int>, bound: int)
    ensures PrunedTo(d, angle, u, Elements(ids), bound, Ids(PruneIds(d, angle, u, ids, bound)))
  {
    hide Normalize, Kernel, Sorted, Dominates, Dominated, RulesOut, Before, FullBefore;
    var s := Normalize(d, u, ids);
    var k := Kernel(d, angle, s);
    var t := Take(k, Cap(bound));
    NormalizeFacts(d, u, ids);
    KernelSorted(d, angle, s);
    KernelFromPool(d, angle, u, ids);
    forall i, j | 0 <= i < j < |t|
      ensures Before(d, u, Ids(t)[i], Ids(t)[j])
    {
      AscendingBefore(d, u, k, i, j);
    }
    forall v | v in Ids(t)
      ensures v in Elements(ids) && v != u && !RuledOut(d, angle, u, Ids(t), v)
    {
      var i :| 0 <= i < |Ids(t)| && Ids(t)[i] == v;
      assert k[i] in k;
      KernelIsKernel(d, angle, s, k[i]);
      RuledOutIsDominated(d, angle, u, k, k[i]);
      FewerRuleOut(d, angle, u, t, k, v);
    }
    forall v | v in Elements(ids) && v != u
      ensures v in Ids(t) || RuledOut(d, angle, u, Ids(t), v) || FullBefore(d, u, bound, Ids(t), v)
    {
      KernelIsKernel(d, angle, s, Result(v, d(u, v)));
      CutKernel(d, angle, u, k, bound, Result(v, d(u, v)));
    }
  }

  lemma FewerRuleOut(d: (int, int) -> real, angle: AngleFilter, u: int, t: seq<Result>, k: seq<Result>, v: int)
    requires t <= k
    ensures RuledOut(d, angle, u, Ids(t), v) ==> RuledOut(d, angle, u, Ids(k), v)
  {
    assert forall i :: 0 <= i < |t| ==> Ids(t)[i] == Ids(k)[i];
  }

  lemma KernelFromPool(d: (int, int) -> real, angle: AngleFilter, u: int, ids: seq<int>)
    ensures var k := Kernel(d, angle, Normalize(d, u, ids));
            ScoredFrom(d, u, k) && forall r :: r in k ==> r in Normalize(d, u, ids) && r.id in ids && r.id != u
  {
    hide Normalize, Kernel, Sorted;
    NormalizeFacts(d, u, ids);
    forall r | r in Kernel(d, angle, Normalize(d, u, ids))
      ensures r in Normalize(d, u, ids)
    {
      KernelMember(d, angle, Normalize(d, u, ids), r);
    }
  }

  ghost function Ahead(d: (int, int) -> real, u: int, pool: set<int>, v: int): set<int> {
    set x | x in pool && Before(d, u, x, v)
  }

  lemma FewerAhead(d: (int, int) -> real, u: int, pool: set<int>, w: int, v: int)
    requires w in pool && Before(d, u, w, v)
    ensures |Ahead(d, u, pool, w)| < |Ahead(d, u, pool, v)|
  {
    var less, more := Ahead(d, u, pool, w), Ahead(d, u, pool, v);
    assert less <= more && w in more && w !in less;
    SubsetSize(less, more);
  }

  lemma AscendingIsDistinct(d: (int, int) -> real, angle: AngleFilter, u: int, pool: set<int>, bound: int, a: seq<int>)
    requires PrunedTo(d, angle, u, pool, bound, a)
    ensures Distinct(a)
  {
    forall i, j | 0 <= i < j < |a|
      ensures a[i] != a[j]
    {
      assert Before(d, u, a[i], a[j]);
    }
  }

  /** What agrees with b on everything ahead of v takes v only if b does. */
  lemma TakesNoMore(
      d: (int, int) -> real, angle: AngleFilter, u: int, pool: set<int>, bound: int, a: seq<int>, b: seq<int>, v: int)
    requires PrunedTo(d, angle, u, pool, bound, a) && PrunedTo(d, angle, u, pool, bound, b) && v in a
    requires forall w :: w in b && Before(d, u, w, v) ==> w in a
    ensures v in b
  {
    hide Before;
    StillRuledOut(d, angle, u, a, b, v);
    if v !in b {
      assert FullBefore(d, u, bound, b, v);
      AscendingIsDistinct(d, angle, u, pool, bound, a);
      AscendingIsDistinct(d, angle, u, pool, bound, b);
      DistinctSize(a);
      DistinctSize(b);
      forall w | w in b
        ensures w in a
      {
        assert Before(d, u, w, v);
      }
      SubsetSize(Elements(b) + {v}, Elements(a));
    }
  }

  lemma StillRuledOut(d: (int, int) -> real, angle: AngleFilter, u: int, a: seq<int>, b: seq<int>, v: int)
    requires forall w :: w in b && Before(d, u, w, v) ==> w in a
    ensures RuledOut(d, angle, u, b, v) ==> RuledOut(d, angle, u, a, v)
  {
    if RuledOut(d, angle, u, b, v) {
      var w :| w in b && RulesOut(d, angle, u, w, v);
      assert w in a;
    }
  }

  lemma {:induction false} SameTaken(
      d: (int, int) -> real, angle: AngleFilter, u: int, pool: set<int>, bound: int, a: seq<int>, b: seq<int>, v: int)
    requires PrunedTo(d, angle, u, pool, bound, a) && PrunedTo(d, angle, u, pool, bound, b)
    ensures v in a <==> v in b
    decreases |Ahead(d, u, pool, v)|
  {
    hide Before, RuledOut, FullBefore, Ahead;
    forall w | Before(d, u, w, v) && (w in a || w in b)
      ensures w in a && w in b
    {
      FewerAhead(d, u, pool, w, v);
      SameTaken(d, angle, u, pool, bound, a, b, w);
    }
    if v in a {
      TakesNoMore(d, angle, u, pool, bound, a, b, v);
    }
    if v in b {
      TakesNoMore(d, angle, u, pool, bound, b, a, v);
    }
  }

  lemma TagAscends(d: (int, int) -> real, angle: AngleFilter, u: int, pool: set<int>, bound: int, a: seq<int>)
    requires PrunedTo(d, angle, u, pool, bound, a)
    ensures Sort(Tag(From(d, u), a)) == Tag(From(d, u), a)
  {
    hide RuledOut, FullBefore;
    var t := Tag(From(d, u), a);
    forall i, j | 0 <= i < j < |t|
      ensures !Better(t[j], t[i])
    {
      assert Before(d, u, a[i], a[j]);
      BeforeIsBetter(d, u, a[i], a[j]);
      StrictTotalOrder(t[i], t[j], t[i]);
    }
    SortOfSorted(t);
  }

  /** Distances, the filter and the bound leave exactly one such list. */
  lemma PrunedOnce(
      d: (int, int) -> real, angle: AngleFilter, u: int, pool: set<int>, bound: int, a: seq<int>, b: seq<int>)
    requires PrunedTo(d, angle, u, pool, bound, a) && PrunedTo(d, angle, u, pool, bound, b)
    ensures a == b
  {
    hide Before, RuledOut, FullBefore, PrunedTo;
    forall v
      ensures v in a <==> v in b
    {
      SameTaken(d, angle, u, pool, bound, a, b, v);
    }
    AscendingIsDistinct(d, angle, u, pool, bound, a);
    AscendingIsDistinct(d, angle, u, pool, bound, b);
    SortOfSet(From(d, u), a, b);
    TagAscends(d, angle, u, pool, bound, a);
    TagAscends(d, angle, u, pool, bound, b);
    assert Ids(Tag(From(d, u), a)) == a && Ids(Tag(From(d, u), b)) == b;
  }

  /** So a list is the pruned one if and only if it obeys the rule. */
  lemma PrunedExactly(d: (int, int) -> real, angle: AngleFilter, u: int, ids: seq<int>, bound: int, list: seq<int>)
    ensures PrunedTo(d, angle, u, Elements(ids), bound, list) <==> list == Ids(PruneIds(d, angle, u, ids, bound))
  {
    hide PrunedTo, PruneIds;
    PruneIsPrunedTo(d, angle, u, ids, bound);
    if PrunedTo(d, angle, u, Elements(ids), bound, list) {
      PrunedOnce(d, angle, u, Elements(ids), bound, list, Ids(PruneIds(d, angle, u, ids, bound)));
    }
  }

  // ---------- one pruning call ----------

  function PruneIds(d: (int, int) -> real, angle: AngleFilter, source: int, ids: seq<int>, maxDegree: int)
    : seq<Result>
  {
    Greedy(d, angle, Normalize(d, source, ids), maxDegree)
  }

  function PruneOutcome(
      count: int, d: (int, int) -> real, angle: AngleFilter, source: int, ids: seq<int>, maxDegree: int)
    : Outcome<seq<Result>>
  {
    match FirstBad(count, source, ids)
    case Some(id) => Err(CandidateOutOfRange(id))
    case None =>
      if maxDegree < 0 then Err(NegativeCapacity) else Ok(PruneIds(d, angle, source, ids, maxDegree))
  }

  /**
   * Accept candidates nearest first unless an accepted one dominates them, up to the degree bound. A negative
   * bound is a negative slice capacity, at which the source panics.
   */
  method PruneCandidates(
      count: int, d: (int, int) -> real, angle: AngleFilter, source: int, candidates: seq<Result>, maxDegree: int)
    returns (out: Outcome<seq<Result>>)
    ensures out == PruneOutcome(count, d, angle, source, Ids(candidates), maxDegree)
  {
    var normalized := NormalizePruneCandidates(count, d, source, candidates);
    if normalized.Err? {
      return Err(normalized.error);
    }
    if maxDegree < 0 {
      return Err(NegativeCapacity);
    }
    var pruned := KeepUndominated(d, angle, normalized.value, maxDegree);
    return Ok(pruned);
  }

  /** The double loop: nearest first, each candidate against those kept, until the bound is reached. */
  method KeepUndominated(d: (int, int) -> real, angle: AngleFilter, list: seq<Result>, maxDegree: int)
    returns (pruned: seq<Result>)
    ensures pruned == Greedy(d, angle, list, maxDegree)
  {
    hide Kernel, Greedy, Dominated;
    pruned := [];
    KernelOfNone(d, angle, list);
    for i := 0 to |list|
      invariant pruned == Kernel(d, angle, list[..i])
      invariant |pruned| < Cap(maxDegree)
    {
      KernelStep(d, angle, list, i);
      var dominated := IsDominated(d, angle, pruned, list[i]);
      if dominated {
        continue;
      }
      pruned := pruned + [list[i]];
      if |pruned| >= maxDegree {
        GreedyStops(d, angle, list, i + 1, maxDegree);
        return;
      }
    }
    assert list[..|list|] == list;
    GreedyStops(d, angle, list, |list|, maxDegree);
  }

  lemma KernelOfNone(d: (int, int) -> real, angle: AngleFilter, list: seq<Result>)
    ensures Kernel(d, angle, list[..0]) == []
  {
  }

  lemma KernelStep(d: (int, int) -> real, angle: AngleFilter, list: seq<Result>, i: nat)
    requires i < |list|
    ensures var kept := Kernel(d, angle, list[..i]);
            Kernel(d, angle, list[..i + 1]) == if Dominated(d, angle, kept, list[i]) then kept else kept + [list[i]]
  {
    assert list[..i + 1][..i] == list[..i];
  }

  /** A loop that ended with a full list, or with all candidates, has the capped kernel. */
  lemma GreedyStops(d: (int, int) -> real, angle: AngleFilter, list: seq<Result>, i: nat, maxDegree: int)
    requires i <= |list| && |Kernel(d, angle, list[..i])| <= Cap(maxDegree)
    requires i == |list| || |Kernel(d, angle, list[..i])| == Cap(maxDegree)
    ensures Greedy(d, angle, list, maxDegree) == Kernel(d, angle, list[..i])
  {
    KernelPrefix(d, angle, list, i);
    if i == |list| {
      assert list[..i] == list;
    }
  }

  method IsDominated(d: (int, int) -> real, angle: AngleFilter, pruned: seq<Result>, next: Result)
    returns (dominated: bool)
    ensures dominated <==> Dominated(d, angle, pruned, next)
  {
    for j := 0 to |pruned|
      invariant !Dominated(d, angle, pruned[..j], next)
    {
      var accepted := pruned[j];
      assert pruned[..j + 1] == pruned[..j] + [accepted];
      DominatedAppend(d, angle, pruned[..j], accepted, next);
      if accepted.distance >= next.distance {
        continue;
      }
      if d(next.id, accepted.id) >= next.distance {
        continue;
      }
      if !angle(next.id, accepted.id) {
        continue;
      }
      assert Dominates(d, angle, pruned[j], next);
      return true;
    }
    assert pruned[..|pruned|] == pruned;
    return false;
  }

  // ---------- laws of pruning ----------

  /** With a positive bound m the output is the first m of the unbounded output. */
  lemma CapIsPrefix(d: (int, int) -> real, angle: AngleFilter, source: int, ids: seq<int>, m: int, m': int)
    requires 1 <= m <= m'
    ensures PruneIds(d, angle, source, ids, m) == Take(PruneIds(d, angle, source, ids, m'), m)
  {
  }

  /** Order, repetition and supplied scores of the candidates are irrelevant. */
  lemma PruneIsSetFunction(
      count: int, d: (int, int) -> real, angle: AngleFilter, source: int, a: seq<int>, b: seq<int>, m: int)
    requires forall x :: x != source ==> (x in a <==> x in b)
    ensures PruneOutcome(count, d, angle, source, a, m).Ok? <==> PruneOutcome(count, d, angle, source, b, m).Ok?
    ensures PruneIds(d, angle, source, a, m) == PruneIds(d, angle, source, b, m)
  {
    NormalizeSet(d, source, a, b);
    FirstBadExact(count, source, a);
    FirstBadExact(count, source, b);
  }

  /** The output is sorted and made of distinct in-list neighbours within the bound; the nearest survives. */
  lemma PruneFacts(d: (int, int) -> real, angle: AngleFilter, source: int, ids: seq<int>, m: int)
    ensures var p := PruneIds(d, angle, source, ids, m);
            && Sorted(p) && Distinct(Ids(p)) && |p| <= Cap(m)
            && (forall r :: r in p ==> r.id in ids && r.id != source && r.distance == d(source, r.id))
            && ((exists x :: x in ids && x != source) ==>
                  p != [] && p[0] == Normalize(d, source, ids)[0])
  {
    var s := Normalize(d, source, ids);
    NormalizeFacts(d, source, ids);
    KernelSorted(d, angle, s);
    var k := Kernel(d, angle, s);
    var p := PruneIds(d, angle, source, ids, m);
    assert forall i :: 0 <= i < |p| ==> Ids(p)[i] == Ids(k)[i];
    forall r | r in p
      ensures r.id in ids && r.id != source && r.distance == d(source, r.id)
    {
      KernelMember(d, angle, s, r);
    }
    if exists x :: x in ids && x != source {
      var x :| x in ids && x != source;
      assert Result(x, d(source, x)) in s;
      KernelNonEmpty(d, angle, s);
    }
  }

  lemma {:induction false} IndependentIsKernel(d: (int, int) -> real, angle: AngleFilter, s: seq<Result>)
    requires forall v, w :: v in s && w in s ==> !Dominates(d, angle, w, v)
    ensures Kernel(d, angle, s) == s
  {
    if s != [] {
      assert s == s[..|s| - 1] + [s[|s| - 1]];
      IndependentIsKernel(d, angle, s[..|s| - 1]);
    }
  }

  lemma NormalizeSelf(d: (int, int) -> real, source: int, p: seq<Result>)
    requires Sorted(p) && Distinct(Ids(p))
    requires forall r :: r in p ==> r.id != source && r.distance == d(source, r.id)
    ensures Normalize(d, source, Ids(p)) == p
  {
    DedupFacts(source, Ids(p));
    var q := From(d, source);
    forall x
      ensures x in Dedup(source, Ids(p)) <==> x in Ids(p)
    {
      IdsMember(p, x);
    }
    SortOfSet(q, Dedup(source, Ids(p)), Ids(p));
    forall i | 0 <= i < |p|
      ensures Tag(q, Ids(p))[i] == p[i]
    {
      assert p[i] in p;
    }
    assert Tag(q, Ids(p)) == p;
    SortOfSorted(p);
  }

  /** Pruning a pruned list returns it unchanged. */
  lemma PruneIdempotent(d: (int, int) -> real, angle: AngleFilter, source: int, ids: seq<int>, m: int)
    ensures var p := PruneIds(d, angle, source, ids, m);
            PruneIds(d, angle, source, Ids(p), m) == p
  {
    var s := Normalize(d, source, ids);
    var p := PruneIds(d, angle, source, ids, m);
    NormalizeFacts(d, source, ids);
    PruneFacts(d, angle, source, ids, m);
    NormalizeSelf(d, source, p);
    KernelExists(d, angle, s);
    forall v, w | v in p && w in p
      ensures !Dominates(d, angle, w, v)
    {
      assert v in Kernel(d, angle, s) && w in Kernel(d, angle, s);
      KernelMember(d, angle, s, v);
    }
    IndependentIsKernel(d, angle, p);
  }
}
