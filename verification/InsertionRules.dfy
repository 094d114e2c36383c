/** What one insertion of the baseline does to the graph, without its loops. */
module InsertionRules {
  import opened Order
  import opened Sorting
  import opened Scans
  import opened Prune
  import opened Beams
  import opened BeamTheorems
  import opened GreedyLayer
  import opened Config
  import opened Layout
  import opened Graphs
  import opened StandardHNSW
  import opened Insertion

  // ---------- selection ----------

  /** Seen from u, a is nearer than b; distances are taken with the candidate first. */
  ghost predicate NearerTo(d: (int, int) -> real, u: int, a: int, b: int) {
    d(a, u) < d(b, u) || (d(a, u) == d(b, u) && a < b)
  }

  /** Some listed node ahead of v is nearer to v than u is. */
  ghost predicate CrowdedOut(d: (int, int) -> real, u: int, list: seq<int>, v: int) {
    exists w :: w in list && NearerTo(d, u, w, v) && d(v, w) < d(v, u)
  }

  /**
   * The neighbours u selects from a pool, by distances alone: nearest first, within the bound, none crowded out by
   * another, and every candidate that is missing is crowded out or behind a full list.
   */
  ghost predicate SelectedFrom(d: (int, int) -> real, u: int, pool: set<int>, bound: int, list: seq<int>) {
    && |list| <= bound
    && (forall i, j :: 0 <= i < j < |list| ==> NearerTo(d, u, list[i], list[j]))
    && (forall v :: v in list ==> v in pool && v != u && !CrowdedOut(d, u, list, v))
    && (forall v :: v in pool && v != u ==>
          || v in list || CrowdedOut(d, u, list, v)
          || (|list| == bound && forall w :: w in list ==> NearerTo(d, u, w, v)))
  }

  lemma NearerIsBetter(d: (int, int) -> real, u: int, a: int, b: int)
    ensures NearerTo(d, u, a, b) <==> Better(Result(a, d(a, u)), Result(b, d(b, u)))
  {
  }

  /** Scored against the vector of u. */
  ghost predicate ScoredTo(d: (int, int) -> real, u: int, s: seq<Result>) {
    forall r :: r in s ==> r.distance == d(r.id, u)
  }

  lemma Ascends(d: (int, int) -> real, u: int, s: seq<Result>, i: nat, j: nat)
    requires Sorted(s) && Distinct(Ids(s)) && ScoredTo(d, u, s) && i < j < |s|
    ensures NearerTo(d, u, s[i].id, s[j].id)
  {
    StrictlyAscending(s, i, j);
    assert s[i] in s && s[j] in s;
    NearerIsBetter(d, u, s[i].id, s[j].id);
  }

  lemma CrowdedOutAppend(d: (int, int) -> real, u: int, list: seq<int>, x: int, v: int)
    ensures CrowdedOut(d, u, list + [x], v) <==>
            CrowdedOut(d, u, list, v) || (NearerTo(d, u, x, v) && d(v, x) < d(v, u))
  {
    var t := list + [x];
    assert x in t && forall w :: w in t <==> w in list || w == x;
  }

  /** All of the selection so far is ahead of the next candidate. */
  lemma CrowdedByAll(d: (int, int) -> real, u: int, s: seq<Result>)
    requires s != [] && Sorted(s) && Distinct(Ids(s)) && ScoredTo(d, u, s)
    ensures var k, last := Diverse(d, s[..|s| - 1]), s[|s| - 1];
            CrowdedOut(d, u, Ids(k), last.id) <==> Crowded(d, k, last)
  {
    hide NearerTo;
    var front, last := s[..|s| - 1], s[|s| - 1];
    var k := Diverse(d, front);
    assert last in s;
    forall i | 0 <= i < |k|
      ensures NearerTo(d, u, k[i].id, last.id)
    {
      DiverseMember(d, front, k[i]);
      var j :| 0 <= j < |front| && front[j] == k[i];
      Ascends(d, u, s, j, |s| - 1);
    }
    if Crowded(d, k, last) {
      var i :| 0 <= i < |k| && Crowds(d, k[i], last);
      assert Ids(k)[i] in Ids(k);
    }
    if CrowdedOut(d, u, Ids(k), last.id) {
      var w :| w in Ids(k) && NearerTo(d, u, w, last.id) && d(last.id, w) < d(last.id, u);
      var i :| 0 <= i < |Ids(k)| && Ids(k)[i] == w;
      assert Crowds(d, k[i], last);
    }
  }

  lemma NotNearer(d: (int, int) -> real, u: int, a: int, b: int)
    ensures !NearerTo(d, u, a, a)
    ensures NearerTo(d, u, a, b) ==> !NearerTo(d, u, b, a)
  {
  }

  lemma FrontOfScored(d: (int, int) -> real, u: int, s: seq<Result>, v: Result)
    requires s != [] && Sorted(s) && Distinct(Ids(s)) && ScoredTo(d, u, s) && v in s
    ensures var front, last := s[..|s| - 1], s[|s| - 1];
            && Sorted(front) && Distinct(Ids(front)) && ScoredTo(d, u, front) && last !in Diverse(d, front)
            && !NearerTo(d, u, last.id, v.id) && (v == last || v in front)
  {
    var front, last := s[..|s| - 1], s[|s| - 1];
    DistinctIdsFront(s);
    DiverseMember(d, front, last);
    assert forall i :: 0 <= i < |front| ==> front[i] in s;
    var i :| 0 <= i < |s| && s[i] == v;
    NotNearer(d, u, last.id, last.id);
    if i < |s| - 1 {
      Ascends(d, u, s, i, |s| - 1);
      NotNearer(d, u, v.id, last.id);
      assert front[i] == v;
    }
  }

  /** A candidate is selected exactly when no selected node crowds it out. */
  lemma {:induction false} DiverseIsKernel(d: (int, int) -> real, u: int, s: seq<Result>, v: Result)
    requires Sorted(s) && Distinct(Ids(s)) && ScoredTo(d, u, s) && v in s
    ensures v in Diverse(d, s) <==> !CrowdedOut(d, u, Ids(Diverse(d, s)), v.id)
  {
    hide NearerTo, Sorted, ScoredTo, Crowded, CrowdedOut;
    var front, last := s[..|s| - 1], s[|s| - 1];
    var k := Diverse(d, front);
    FrontOfScored(d, u, s, v);
    CrowdedByAll(d, u, s);
    CrowdedOutAppend(d, u, Ids(k), last.id, v.id);
    assert Ids(k + [last]) == Ids(k) + [last.id];
    if v != last {
      DiverseIsKernel(d, u, front, v);
    }
  }

  lemma {:induction false} DiverseSorted(d: (int, int) -> real, s: seq<Result>)
    requires Sorted(s)
    ensures Sorted(Diverse(d, s))
  {
    if s != [] {
      var front, last := s[..|s| - 1], s[|s| - 1];
      DiverseSorted(d, front);
      var k := Diverse(d, front);
      forall i | 0 <= i < |k|
        ensures !Better(last, k[i])
      {
        DiverseMember(d, front, k[i]);
        var j :| 0 <= j < |front| && front[j] == k[i];
      }
    }
  }

  /** A prefix of the selection crowds out what the selection does, or is full and ahead of it. */
  lemma CutSelection(d: (int, int) -> real, u: int, k: seq<Result>, bound: nat, v: Result)
    requires Sorted(k) && Distinct(Ids(k)) && ScoredTo(d, u, k)
    requires v in k || CrowdedOut(d, u, Ids(k), v.id)
    ensures var list := Ids(Take(k, bound));
            || v.id in list || CrowdedOut(d, u, list, v.id)
            || (|list| == bound && forall w :: w in list ==> NearerTo(d, u, w, v.id))
  {
    hide Sorted, ScoredTo;
    var t := Take(k, bound);
    var i := SelfOrCrowder(d, u, k, v);
    if i < |t| {
      assert Ids(t)[i] == k[i].id;
    } else {
      forall w | w in Ids(t)
        ensures NearerTo(d, u, w, v.id)
      {
        var j :| 0 <= j < |Ids(t)| && Ids(t)[j] == w;
        Ascends(d, u, k, j, i);
      }
    }
  }

  lemma SelfOrCrowder(d: (int, int) -> real, u: int, k: seq<Result>, v: Result) returns (i: nat)
    requires v in k || CrowdedOut(d, u, Ids(k), v.id)
    ensures i < |k|
    ensures k[i] == v || (NearerTo(d, u, k[i].id, v.id) && d(v.id, k[i].id) < d(v.id, u))
  {
    if v in k {
      i :| 0 <= i < |k| && k[i] == v;
    } else {
      var w :| w in Ids(k) && NearerTo(d, u, w, v.id) && d(v.id, w) < d(v.id, u);
      i :| 0 <= i < |Ids(k)| && Ids(k)[i] == w;
    }
  }

  lemma FewerCrowdOut(d: (int, int) -> real, u: int, t: seq<Result>, k: seq<Result>, v: int)
    requires t <= k
    ensures CrowdedOut(d, u, Ids(t), v) ==> CrowdedOut(d, u, Ids(k), v)
  {
    assert forall i :: 0 <= i < |t| ==> Ids(t)[i] == Ids(k)[i];
  }

  lemma DiverseFromPool(d: (int, int) -> real, u: int, ids: seq<int>)
    ensures var s, k := Scored(d, u, ids), Diverse(d, Scored(d, u, ids));
            && Sorted(s) && Distinct(Ids(s)) && ScoredTo(d, u, s)
            && Sorted(k) && Distinct(Ids(k)) && ScoredTo(d, u, k)
            && (forall r :: r in k ==> r in s && r.id in ids && r.id != u)
  {
    hide Sorted, Scored;
    var s := Scored(d, u, ids);
    ScoredFacts(d, u, ids);
    DiverseSorted(d, s);
    DiverseDistinct(d, s);
    forall r | r in Diverse(d, s)
      ensures r in s
    {
      DiverseMember(d, s, r);
    }
  }

  /** The selection heuristic selects in this sense. */
  lemma SelectedIsSelectedFrom(d: (int, int) -> real, u: int, ids: seq<int>, bound: nat)
    ensures SelectedFrom(d, u, Elements(ids), bound, Selected(d, u, ids, bound))
  {
    hide Sorted, Scored, NearerTo, ScoredTo, Diverse, CrowdedOut;
    var s := Scored(d, u, ids);
    var k := Diverse(d, s);
    var t := Take(k, bound);
    DiverseFromPool(d, u, ids);
    ScoredFacts(d, u, ids);
    forall i, j | 0 <= i < j < |t|
      ensures NearerTo(d, u, Ids(t)[i], Ids(t)[j])
    {
      Ascends(d, u, k, i, j);
    }
    forall v | v in Ids(t)
      ensures v in Elements(ids) && v != u && !CrowdedOut(d, u, Ids(t), v)
    {
      var i :| 0 <= i < |Ids(t)| && Ids(t)[i] == v;
      assert k[i] in k;
      DiverseIsKernel(d, u, s, k[i]);
      FewerCrowdOut(d, u, t, k, v);
    }
    forall v | v in Elements(ids) && v != u
      ensures || v in Ids(t) || CrowdedOut(d, u, Ids(t), v)
              || (|t| == bound && forall w :: w in Ids(t) ==> NearerTo(d, u, w, v))
    {
      DiverseIsKernel(d, u, s, Result(v, d(v, u)));
      CutSelection(d, u, k, bound, Result(v, d(v, u)));
    }
  }

  // ---------- connecting a node on one layer ----------

  /** A neighbour's list after the reverse edge: longer by the node, or selected anew when that is too long. */
  ghost predicate LinkedBack(
      d: (int, int) -> real, n: int, before: seq<int>, node: int, bound: int, after: seq<int>)
  {
    var longer := if node in before then before else before + [node];
    if |longer| <= bound then after == longer else SelectedFrom(d, n, Elements(longer), bound, after)
  }

  /** The node selects among what it found, its neighbours link back, and no other list changes. */
  ghost predicate ConnectedBy(
      d: (int, int) -> real, node: int, found: set<int>, bound: int, before: seq<seq<int>>, after: seq<seq<int>>)
  {
    && 0 <= node < |before| == |after|
    && SelectedFrom(d, node, found, bound, after[node])
    && forall n :: 0 <= n < |before| && n != node ==>
         if n in after[node] then LinkedBack(d, n, before[n], node, bound, after[n]) else after[n] == before[n]
  }

  lemma LinkedIsLinkedBack(d: (int, int) -> real, n: int, list: seq<int>, node: int, bound: nat)
    ensures LinkedBack(d, n, list, node, bound, Linked(d, n, list, node, bound))
  {
    SelectedIsSelectedFrom(d, n, AppendUnique(list, node), bound);
  }

  lemma {:induction false} LinkAllAt(
      d: (int, int) -> real, adj: seq<seq<int>>, node: int, neighbors: seq<int>, bound: int, n: int)
    requires InRange(|adj|, neighbors) && Distinct(neighbors) && 0 <= n < |adj|
    ensures LinkAll(d, adj, node, neighbors, bound)[n] ==
            if n in neighbors then Linked(d, n, adj[n], node, bound) else adj[n]
  {
    hide Linked;
    if neighbors != [] {
      var front, last := neighbors[..|neighbors| - 1], neighbors[|neighbors| - 1];
      assert neighbors == front + [last];
      LinkAllAt(d, adj, node, front, bound, n);
      assert last !in front;
    }
  }

  lemma ConnectOnIsConnected(
      adj: seq<seq<int>>, d: (int, int) -> real, node: int, entries: seq<int>, ef: int, bound: int)
    requires bound >= 1 && 0 <= node < |adj|
    ensures ConnectedBy(d, node, Elements(Ids(Search(adj, To(d, node), entries, ef).best)), bound, adj,
                        ConnectOn(adj, d, node, entries, ef, bound))
  {
    hide Search, Selected, LinkAll, Linked, LinkedBack, SelectedFrom;
    var found := Ids(Search(adj, To(d, node), entries, ef).best);
    var chosen := Chosen(adj, d, node, entries, ef, bound);
    var after := ConnectOn(adj, d, node, entries, ef, bound);
    ChosenInRange(adj, d, node, entries, ef, bound);
    SelectedFacts(d, node, found, bound);
    SelectedIsSelectedFrom(d, node, found, bound);
    LinkAllAt(d, adj[node := chosen], node, chosen, bound, node);
    forall n | 0 <= n < |adj| && n != node
      ensures if n in chosen then LinkedBack(d, n, adj[n], node, bound, after[n]) else after[n] == adj[n]
    {
      LinkAllAt(d, adj[node := chosen], node, chosen, bound, n);
      LinkedIsLinkedBack(d, n, adj[n], node, bound);
    }
  }

  // ---------- one insertion ----------

  /** What happens on one layer: a settled search of the given width from the entries, and the connection. */
  ghost predicate LayerInserted(
      d: (int, int) -> real, node: int, ef: int, bound: int, before: seq<seq<int>>, entries: seq<int>,
      w: seq<Result>, after: seq<seq<int>>)
  {
    && Settled(before, To(d, node), entries, ef, w) && (forall r :: r in w ==> r.distance == d(r.id, node))
    && ConnectedBy(d, node, Elements(Ids(w)), bound, before, after)
  }

  /** The entry point passed down to layer `low`: p[i] enters layer top - i. */
  ghost predicate WalkedDown(
      layers: seq<seq<seq<int>>>, q: int -> real, top: int, low: int, entry: int, p: seq<int>)
  {
    && 0 <= low <= top < |layers| && |p| == top - low + 1 && p[0] == entry
    && forall i :: 1 <= i < |p| ==> WalksOn(layers, q, top, p, i)
  }

  ghost predicate WalksOn(layers: seq<seq<seq<int>>>, q: int -> real, top: int, p: seq<int>, i: nat)
    requires 1 <= i < |p| <= top + 1 <= |layers|
  {
    HandedOn(layers[top - i + 1], q, p[i - 1], p[i])
  }

  function End(p: seq<int>): int
    requires p != []
  {
    p[|p| - 1]
  }

  /** Layer l is entered where the walk ended, or where the search of the layer above ended. */
  ghost predicate InsertedAt(
      d: (int, int) -> real, m: int, ef: int, before: seq<seq<seq<int>>>, node: int, after: seq<seq<seq<int>>>,
      low: nat, entry: int, ws: seq<seq<Result>>, l: nat)
    requires l <= low < |before| == |after| && |ws| == low + 1
  {
    var entries := if l == low then [entry] else Ids(ws[l + 1]);
    LayerInserted(d, node, ef, DegreeBound(m, l), before[l], entries, ws[l], after[l])
  }

  /**
   * The state after inserting a node: from the entry point greedily down to the node's level, then a search and a
   * connection on every layer from there to 0, each search starting from all that the one above found. Layers above
   * keep their lists, and a node above the maximum becomes the entry point.
   */
  ghost predicate InsertedBy(
      levels: seq<int>, d: (int, int) -> real, m: int, ef: int, st: Standard, node: nat, next: Standard)
    requires node < |levels|
  {
    exists p, ws :: InsertedFrom(levels, d, m, ef, st, node, next, p, ws)
  }

  ghost predicate InsertedFrom(
      levels: seq<int>, d: (int, int) -> real, m: int, ef: int, st: Standard, node: nat, next: Standard, p: seq<int>,
      ws: seq<seq<Result>>)
    requires node < |levels|
  {
    var low := if levels[node] > st.maxLayer then st.maxLayer else levels[node];
    && WalkedDown(st.layers, To(d, node), st.maxLayer, low, st.entryPoint, p)
    && |next.layers| == |st.layers| && |ws| == low + 1
    && (forall l: nat :: l <= low ==> InsertedAt(d, m, ef, st.layers, node, next.layers, low, End(p), ws, l))
    && (forall l :: low < l < |st.layers| ==> next.layers[l] == st.layers[l])
    && (if levels[node] > st.maxLayer then next.entryPoint == node && next.maxLayer == levels[node]
        else next.entryPoint == st.entryPoint && next.maxLayer == st.maxLayer)
  }

  lemma {:induction false} GreedyWalk(
      layers: seq<seq<seq<int>>>, q: int -> real, n: nat, top: int, level: nat, entry: int) returns (p: seq<int>)
    requires SameSize(layers, n) && 0 <= top < |layers| && 0 <= entry < n
    ensures WalkedDown(layers, q, top, MinOf(level, top), entry, p)
    ensures GreedyDown(layers, q, top, level, [entry]) == [p[|p| - 1]]
    decreases top
  {
    hide HandedOn, Search;
    if top <= level {
      p := [entry];
    } else {
      SearchHandsOn(layers[top], q, entry);
      var w := Search(layers[top], q, [entry], 1).best;
      HandedInRange(layers[top], q, entry, w[0].id);
      assert Ids(w) == [w[0].id];
      var rest := GreedyWalk(layers, q, n, top - 1, level, w[0].id);
      p := [entry] + rest;
      WalkLonger(layers, q, top, MinOf(level, top), entry, w[0].id, rest);
    }
  }

  lemma WalkLonger(
      layers: seq<seq<seq<int>>>, q: int -> real, top: int, low: int, entry: int, next: int, rest: seq<int>)
    requires WalkedDown(layers, q, top - 1, low, next, rest) && top < |layers|
    requires HandedOn(layers[top], q, entry, next)
    ensures WalkedDown(layers, q, top, low, entry, [entry] + rest)
  {
    hide HandedOn;
    var p := [entry] + rest;
    forall i | 1 <= i < |p|
      ensures WalksOn(layers, q, top, p, i)
    {
      if i > 1 {
        assert WalksOn(layers, q, top - 1, rest, i - 1);
      }
    }
  }

  /** The entries of layer l - 1 are what layer l passes on. */
  ghost predicate CarriedOn(layers: seq<Adjacency>, next: NextDown, es: seq<seq<int>>, l: nat)
    requires 1 <= l < |es| <= |layers|
  {
    es[l - 1] == next(l, layers[l], es[l])
  }

  /** The entries with which a downward pass meets each layer. */
  lemma {:induction false} DownEntries(
      layers: seq<Adjacency>, on: OnLayer, next: NextDown, layer: nat, entries: seq<int>)
      returns (es: seq<seq<int>>)
    requires layer < |layers|
    ensures |es| == layer + 1 && es[layer] == entries
    ensures forall l :: 1 <= l < |es| ==> CarriedOn(layers, next, es, l)
    ensures var r := Down(layers, on, next, layer, entries);
            && (forall l :: 0 <= l <= layer ==> r[l] == on(l, layers[l], es[l]))
            && (forall l :: layer < l < |layers| ==> r[l] == layers[l])
    decreases layer
  {
    var changed := layers[layer := on(layer, layers[layer], entries)];
    var carried := next(layer, layers[layer], entries);
    if layer == 0 {
      es := [entries];
    } else {
      var lower := DownEntries(changed, on, next, layer - 1, carried);
      es := lower + [entries];
      forall l | 1 <= l < |es|
        ensures CarriedOn(layers, next, es, l)
      {
        if l < layer {
          assert CarriedOn(changed, next, lower, l);
        }
      }
    }
  }

  /** Searches of a layer that is valid for the nodes before this one find something. */
  ghost predicate AllFind(
      d: (int, int) -> real, ef: int, node: int, layers: seq<Adjacency>, es: seq<seq<int>>)
  {
    forall l :: 0 <= l < |es| && l < |layers| ==> Search(layers[l], To(d, node), es[l], ef).best != []
  }

  lemma {:induction false} EntriesLive(
      levels: seq<int>, d: (int, int) -> real, m: int, ef: int, node: nat, layers: seq<Adjacency>,
      es: seq<seq<int>>, l: nat)
    requires node < |levels| && 1 <= m < HALF && ef > 0 && LayersOk(levels, m, node, layers)
    requires l < |es| <= |layers| && |es| - 1 <= levels[node]
    requires es[|es| - 1] != [] && AllLive(levels, |es| - 1, node, es[|es| - 1])
    requires forall k :: 1 <= k < |es| ==> CarriedOn(layers, CarryEntries(d, node, ef), es, k)
    ensures es[l] != [] && AllLive(levels, l, node, es[l])
    decreases |es| - l
  {
    hide AllLive, LayerOk, Search;
    if l < |es| - 1 {
      EntriesLive(levels, d, m, ef, node, layers, es, l + 1);
      assert LayerOk(levels, l + 1, LayerMaxDegree(m, l + 1), node, layers[l + 1]);
      StepDown(levels, d, m, node, ef, l + 1, layers[l + 1], es[l + 1]);
      assert CarriedOn(layers, CarryEntries(d, node, ef), es, l + 1);
    }
  }

  lemma EntriesFind(
      levels: seq<int>, d: (int, int) -> real, m: int, ef: int, node: nat, layers: seq<Adjacency>, es: seq<seq<int>>)
    requires node < |levels| && 1 <= m < HALF && ef > 0 && LayersOk(levels, m, node, layers)
    requires es != [] && |es| <= |layers| && |es| - 1 <= levels[node]
    requires es[|es| - 1] != [] && AllLive(levels, |es| - 1, node, es[|es| - 1])
    requires forall k :: 1 <= k < |es| ==> CarriedOn(layers, CarryEntries(d, node, ef), es, k)
    ensures AllFind(d, ef, node, layers, es)
  {
    hide AllLive, LayerOk, Search, CarriedOn;
    forall l | 0 <= l < |es|
      ensures Search(layers[l], To(d, node), es[l], ef).best != []
    {
      EntriesLive(levels, d, m, ef, node, layers, es, l);
      assert LayerOk(levels, l, LayerMaxDegree(m, l), node, layers[l]);
      SearchFindsLive(levels, l, LayerMaxDegree(m, l), node, layers[l], To(d, node), es[l], ef);
    }
  }

  /** The results of the searches of a downward pass. */
  ghost function Founds(d: (int, int) -> real, ef: int, node: int, layers: seq<Adjacency>, es: seq<seq<int>>)
    : (ws: seq<seq<Result>>)
    requires |es| <= |layers|
    ensures |ws| == |es|
    ensures forall l :: 0 <= l < |es| ==> ws[l] == Search(layers[l], To(d, node), es[l], ef).best
  {
    seq(|es|, l requires 0 <= l < |es| => Search(layers[l], To(d, node), es[l], ef).best)
  }

  lemma CarriedIds(
      d: (int, int) -> real, ef: int, node: int, layers: seq<Adjacency>, es: seq<seq<int>>, l: nat)
    requires l + 1 < |es| <= |layers| && AllFind(d, ef, node, layers, es)
    requires CarriedOn(layers, CarryEntries(d, node, ef), es, l + 1)
    ensures es[l] == Ids(Founds(d, ef, node, layers, es)[l + 1])
  {
    hide Search;
  }

  lemma FoundScores(adj: Adjacency, d: (int, int) -> real, node: int, entries: seq<int>, ef: int)
    requires ef > 0
    ensures forall r :: r in Search(adj, To(d, node), entries, ef).best ==> r.distance == d(r.id, node)
  {
    hide Search;
    SearchIsListed(adj, To(d, node), entries, ef);
  }

  /** One layer of a downward pass. */
  lemma PassInserts(
      d: (int, int) -> real, m: int, ef: int, node: nat, layers: seq<Adjacency>, es: seq<seq<int>>, l: nat,
      after: Adjacency)
    requires 1 <= m < HALF && ef > 0 && l < |es| <= |layers| && node < |layers[l]|
    requires after == ConnectNode(d, node, ef, m)(l, layers[l], es[l])
    ensures LayerInserted(d, node, ef, DegreeBound(m, l), layers[l], es[l], Founds(d, ef, node, layers, es)[l], after)
  {
    hide Search, ConnectOn, ConnectedBy, Settled;
    SearchSettles(layers[l], To(d, node), es[l], ef);
    FoundScores(layers[l], d, node, es[l], ef);
    assert LayerMaxDegree(m, l) == DegreeBound(m, l);
    assert after == ConnectOn(layers[l], d, node, es[l], ef, DegreeBound(m, l));
    ConnectOnIsConnected(layers[l], d, node, es[l], ef, DegreeBound(m, l));
  }

  /** The downward pass of an insertion into a valid state, layer by layer. */
  lemma PassIsInserted(
      levels: seq<int>, d: (int, int) -> real, m: int, ef: int, node: nat, layers: seq<Adjacency>, low: nat,
      entry: int) returns (ws: seq<seq<Result>>)
    requires node < |levels| && 1 <= m < HALF && ef > 0 && LayersOk(levels, m, node, layers)
    requires low < |layers| && low <= levels[node] && AllLive(levels, low, node, [entry])
    ensures |ws| == low + 1
    ensures var r := Down(layers, ConnectNode(d, node, ef, m), CarryEntries(d, node, ef), low, [entry]);
            && (forall l: nat :: l <= low ==> InsertedAt(d, m, ef, layers, node, r, low, entry, ws, l))
            && (forall l :: low < l < |layers| ==> r[l] == layers[l])
  {
    hide LayerInserted, ConnectNode, CarryEntries, AllLive, LayerOk, Search, CarriedOn;
    var on, next := ConnectNode(d, node, ef, m), CarryEntries(d, node, ef);
    var es := DownEntries(layers, on, next, low, [entry]);
    var r := Down(layers, on, next, low, [entry]);
    EntriesFind(levels, d, m, ef, node, layers, es);
    ws := Founds(d, ef, node, layers, es);
    forall l: nat | l <= low
      ensures InsertedAt(d, m, ef, layers, node, r, low, entry, ws, l)
    {
      LayerHasNode(levels, m, node, layers, l);
      PassInserts(d, m, ef, node, layers, es, l, r[l]);
      if l < low {
        assert CarriedOn(layers, next, es, l + 1);
        CarriedIds(d, ef, node, layers, es, l);
      }
    }
  }

  lemma LayerHasNode(levels: seq<int>, m: int, node: nat, layers: seq<Adjacency>, l: nat)
    requires node < |levels| && LayersOk(levels, m, node, layers) && l < |layers|
    ensures |layers[l]| == |levels|
  {
    assert LayerOk(levels, l, LayerMaxDegree(m, l), node, layers[l]);
  }

  /** An insertion into a valid state is one in this sense. */
  lemma InsertIsInserted(levels: seq<int>, d: (int, int) -> real, m: int, ef: int, st: Standard, node: nat)
    requires InsertedOk(levels, m, node, st) && node < |levels| && 1 <= m < HALF && ef > 0 && Levels(levels)
    requires levels[node] < |st.layers|
    ensures InsertedBy(levels, d, m, ef, st, node, Insertion.Insert(levels, d, m, ef, st, node))
  {
    hide WalkedDown, InsertedAt, Down, LayerOk;
    var level, low := levels[node], MinOf(levels[node], st.maxLayer);
    forall l | 0 <= l < |st.layers|
      ensures |st.layers[l]| == |levels|
    {
      LayerHasNode(levels, m, node, st.layers, l);
    }
    var p := GreedyWalk(st.layers, To(d, node), |levels|, st.maxLayer, level, st.entryPoint);
    WalkEnds(st.layers, To(d, node), st.maxLayer, low, st.entryPoint, p);
    GreedyDownIsLive(levels, m, node, st.layers, To(d, node), st.maxLayer, level, [st.entryPoint]);
    var ws := PassIsInserted(levels, d, m, ef, node, st.layers, low, End(p));
    var next := Insertion.Insert(levels, d, m, ef, st, node);
    assert next.layers == Down(st.layers, ConnectNode(d, node, ef, m), CarryEntries(d, node, ef), low, [End(p)]);
    assert forall l: nat :: l <= low ==> InsertedAt(d, m, ef, st.layers, node, next.layers, low, End(p), ws, l);
    assert forall l :: low < l < |st.layers| ==> next.layers[l] == st.layers[l];
    assert InsertedFrom(levels, d, m, ef, st, node, Insertion.Insert(levels, d, m, ef, st, node), p, ws);
  }

  lemma WalkEnds(layers: seq<seq<seq<int>>>, q: int -> real, top: int, low: int, entry: int, p: seq<int>)
    requires WalkedDown(layers, q, top, low, entry, p)
    ensures p != []
  {
  }

  // ---------- the whole baseline ----------

  /** Node 0 alone, without edges; its level is the maximum so far. */
  ghost predicate StartsWith(levels: seq<int>, top: int, st: Standard)
    requires levels != []
  {
    && st.entryPoint == 0 && st.maxLayer == levels[0] && |st.layers| == top + 1
    && SameSize(st.layers, |levels|)
    && forall l, u :: 0 <= l <= top && 0 <= u < |levels| ==> st.layers[l][u] == []
  }

  /** The states of the build: node 0 alone, and then one insertion after another in id order. */
  ghost predicate InsertionStates(
      levels: seq<int>, top: int, d: (int, int) -> real, m: int, ef: int, states: seq<Standard>)
    requires levels != []
  {
    && |states| <= |levels| && states != [] && StartsWith(levels, top, states[0])
    && forall i :: 1 <= i < |states| ==> StateInserted(levels, d, m, ef, states, i)
  }

  ghost predicate StateInserted(
      levels: seq<int>, d: (int, int) -> real, m: int, ef: int, states: seq<Standard>, i: nat)
    requires 1 <= i < |states| <= |levels|
  {
    InsertedBy(levels, d, m, ef, states[i - 1], i, states[i])
  }

  lemma {:induction false} InsertedUpToStates(
      levels: seq<int>, top: nat, d: (int, int) -> real, m: int, ef: int, node: nat) returns (states: seq<Standard>)
    requires node < |levels| && Levels(levels) && 1 <= m < HALF && ef > 0
    requires forall u :: 0 <= u < |levels| ==> levels[u] <= top
    ensures |states| == node + 1 && InsertionStates(levels, top, d, m, ef, states)
    ensures states[node] == InsertedUpTo(levels, top, d, m, ef, node)
  {
    hide InsertedOk, Insertion.Insert, InsertedBy;
    if node == 0 {
      states := [FirstNode(levels, top)];
    } else {
      var earlier := InsertedUpToStates(levels, top, d, m, ef, node - 1);
      var last := InsertedUpTo(levels, top, d, m, ef, node - 1);
      InsertedUpToOk(levels, top, d, m, ef, node - 1);
      InsertIsInserted(levels, d, m, ef, last, node);
      states := earlier + [Insertion.Insert(levels, d, m, ef, last, node)];
      forall i | 1 <= i < |states|
        ensures StateInserted(levels, d, m, ef, states, i)
      {
        if i < node {
          assert StateInserted(levels, d, m, ef, earlier, i);
        }
      }
    }
  }

  /** The finished baseline: every node inserted in this sense, searching with the larger of constructionL and M. */
  ghost predicate BaselineOf(levels: seq<int>, d: (int, int) -> real, cfg: Config, st: Standard)
    requires levels != []
  {
    var ef := if cfg.constructionL > cfg.m then cfg.constructionL else cfg.m;
    exists states ::
      |states| == |levels| && InsertionStates(levels, st.maxLayer, d, cfg.m, ef, states) && states[|levels| - 1] == st
  }

  lemma FinishedIsBaseline(levels: seq<int>, top: int, d: (int, int) -> real, cfg: Config)
    requires levels != [] && Levels(levels) && IsMaxLevel(levels, top) && Usable(cfg) && cfg.m < HALF
    ensures BaselineOf(levels, d, cfg, Finished(levels, top, d, cfg))
  {
    hide InsertionStates, InsertedUpTo, InsertedOk, ValidGraph;
    TopIsALevel(levels, top);
    var ef := if cfg.constructionL > cfg.m then cfg.constructionL else cfg.m;
    var states := InsertedUpToStates(levels, top, d, cfg.m, ef, |levels| - 1);
    InsertedUpToOk(levels, top, d, cfg.m, ef, |levels| - 1);
    FinishedIsValid(levels, cfg.m, Finished(levels, top, d, cfg), top);
  }

  /**
   * When the search width covers all that is reachable on a layer, the new node selects among all of it: its list is
   * spread out, and every reachable node is listed, crowded out by a listed one, or behind a full list.
   */
  lemma WideInsertionSelectsFromAll(
      d: (int, int) -> real, node: int, ef: int, bound: int, before: seq<seq<int>>, entries: seq<int>,
      w: seq<Result>, after: seq<seq<int>>, all: set<int>)
    requires LayerInserted(d, node, ef, bound, before, entries, w, after) && |all| <= ef
    requires forall v :: v in all <==> Reachable(before, entries, v)
    ensures 0 <= node < |after| && SelectedFrom(d, node, all, bound, after[node])
  {
    hide SelectedFrom;
    SettledSeesAll(before, To(d, node), entries, ef, w, all);
  }
}
