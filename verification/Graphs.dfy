/** What makes a layered graph valid, and the check the loader and the saver run. */
module Graphs {
  import opened Order
  import opened Outcomes
  import opened Config

  /** One node of one layer: empty below its level, else distinct neighbours of sufficient level. */
  ghost predicate ValidNode(levels: seq<int>, layer: int, maxDegree: int, u: int, neighbors: seq<int>)
    requires 0 <= u < |levels|
  {
    if levels[u] < layer then neighbors == []
    else
      && |neighbors| <= maxDegree
      && Distinct(neighbors) && u !in neighbors
      && forall v :: v in neighbors ==> 0 <= v < |levels| && levels[v] >= layer
  }

  ghost predicate ValidAdjacency(levels: seq<int>, layer: int, maxDegree: int, adj: seq<seq<int>>) {
    |adj| == |levels| && forall u :: 0 <= u < |adj| ==> ValidNode(levels, layer, maxDegree, u, adj[u])
  }

  /** Every layer has a list per node. */
  ghost predicate SameSize(layers: seq<seq<seq<int>>>, n: nat) {
    forall l :: 0 <= l < |layers| ==> |layers[l]| == n
  }

  ghost predicate ValidLayers(m: int, levels: seq<int>, layers: seq<seq<seq<int>>>) {
    forall layer :: 0 <= layer < |layers| ==>
      ValidAdjacency(levels, layer, LayerMaxDegree(m, layer), layers[layer])
  }

  /** The graph invariant: valid layers up to maxLayer and an entry point on the top one. */
  ghost predicate ValidGraph(m: int, levels: seq<int>, layers: seq<seq<seq<int>>>, entry: int, maxLayer: int) {
    && |layers| == maxLayer + 1
    && 0 <= entry < |levels| && levels[entry] >= maxLayer
    && ValidLayers(m, levels, layers)
  }

  method ValidateNode(levels: seq<int>, layer: int, maxDegree: int, u: int, neighbors: seq<int>) returns (ok: bool)
    requires 0 <= u < |levels|
    ensures ok <==> ValidNode(levels, layer, maxDegree, u, neighbors)
  {
    if levels[u] < layer {
      return |neighbors| == 0;
    }
    if |neighbors| > maxDegree {
      return false;
    }
    var seen: set<int> := {};
    for i := 0 to |neighbors|
      invariant seen == set x | x in neighbors[..i]
      invariant Distinct(neighbors[..i]) && u !in neighbors[..i]
      invariant forall v :: v in neighbors[..i] ==> 0 <= v < |levels| && levels[v] >= layer
    {
      var v := neighbors[i];
      assert neighbors[..i + 1] == neighbors[..i] + [v];
      assert v in neighbors;
      if v < 0 || v >= |levels| {
        return false;
      }
      if v == u {
        return false;
      }
      if levels[v] < layer {
        return false;
      }
      if v in seen {
        var j :| 0 <= j < i && neighbors[..i][j] == v;
        assert neighbors[j] == neighbors[i];
        return false;
      }
      seen := seen + {v};
    }
    assert neighbors[..|neighbors|] == neighbors;
    return true;
  }

  /** The check accepts exactly the valid graphs. */
  method ValidateLayerAdjacency(
      m: int, levels: seq<int>, layers: seq<seq<seq<int>>>, count: nat, entry: int, maxLayer: int)
    returns (ok: bool)
    requires |levels| == count && 0 <= entry < count
    ensures ok <==> ValidGraph(m, levels, layers, entry, maxLayer)
  {
    if |layers| != maxLayer + 1 {
      return false;
    }
    for layer := 0 to |layers|
      invariant forall k :: 0 <= k < layer ==> ValidAdjacency(levels, k, LayerMaxDegree(m, k), layers[k])
    {
      var adjacency := layers[layer];
      var maxDegree := LayerMaxDegree(m, layer);
      if |adjacency| != count {
        assert !ValidAdjacency(levels, layer, maxDegree, adjacency);
        return false;
      }
      for u := 0 to count
        invariant forall w :: 0 <= w < u ==> ValidNode(levels, layer, maxDegree, w, adjacency[w])
      {
        var valid := ValidateNode(levels, layer, maxDegree, u, adjacency[u]);
        if !valid {
          assert !ValidAdjacency(levels, layer, maxDegree, adjacency);
          return false;
        }
      }
    }
    return levels[entry] >= maxLayer;
  }
}
