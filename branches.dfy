/**
 * The id lists and dictionaries `renderPaga` and `renderStream` build before any entity is
 * created: the unique branch ids, the PAGA edge weights and the PAGA node positions.
 */
module Branches {
  import opened Collections
  import opened Strings
  import opened Records

  /** `edge.nodes[0] + '_' + edge.nodes[1]`. */
  function EdgeId(e: Edge): string
  {
    e.source + "_" + e.target
  }

  /** The edge ids in edge order. */
  function EdgeIds(edges: seq<Edge>): seq<string>
  {
    seq(|edges|, i requires 0 <= i < |edges| => EdgeId(edges[i]))
  }

  /** The writes `edgeWeights[edgeId] = edge.weight`, in edge order. */
  function WeightWrites(edges: seq<Edge>): seq<(string, real)>
  {
    seq(|edges|, i requires 0 <= i < |edges| => (EdgeId(edges[i]), edges[i].weight))
  }

  /** The branch ids of the curves in curve order. */
  function BranchIds(curves: seq<Curve>): seq<string>
  {
    seq(|curves|, i requires 0 <= i < |curves| => curves[i].branchId)
  }

  /** The PAGA node-position key: the digits of the node name. */
  function NodeKey(node: PagaNode): string
  {
    DigitsOnly(node.nodeName)
  }

  /** A node's position at the node scale 0.1. */
  function NodePosition(node: PagaNode): Point
  {
    Point(node.xyz.x * 0.1, node.xyz.y * 0.1, node.xyz.z * 0.1)
  }

  /** The writes `nodePositions[key] = {x, y, z}`, in node order. */
  function PositionWrites(nodes: seq<PagaNode>): seq<(string, Point)>
  {
    seq(|nodes|, i requires 0 <= i < |nodes| => (NodeKey(nodes[i]), NodePosition(nodes[i])))
  }

  /** The edge loop of `renderPaga` (index.js lines 210-218). */
  method DedupEdges(edges: seq<Edge>) returns (branches: seq<string>, edgeWeights: map<string, real>)
    ensures branches == Dedup(EdgeIds(edges))
    ensures edgeWeights == Assoc(WeightWrites(edges))
  {
    branches := [];
    edgeWeights := map[];
    var i := 0;
    assert EdgeIds(edges)[..0] == [] && WeightWrites(edges)[..0] == [];
    while i < |edges|
      invariant 0 <= i <= |edges|
      invariant branches == Dedup(EdgeIds(edges)[..i])
      invariant edgeWeights == Assoc(WeightWrites(edges)[..i])
    {
      var edgeId := edges[i].source + "_" + edges[i].target;
      if edgeId !in branches {
        branches := branches + [edgeId];
      }
      edgeWeights := edgeWeights[edgeId := edges[i].weight];
      assert EdgeIds(edges)[..i + 1][..i] == EdgeIds(edges)[..i];
      assert WeightWrites(edges)[..i + 1][..i] == WeightWrites(edges)[..i];
      i := i + 1;
    }
    assert EdgeIds(edges)[..i] == EdgeIds(edges);
    assert WeightWrites(edges)[..i] == WeightWrites(edges);
  }

  /** The branch loop of `renderStream` (index.js lines 364-369). */
  method DedupBranchIds(curves: seq<Curve>) returns (branches: seq<string>)
    ensures branches == Dedup(BranchIds(curves))
  {
    branches := [];
    var i := 0;
    assert BranchIds(curves)[..0] == [];
    while i < |curves|
      invariant 0 <= i <= |curves|
      invariant branches == Dedup(BranchIds(curves)[..i])
    {
      if curves[i].branchId !in branches {
        branches := branches + [curves[i].branchId];
      }
      assert BranchIds(curves)[..i + 1][..i] == BranchIds(curves)[..i];
      i := i + 1;
    }
    assert BranchIds(curves)[..i] == BranchIds(curves);
  }

  /** The node loop of `renderPaga` that records node positions (index.js lines 226-233). */
  method NodePositions(nodes: seq<PagaNode>) returns (positions: map<string, Point>)
    ensures positions == Assoc(PositionWrites(nodes))
  {
    positions := map[];
    var i := 0;
    assert PositionWrites(nodes)[..0] == [];
    while i < |nodes|
      invariant 0 <= i <= |nodes|
      invariant positions == Assoc(PositionWrites(nodes)[..i])
    {
      var node := nodes[i];
      var x := node.xyz.x * 0.1;
      var y := node.xyz.y * 0.1;
      var z := node.xyz.z * 0.1;
      positions := positions[DigitsOnly(node.nodeName) := Point(x, y, z)];
      assert PositionWrites(nodes)[..i + 1][..i] == PositionWrites(nodes)[..i];
      i := i + 1;
    }
    assert PositionWrites(nodes)[..i] == PositionWrites(nodes);
  }

  /**
   * The PAGA branches: no id twice, exactly the ids of the edges, listed in the order
   * of their first edge; the weight of an id is that of the last edge carrying it.
   */
  lemma EdgeBranchesAndWeights(edges: seq<Edge>)
    ensures NoDuplicates(Dedup(EdgeIds(edges)))
    ensures forall id :: id in Dedup(EdgeIds(edges)) <==> exists i :: 0 <= i < |edges| && EdgeId(edges[i]) == id
    ensures forall i, j :: 0 <= i < j < |Dedup(EdgeIds(edges))| ==>
      Dedup(EdgeIds(edges))[i] in EdgeIds(edges) && Dedup(EdgeIds(edges))[j] in EdgeIds(edges) &&
      FirstIndex(EdgeIds(edges), Dedup(EdgeIds(edges))[i]) < FirstIndex(EdgeIds(edges), Dedup(EdgeIds(edges))[j])
    ensures forall id :: id in Assoc(WeightWrites(edges)) <==> id in Dedup(EdgeIds(edges))
    ensures forall i :: 0 <= i < |edges| && (forall j :: i < j < |edges| ==> EdgeId(edges[j]) != EdgeId(edges[i])) ==>
      EdgeId(edges[i]) in Assoc(WeightWrites(edges)) && Assoc(WeightWrites(edges))[EdgeId(edges[i])] == edges[i].weight
  {
    var ids := EdgeIds(edges);
    var writes := WeightWrites(edges);
    DedupNoDuplicates(ids);
    DedupElements(ids);
    DedupFirstSeenOrder(ids);
    AssocKeys(writes);
    assert forall i :: 0 <= i < |edges| ==> ids[i] == EdgeId(edges[i]) && writes[i].0 == EdgeId(edges[i]);
    forall id ensures id in ids <==> exists i :: 0 <= i < |edges| && EdgeId(edges[i]) == id {
      if id in ids {
        var i :| 0 <= i < |ids| && ids[i] == id;
        assert EdgeId(edges[i]) == id;
      }
    }
    forall i | 0 <= i < |edges| && (forall j :: i < j < |edges| ==> EdgeId(edges[j]) != EdgeId(edges[i]))
      ensures EdgeId(edges[i]) in Assoc(writes) && Assoc(writes)[EdgeId(edges[i])] == edges[i].weight
    {
      AssocLastWins(writes, i);
    }
  }

  /** The STREAM branches: no id twice, exactly the curves' ids, in order of first occurrence. */
  lemma StreamBranches(curves: seq<Curve>)
    ensures NoDuplicates(Dedup(BranchIds(curves)))
    ensures forall id :: id in Dedup(BranchIds(curves)) <==> exists i :: 0 <= i < |curves| && curves[i].branchId == id
    ensures forall i, j :: 0 <= i < j < |Dedup(BranchIds(curves))| ==>
      Dedup(BranchIds(curves))[i] in BranchIds(curves) && Dedup(BranchIds(curves))[j] in BranchIds(curves) &&
      FirstIndex(BranchIds(curves), Dedup(BranchIds(curves))[i]) < FirstIndex(BranchIds(curves), Dedup(BranchIds(curves))[j])
  {
    var ids := BranchIds(curves);
    DedupNoDuplicates(ids);
    DedupElements(ids);
    DedupFirstSeenOrder(ids);
    forall id ensures id in ids <==> exists i :: 0 <= i < |curves| && curves[i].branchId == id {
      if id in ids {
        var i :| 0 <= i < |ids| && ids[i] == id;
        assert curves[i].branchId == id;
      }
      if exists i :: 0 <= i < |curves| && curves[i].branchId == id {
        var i :| 0 <= i < |curves| && curves[i].branchId == id;
        assert ids[i] == id;
      }
    }
  }

  /** Every key of the node-position dictionary consists of digits only. */
  lemma NodeKeysAreDigits(nodes: seq<PagaNode>)
    ensures forall key :: key in Assoc(PositionWrites(nodes)) ==>
      forall k :: 0 <= k < |key| ==> IsDigit(key[k])
  {
    var writes := PositionWrites(nodes);
    AssocKeys(writes);
    forall key | key in Assoc(writes) ensures forall k :: 0 <= k < |key| ==> IsDigit(key[k]) {
      var i :| 0 <= i < |writes| && writes[i].0 == key;
      assert key == DigitsOnly(nodes[i].nodeName);
    }
  }

  /**
   * The position stored under a node's key is that node's coordinates divided by ten,
   * when no later node has the same key (a later one overwrites it).
   */
  lemma NodePositionOfLastNode(nodes: seq<PagaNode>, i: nat)
    requires i < |nodes|
    requires forall j :: i < j < |nodes| ==> NodeKey(nodes[j]) != NodeKey(nodes[i])
    ensures NodeKey(nodes[i]) in Assoc(PositionWrites(nodes))
    ensures Assoc(PositionWrites(nodes))[NodeKey(nodes[i])]
         == Point(nodes[i].xyz.x / 10.0, nodes[i].xyz.y / 10.0, nodes[i].xyz.z / 10.0)
  {
    var writes := PositionWrites(nodes);
    assert forall j :: i < j < |writes| ==> writes[j].0 == NodeKey(nodes[j]);
    AssocLastWins(writes, i);
  }

  /**
   * An edge id splits on `_` back into its two node names when neither contains `_`, as
   * the thick-line loop of `renderPaga` assumes (index.js line 238).
   */
  lemma EdgeIdSplit(e: Edge)
    requires '_' !in e.source && '_' !in e.target
    ensures Split(EdgeId(e), '_') == [e.source, e.target]
  {
    assert Join([e.source, e.target], '_') == EdgeId(e) by {
      assert Join([e.source, e.target][1..], '_') == e.target;
    }
    SplitJoin([e.source, e.target], '_');
  }

  /** Two edges between n0 and n1 give one branch `n0_n1` with the weight of the second. */
  lemma DuplicateEdgeExample()
    ensures var edges := [Edge("n0", "n1", 0.4), Edge("n0", "n1", 0.9)];
      Dedup(EdgeIds(edges)) == ["n0_n1"] && Assoc(WeightWrites(edges)) == map["n0_n1" := 0.9]
  {
    var edges := [Edge("n0", "n1", 0.4), Edge("n0", "n1", 0.9)];
    assert "n0" + "_" + "n1" == "n0_n1";
    assert EdgeId(edges[0]) == "n0_n1" && EdgeId(edges[1]) == "n0_n1";
    var ids := EdgeIds(edges);
    assert ids[0] == "n0_n1" && ids[1] == "n0_n1";
    assert ids[..1] == ["n0_n1"] && ids[..1][..0] == [];
    assert Dedup(ids[..1]) == ["n0_n1"];
    assert ids[..|ids| - 1] == ids[..1];
    var writes := WeightWrites(edges);
    assert writes[0] == ("n0_n1", 0.4) && writes[1] == ("n0_n1", 0.9);
    assert writes[..1] == [("n0_n1", 0.4)] && writes[..1][..0] == [];
    assert writes[..|writes| - 1] == writes[..1];
    assert Assoc(writes[..1]) == map["n0_n1" := 0.4];
  }
}
