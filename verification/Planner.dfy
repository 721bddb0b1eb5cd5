/**
 The greedy layer planner: `PlanShards` is the loop of the source, `Plan` the function it computes.
 `PlannerTheorems.dfy` proves what the result means.
 */
module Planner {
  import opened Prelude
  import opened Registry
  import opened Sorting

  datatype NodeCapacity = NodeCapacity(nodeId: string, host: string, ollamaPort: nat, agentPort: nat, vramMb: nat)

  datatype ShardAssignment = ShardAssignment(
    nodeId: string, host: string, ollamaPort: nat, agentPort: nat,
    layerStart: nat, layerEnd: nat, vramRequiredMb: nat)

  datatype ShardPlan = ShardPlan(model: string, totalLayers: nat, assignments: seq<ShardAssignment>)

  datatype PlanError = NoNodes | InsufficientVram(needMb: nat, haveMb: nat, nodeCount: nat)

  function TotalVram(nodes: seq<NodeCapacity>): nat {
    if nodes == [] then 0 else nodes[0].vramMb + TotalVram(nodes[1..])
  }

  predicate LargerFirst(a: NodeCapacity, b: NodeCapacity) {
    a.vramMb >= b.vramMb
  }

  function SortByVram(nodes: seq<NodeCapacity>): seq<NodeCapacity> {
    StableSort(LargerFirst, nodes)
  }

  function Usable(vramMb: nat, reserve: nat): nat {
    if vramMb >= reserve then vramMb - reserve else 0
  }

  /** How many layers a node takes when `reserve` MB are set aside, after the cast to `u32`. */
  function LayerCapacity(spec: ModelSpec, vramMb: nat, reserve: nat): nat
    requires spec.perLayerMb > 0
  {
    (Usable(vramMb, reserve) / spec.perLayerMb) % U32_LIMIT
  }

  function Assignment(spec: ModelSpec, node: NodeCapacity, cursor: nat, layers: nat): ShardAssignment {
    ShardAssignment(node.nodeId, node.host, node.ollamaPort, node.agentPort,
                    cursor, cursor + layers, layers * spec.perLayerMb)
  }

  /** The assignments made from `nodes` on, and where the layer cursor ends up. */
  function Assign(spec: ModelSpec, nodes: seq<NodeCapacity>, cursor: nat, reserve: nat): (seq<ShardAssignment>, nat)
    requires spec.perLayerMb > 0
  {
    if nodes == [] || cursor >= spec.totalLayers then ([], cursor)
    else if Usable(nodes[0].vramMb, reserve) < spec.perLayerMb then Assign(spec, nodes[1..], cursor, 0)
    else
      var layers := Min(LayerCapacity(spec, nodes[0].vramMb, reserve), spec.totalLayers - cursor);
      var (rest, end) := Assign(spec, nodes[1..], cursor + layers, 0);
      ([Assignment(spec, nodes[0], cursor, layers)] + rest, end)
  }

  function Plan(spec: ModelSpec, nodes: seq<NodeCapacity>): Result<ShardPlan, PlanError>
    requires spec.perLayerMb > 0
  {
    if nodes == [] then Err(NoNodes)
    else
      var failure := Err(InsufficientVram(spec.TotalMb(), TotalVram(nodes), |nodes|));
      if TotalVram(nodes) < spec.TotalMb() then failure
      else
        var (assignments, cursor) := Assign(spec, SortByVram(nodes), 0, spec.contextMb);
        if cursor < spec.totalLayers then failure
        else Ok(ShardPlan(spec.name, spec.totalLayers, assignments))
  }

  /** `plan_shards`: the source divides by the per-layer size, so it must not be zero. */
  method PlanShards(spec: ModelSpec, nodes: seq<NodeCapacity>) returns (r: Result<ShardPlan, PlanError>)
    requires spec.perLayerMb > 0
    ensures r == Plan(spec, nodes)
  {
    if |nodes| == 0 {
      return Err(NoNodes);
    }
    var totalAvailable := 0;
    for i := 0 to |nodes|
      invariant totalAvailable + TotalVram(nodes[i..]) == TotalVram(nodes)
    {
      totalAvailable := totalAvailable + nodes[i].vramMb;
    }
    var totalNeeded := spec.TotalMb();
    if totalAvailable < totalNeeded {
      return Err(InsufficientVram(totalNeeded, totalAvailable, |nodes|));
    }

    var sorted := SortByVram(nodes);
    var assignments: seq<ShardAssignment> := [];
    var layerCursor: nat := 0;
    var contextReserve: nat := spec.contextMb;
    ghost var expected := Assign(spec, sorted, 0, spec.contextMb);
    var k := 0;
    while k < |sorted|
      invariant 0 <= k <= |sorted|
      invariant assignments + Assign(spec, sorted[k..], layerCursor, contextReserve).0 == expected.0
      invariant Assign(spec, sorted[k..], layerCursor, contextReserve).1 == expected.1
    {
      if layerCursor >= spec.totalLayers {
        break;
      }
      var node := sorted[k];
      assert sorted[k..][1..] == sorted[k + 1..];
      k := k + 1;
      var usable := Usable(node.vramMb, contextReserve);
      contextReserve := 0;
      if usable < spec.perLayerMb {
        continue;
      }
      var maxLayers := (usable / spec.perLayerMb) % U32_LIMIT;
      var remaining := spec.totalLayers - layerCursor;
      var granted := Min(maxLayers, remaining);
      assignments := assignments + [Assignment(spec, node, layerCursor, granted)];
      layerCursor := layerCursor + granted;
    }
    assert Assign(spec, sorted[k..], layerCursor, contextReserve) == ([], layerCursor);
    assert assignments == expected.0;

    if layerCursor < spec.totalLayers {
      return Err(InsufficientVram(totalNeeded, totalAvailable, |nodes|));
    }
    return Ok(ShardPlan(spec.name, spec.totalLayers, assignments));
  }
}
