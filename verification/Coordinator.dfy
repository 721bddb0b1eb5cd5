/**
 The shard coordinator: candidate plans in round-robin order, the multi-node fallback, and failover.
 `CoordinatorTheorems.dfy` proves what callers can rely on.
 */
module Coordinator {
  import opened Collections
  import opened Prelude
  import opened Nodes
  import opened Planner
  import opened Registry
  import opened Sorting

  /** One past the largest value of the 64-bit round-robin counter. */
  const USIZE_LIMIT := 0x1_0000_0000_0000_0000

  // ----- Latencies and orders

  datatype Latency = Ms(value: real) | Unmeasured

  predicate NoSlower(a: Latency, b: Latency) {
    b.Unmeasured? || (a.Ms? && a.value <= b.value)
  }

  /** Median latencies in milliseconds, by node id. */
  type Stats = map<string, real>

  function LatencyOf(stats: Stats, n: NodeInfo): Latency {
    if n.id in stats then Ms(stats[n.id]) else Unmeasured
  }

  /** Fastest first, larger VRAM breaking ties. */
  function SoloOrder(stats: Stats): (NodeInfo, NodeInfo) -> bool {
    (a: NodeInfo, b: NodeInfo) =>
      if LatencyOf(stats, a) == LatencyOf(stats, b) then a.vramMb >= b.vramMb
      else NoSlower(LatencyOf(stats, a), LatencyOf(stats, b))
  }

  /** Larger VRAM first, lower latency breaking ties. */
  function PlanOrder(stats: Stats): (NodeInfo, NodeInfo) -> bool {
    (a: NodeInfo, b: NodeInfo) =>
      if a.vramMb == b.vramMb then NoSlower(LatencyOf(stats, a), LatencyOf(stats, b))
      else a.vramMb > b.vramMb
  }

  // ----- Candidates

  function OnlineNodes(nodes: seq<NodeInfo>): seq<NodeInfo> {
    if nodes == [] then []
    else (if nodes[0].status == Online then [nodes[0]] else []) + OnlineNodes(nodes[1..])
  }

  function AtLeast(nodes: seq<NodeInfo>, neededMb: nat): seq<NodeInfo> {
    if nodes == [] then []
    else (if nodes[0].vramMb >= neededMb then [nodes[0]] else []) + AtLeast(nodes[1..], neededMb)
  }

  /** Online nodes that can serve the model without splitting it. */
  function SoloNodes(spec: ModelSpec, nodes: seq<NodeInfo>): seq<NodeInfo> {
    AtLeast(OnlineNodes(nodes), spec.TotalMb())
  }

  function Rotate<T>(s: seq<T>, offset: nat): seq<T>
    requires offset <= |s|
  {
    s[offset..] + s[..offset]
  }

  function Capacity(n: NodeInfo): NodeCapacity {
    NodeCapacity(n.id, n.host, n.port, n.agentPort, n.vramMb)
  }

  /** One plan per node, leaving out the nodes on which planning fails. */
  function PlansOnEach(spec: ModelSpec, nodes: seq<NodeInfo>): seq<ShardPlan>
    requires spec.perLayerMb > 0
  {
    if nodes == [] then []
    else
      var rest := PlansOnEach(spec, nodes[1..]);
      match Plan(spec, [Capacity(nodes[0])])
      case Ok(plan) => [plan] + rest
      case Err(_) => rest
  }

  /** The solo nodes in the order in which call number `counter` tries them. */
  function SoloSequence(spec: ModelSpec, nodes: seq<NodeInfo>, stats: Stats, counter: nat): seq<NodeInfo>
    requires SoloNodes(spec, nodes) != []
  {
    var sorted := StableSort(SoloOrder(stats), SoloNodes(spec, nodes));
    if sorted == [] then [] else Rotate(sorted, counter % |sorted|)
  }

  /** `build_plan`: one plan over all online nodes. */
  function FallbackPlan(spec: ModelSpec, nodes: seq<NodeInfo>, stats: Stats): Option<ShardPlan>
    requires spec.perLayerMb > 0
  {
    match Plan(spec, Keys(Capacity, StableSort(PlanOrder(stats), OnlineNodes(nodes))))
    case Ok(plan) => Some(plan)
    case Err(_) => None
  }

  /** `build_candidates`, as a function of the round-robin counter. */
  function Candidates(spec: ModelSpec, nodes: seq<NodeInfo>, stats: Stats, counter: nat): seq<ShardPlan>
    requires spec.perLayerMb > 0
  {
    var solo := if SoloNodes(spec, nodes) == [] then [] else PlansOnEach(spec, SoloSequence(spec, nodes, stats, counter));
    if solo != [] then solo
    else
      match FallbackPlan(spec, nodes, stats)
      case Some(plan) => [plan]
      case None => []
  }

  /** A call moves the counter, which wraps, exactly when some node can serve alone. */
  function NextCounter(spec: ModelSpec, nodes: seq<NodeInfo>, counter: nat): nat {
    if SoloNodes(spec, nodes) == [] then counter else (counter + 1) % USIZE_LIMIT
  }

  // ----- Failover

  const NO_NODES := "no inference nodes available"

  /** The first success in order, or else the last failure. */
  function Failover(execute: ShardPlan -> Result<string, string>, candidates: seq<ShardPlan>): Result<string, string> {
    if candidates == [] then Err(NO_NODES)
    else if execute(candidates[0]).Ok? || |candidates| == 1 then execute(candidates[0])
    else Failover(execute, candidates[1..])
  }

  class ShardCoordinator {
    var rrCounter: nat

    ghost predicate Valid()
      reads this
    {
      rrCounter < USIZE_LIMIT
    }

    constructor ()
      ensures Valid() && rrCounter == 0
    {
      rrCounter := 0;
    }

    method BuildPlan(model: string, lower: string, nodes: seq<NodeInfo>, stats: Stats) returns (r: Option<ShardPlan>)
      ensures Resolve(model, lower).perLayerMb > 0
      ensures r == FallbackPlan(Resolve(model, lower), nodes, stats)
    {
      ResolvePlannable(model, lower);
      var candidates := OnlineNodes(nodes);
      candidates := StableSort(PlanOrder(stats), candidates);
      var capacities := Keys(Capacity, candidates);
      if capacities == [] {
        return None;
      }
      var spec := Resolve(model, lower);
      var planned := PlanShards(spec, capacities);
      match planned {
        case Ok(plan) => r := Some(plan);
        case Err(_) => r := None;
      }
    }

    /** `lower` is the model name in lower case. */
    method BuildCandidates(model: string, lower: string, nodes: seq<NodeInfo>, stats: Stats)
      returns (plans: seq<ShardPlan>)
      requires Valid()
      modifies this
      ensures Valid() && Resolve(model, lower).perLayerMb > 0
      ensures plans == Candidates(Resolve(model, lower), nodes, stats, old(rrCounter))
      ensures rrCounter == NextCounter(Resolve(model, lower), nodes, old(rrCounter))
    {
      ResolvePlannable(model, lower);
      var spec := Resolve(model, lower);
      var solo := AtLeast(OnlineNodes(nodes), spec.TotalMb());
      if solo != [] {
        SortKeepsLength(SoloOrder(stats), solo);
        solo := StableSort(SoloOrder(stats), solo);
        var offset := rrCounter % |solo|;
        rrCounter := (rrCounter + 1) % USIZE_LIMIT;
        solo := Rotate(solo, offset);
        plans := PlansOnEach(spec, solo);
        if plans != [] {
          return;
        }
      }
      var fallback := BuildPlan(model, lower, nodes, stats);
      plans := match fallback case Some(plan) => [plan] case None => [];
    }

    /** Tries the candidates in order; each must have a controller. `tried` is what was attempted. */
    method ExecuteWithFailover(execute: ShardPlan -> Result<string, string>, candidates: seq<ShardPlan>)
      returns (r: Result<string, string>, tried: seq<ShardPlan>)
      requires forall p :: p in candidates ==> p.assignments != []
      ensures r == Failover(execute, candidates)
      ensures candidates == [] ==> r == Err("no inference nodes available")
      ensures tried <= candidates
      ensures candidates != [] ==> tried != [] && r == execute(tried[|tried| - 1])
      ensures forall i :: 0 <= i < |tried| - 1 ==> execute(tried[i]).Err?
      ensures r.Err? ==> tried == candidates
    {
      tried := [];
      if candidates == [] {
        return Err(NO_NODES), tried;
      }
      var lastErr := "all candidates failed";
      for i := 0 to |candidates|
        invariant tried == candidates[..i]
        invariant forall k :: 0 <= k < i ==> execute(candidates[k]).Err?
        invariant i > 0 ==> execute(candidates[i - 1]) == Err(lastErr)
        invariant i < |candidates| ==> Failover(execute, candidates) == Failover(execute, candidates[i..])
        invariant i == |candidates| ==> Failover(execute, candidates) == Err(lastErr)
      {
        tried := tried + [candidates[i]];
        assert candidates[i..][1..] == candidates[i + 1..];
        var outcome := execute(candidates[i]);
        match outcome {
          case Ok(_) => return outcome, tried;
          case Err(e) => lastErr := e;
        }
      }
      return Err(lastErr), tried;
    }
  }

  lemma {:induction false} InsertKeepsLength<T>(le: (T, T) -> bool, x: T, s: seq<T>)
    ensures |InsertFirst(le, x, s)| == |s| + 1
  {
    if s != [] {
      InsertKeepsLength(le, x, s[1..]);
    }
  }

  lemma {:induction false} SortKeepsLength<T>(le: (T, T) -> bool, s: seq<T>)
    ensures |StableSort(le, s)| == |s|
  {
    if s != [] {
      SortKeepsLength(le, s[1..]);
      InsertKeepsLength(le, s[0], StableSort(le, s[1..]));
    }
  }
}
