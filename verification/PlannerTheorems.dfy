/** What a shard plan guarantees, exactly when planning succeeds, and how few shards it uses. */
module PlannerTheorems {
  import opened Arithmetic
  import opened Collections
  import opened Prelude
  import opened Registry
  import opened Sorting
  import opened NodeSums
  import opened Planner

  // ----- Vocabulary

  function LayersIn(spec: ModelSpec): nat -> nat
    requires spec.perLayerMb > 0
  {
    (vramMb: nat) => vramMb / spec.perLayerMb
  }

  /** Layers the nodes hold when nothing is set aside: every node rounds down on its own. */
  function FlooredLayers(spec: ModelSpec, nodes: seq<NodeCapacity>): nat
    requires spec.perLayerMb > 0
  {
    SumOver(LayersIn(spec), nodes)
  }

  /** Layers the nodes hold when the context is set aside on one of size `hostMb`. */
  function LayersWithHost(spec: ModelSpec, nodes: seq<NodeCapacity>, hostMb: nat): int
    requires spec.perLayerMb > 0
  {
    FlooredLayers(spec, nodes) - hostMb / spec.perLayerMb + Usable(hostMb, spec.contextMb) / spec.perLayerMb
  }

  /** No node is so large that its layer count would be cut off by the cast to `u32`. */
  predicate NoTruncation(spec: ModelSpec, nodes: seq<NodeCapacity>)
    requires spec.perLayerMb > 0
  {
    forall n :: n in nodes ==> n.vramMb / spec.perLayerMb < U32_LIMIT
  }

  /** Layer capacity in visiting order, with `reserve` set aside on the first node only. */
  function CapacitySum(spec: ModelSpec, nodes: seq<NodeCapacity>, reserve: nat): nat
    requires spec.perLayerMb > 0
  {
    if nodes == [] then 0
    else LayerCapacity(spec, nodes[0].vramMb, reserve) + CapacitySum(spec, nodes[1..], 0)
  }

  predicate RunsOn(a: ShardAssignment, n: NodeCapacity) {
    a.nodeId == n.nodeId && a.host == n.host && a.ollamaPort == n.ollamaPort && a.agentPort == n.agentPort
  }

  /** The ranges follow one another from `from` to `to`, without gap or overlap. */
  predicate Contiguous(assignments: seq<ShardAssignment>, from: nat, to: nat) {
    if assignments == [] then from == to
    else
      && assignments[0].layerStart == from <= assignments[0].layerEnd
      && Contiguous(assignments[1..], assignments[0].layerEnd, to)
  }

  /** `a` runs on `n`, and asks for what its layers weigh, which `n` has. */
  predicate FitsOn(spec: ModelSpec, a: ShardAssignment, n: NodeCapacity) {
    && RunsOn(a, n)
    && a.layerStart <= a.layerEnd
    && a.vramRequiredMb == (a.layerEnd - a.layerStart) * spec.perLayerMb
    && a.vramRequiredMb <= n.vramMb
  }

  predicate Fits(spec: ModelSpec, assignments: seq<ShardAssignment>, used: seq<NodeCapacity>) {
    |assignments| == |used| && forall i :: 0 <= i < |used| ==> FitsOn(spec, assignments[i], used[i])
  }

  predicate NonEmptyRanges(assignments: seq<ShardAssignment>) {
    forall i :: 0 <= i < |assignments| ==> assignments[i].layerStart < assignments[i].layerEnd
  }

  // ----- The loop, against the capacities it visits

  lemma SkippedHasNoCapacity(spec: ModelSpec, vramMb: nat, reserve: nat)
    requires spec.perLayerMb > 0
    ensures Usable(vramMb, reserve) < spec.perLayerMb ==> LayerCapacity(spec, vramMb, reserve) == 0
  {
    if Usable(vramMb, reserve) < spec.perLayerMb {
      DivUnique(Usable(vramMb, reserve), spec.perLayerMb, 0);
    }
  }

  lemma CapacityFits(spec: ModelSpec, vramMb: nat, reserve: nat)
    requires spec.perLayerMb > 0
    ensures LayerCapacity(spec, vramMb, reserve) * spec.perLayerMb <= Usable(vramMb, reserve)
  {
    var q := Usable(vramMb, reserve) / spec.perLayerMb;
    DivBounds(Usable(vramMb, reserve), spec.perLayerMb);
    MulMonotone(LayerCapacity(spec, vramMb, reserve), q, spec.perLayerMb);
  }

  /** The cursor ends at the sum of the capacities, cut off at the number of layers. */
  lemma {:induction false} AssignCovers(spec: ModelSpec, nodes: seq<NodeCapacity>, cursor: nat, reserve: nat)
    requires spec.perLayerMb > 0 && cursor <= spec.totalLayers
    ensures Assign(spec, nodes, cursor, reserve).1 == Min(spec.totalLayers, cursor + CapacitySum(spec, nodes, reserve))
  {
    if nodes != [] && cursor < spec.totalLayers {
      var v := nodes[0].vramMb;
      SkippedHasNoCapacity(spec, v, reserve);
      AssignCovers(spec, nodes[1..], Min(spec.totalLayers, cursor + LayerCapacity(spec, v, reserve)), 0);
    }
  }

  lemma {:induction false} AssignContiguous(spec: ModelSpec, nodes: seq<NodeCapacity>, cursor: nat, reserve: nat)
    requires spec.perLayerMb > 0
    ensures var (a, end) := Assign(spec, nodes, cursor, reserve); Contiguous(a, cursor, end)
  {
    if nodes != [] && cursor < spec.totalLayers {
      if Usable(nodes[0].vramMb, reserve) < spec.perLayerMb {
        AssignContiguous(spec, nodes[1..], cursor, 0);
      } else {
        var layers := Min(LayerCapacity(spec, nodes[0].vramMb, reserve), spec.totalLayers - cursor);
        AssignContiguous(spec, nodes[1..], cursor + layers, 0);
        assert Assign(spec, nodes, cursor, reserve).0[1..] == Assign(spec, nodes[1..], cursor + layers, 0).0;
      }
    }
  }

  /** The nodes the loop assigns layers to, in order. */
  function UsedNodes(spec: ModelSpec, nodes: seq<NodeCapacity>, cursor: nat, reserve: nat): seq<NodeCapacity>
    requires spec.perLayerMb > 0
  {
    if nodes == [] || cursor >= spec.totalLayers then []
    else if Usable(nodes[0].vramMb, reserve) < spec.perLayerMb then UsedNodes(spec, nodes[1..], cursor, 0)
    else
      var layers := Min(LayerCapacity(spec, nodes[0].vramMb, reserve), spec.totalLayers - cursor);
      [nodes[0]] + UsedNodes(spec, nodes[1..], cursor + layers, 0)
  }

  lemma {:induction false} UsedOnce(spec: ModelSpec, nodes: seq<NodeCapacity>, cursor: nat, reserve: nat)
    requires spec.perLayerMb > 0
    ensures multiset(UsedNodes(spec, nodes, cursor, reserve)) <= multiset(nodes)
  {
    if nodes != [] && cursor < spec.totalLayers {
      assert nodes == [nodes[0]] + nodes[1..] && multiset(nodes) == multiset{nodes[0]} + multiset(nodes[1..]);
      if Usable(nodes[0].vramMb, reserve) < spec.perLayerMb {
        UsedOnce(spec, nodes[1..], cursor, 0);
      } else {
        UsedOnce(spec, nodes[1..], cursor + Min(LayerCapacity(spec, nodes[0].vramMb, reserve), spec.totalLayers - cursor), 0);
      }
    }
  }

  lemma AssignmentFits(spec: ModelSpec, node: NodeCapacity, cursor: nat, layers: nat, reserve: nat)
    requires spec.perLayerMb > 0 && layers <= LayerCapacity(spec, node.vramMb, reserve)
    ensures FitsOn(spec, Assignment(spec, node, cursor, layers), node)
    ensures layers * spec.perLayerMb <= Usable(node.vramMb, reserve)
  {
    CapacityFits(spec, node.vramMb, reserve);
    MulMonotone(layers, LayerCapacity(spec, node.vramMb, reserve), spec.perLayerMb);
  }

  lemma {:induction false} AssignFits(spec: ModelSpec, nodes: seq<NodeCapacity>, cursor: nat, reserve: nat)
    requires spec.perLayerMb > 0
    ensures Fits(spec, Assign(spec, nodes, cursor, reserve).0, UsedNodes(spec, nodes, cursor, reserve))
  {
    if nodes != [] && cursor < spec.totalLayers {
      if Usable(nodes[0].vramMb, reserve) < spec.perLayerMb {
        AssignFits(spec, nodes[1..], cursor, 0);
      } else {
        var layers := Min(LayerCapacity(spec, nodes[0].vramMb, reserve), spec.totalLayers - cursor);
        AssignmentFits(spec, nodes[0], cursor, layers, reserve);
        AssignFits(spec, nodes[1..], cursor + layers, 0);
      }
    }
  }

  /** If a node's share of layers were cut to none by the cast, its range would be empty. */
  predicate CutToNothing(spec: ModelSpec, vramMb: nat, reserve: nat)
    requires spec.perLayerMb > 0
  {
    Usable(vramMb, reserve) >= spec.perLayerMb && LayerCapacity(spec, vramMb, reserve) == 0
  }

  /** Some node is cut to nothing while layers are still left to place. */
  predicate ReachesCutNode(spec: ModelSpec, nodes: seq<NodeCapacity>, cursor: nat, reserve: nat)
    requires spec.perLayerMb > 0
  {
    nodes != [] && cursor < spec.totalLayers &&
    (CutToNothing(spec, nodes[0].vramMb, reserve) ||
     ReachesCutNode(spec, nodes[1..], cursor + LayerCapacity(spec, nodes[0].vramMb, reserve), 0))
  }

  lemma {:induction false} AssignNonEmpty(spec: ModelSpec, nodes: seq<NodeCapacity>, cursor: nat, reserve: nat)
    requires spec.perLayerMb > 0
    ensures NonEmptyRanges(Assign(spec, nodes, cursor, reserve).0) <==> !ReachesCutNode(spec, nodes, cursor, reserve)
  {
    if nodes != [] && cursor < spec.totalLayers {
      var v := nodes[0].vramMb;
      SkippedHasNoCapacity(spec, v, reserve);
      var capacity := LayerCapacity(spec, v, reserve);
      AssignNonEmpty(spec, nodes[1..], cursor + capacity, 0);
      if Usable(v, reserve) >= spec.perLayerMb {
        var layers := Min(capacity, spec.totalLayers - cursor);
        var first := Assignment(spec, nodes[0], cursor, layers);
        var rest := Assign(spec, nodes[1..], cursor + layers, 0).0;
        assert Assign(spec, nodes, cursor, reserve).0 == [first] + rest;
        NonEmptyCons(first, rest);
        if layers < capacity {
          assert rest == [];
        }
      }
    }
  }

  lemma NonEmptyCons(first: ShardAssignment, rest: seq<ShardAssignment>)
    ensures NonEmptyRanges([first] + rest) <==> first.layerStart < first.layerEnd && NonEmptyRanges(rest)
  {
    var all := [first] + rest;
    if NonEmptyRanges(all) {
      forall i | 0 <= i < |rest| ensures rest[i].layerStart < rest[i].layerEnd { assert rest[i] == all[i + 1]; }
      assert all[0] == first;
    }
  }

  /** A plan takes no more shards than it visits nodes before the layers run out. */
  lemma {:induction false} FewShards(spec: ModelSpec, nodes: seq<NodeCapacity>, cursor: nat, reserve: nat, m: nat)
    requires spec.perLayerMb > 0 && m <= |nodes|
    requires cursor + CapacitySum(spec, nodes[..m], reserve) >= spec.totalLayers
    ensures |Assign(spec, nodes, cursor, reserve).0| <= m
  {
    if m > 0 && cursor < spec.totalLayers {
      var v := nodes[0].vramMb;
      SkippedHasNoCapacity(spec, v, reserve);
      assert nodes[..m][1..] == nodes[1..][..m - 1];
      if Usable(v, reserve) >= spec.perLayerMb && LayerCapacity(spec, v, reserve) > spec.totalLayers - cursor {
        assert Assign(spec, nodes[1..], spec.totalLayers, 0).0 == [];
      } else {
        FewShards(spec, nodes[1..], cursor + LayerCapacity(spec, v, reserve), 0, m - 1);
      }
    }
  }

  // ----- Without truncation, capacities are floors

  lemma UntruncatedCapacity(spec: ModelSpec, vramMb: nat, reserve: nat)
    requires spec.perLayerMb > 0 && vramMb / spec.perLayerMb < U32_LIMIT
    ensures LayerCapacity(spec, vramMb, reserve) == Usable(vramMb, reserve) / spec.perLayerMb
  {
    DivMonotone(Usable(vramMb, reserve), vramMb, spec.perLayerMb);
  }

  lemma {:induction false} CapacityIsFloored(spec: ModelSpec, nodes: seq<NodeCapacity>)
    requires spec.perLayerMb > 0 && NoTruncation(spec, nodes)
    ensures CapacitySum(spec, nodes, 0) == FlooredLayers(spec, nodes)
    ensures nodes != [] ==>
      CapacitySum(spec, nodes, spec.contextMb) == LayersWithHost(spec, nodes, nodes[0].vramMb)
  {
    if nodes != [] {
      UntruncatedCapacity(spec, nodes[0].vramMb, 0);
      UntruncatedCapacity(spec, nodes[0].vramMb, spec.contextMb);
      CapacityIsFloored(spec, nodes[1..]);
    }
  }

  /** The capacity the loop sees does not depend on how the input is ordered. */
  lemma SortedCapacity(spec: ModelSpec, nodes: seq<NodeCapacity>)
    requires spec.perLayerMb > 0 && nodes != [] && NoTruncation(spec, nodes)
    ensures CapacitySum(spec, SortByVram(nodes), spec.contextMb) == LayersWithHost(spec, nodes, MaxVram(nodes))
  {
    SortedNodes(nodes);
    CapacityIsFloored(spec, SortByVram(nodes));
    SumOverPermute(LayersIn(spec), SortByVram(nodes), nodes);
  }

  /** The VRAM behind the layers the nodes hold, and how little of it rounding down can waste. */
  lemma {:induction false} CapacityAgainstVram(spec: ModelSpec, nodes: seq<NodeCapacity>, reserve: nat)
    requires spec.perLayerMb > 0 && NoTruncation(spec, nodes)
    requires if nodes == [] then reserve == 0 else nodes[0].vramMb >= reserve
    ensures var held := CapacitySum(spec, nodes, reserve) * spec.perLayerMb;
      held <= TotalVram(nodes) - reserve <= held + |nodes| * (spec.perLayerMb - 1)
  {
    if nodes != [] {
      var v := nodes[0].vramMb;
      CapacityAgainstVram(spec, nodes[1..], 0);
      UntruncatedCapacity(spec, v, reserve);
      FlooredStep(v - reserve, spec.perLayerMb, CapacitySum(spec, nodes[1..], 0), TotalVram(nodes[1..]), |nodes[1..]|);
    }
  }

  // ----- Main results

  /** The nodes a successful plan runs on, in plan order. */
  function PlanNodes(spec: ModelSpec, nodes: seq<NodeCapacity>): seq<NodeCapacity>
    requires spec.perLayerMb > 0
  {
    UsedNodes(spec, SortByVram(nodes), 0, spec.contextMb)
  }

  /**
   Every successful plan partitions the layers in order, uses each input node at most once, and asks
   no node for more than it has.
   */
  lemma PlanIsValid(spec: ModelSpec, nodes: seq<NodeCapacity>)
    requires spec.perLayerMb > 0 && Plan(spec, nodes).Ok?
    ensures var plan := Plan(spec, nodes).value;
      && plan.model == spec.name && plan.totalLayers == spec.totalLayers
      && Contiguous(plan.assignments, 0, spec.totalLayers)
      && (spec.totalLayers > 0 ==> plan.assignments != [])
      && Fits(spec, plan.assignments, PlanNodes(spec, nodes))
      && multiset(PlanNodes(spec, nodes)) <= multiset(nodes)
  {
    var s := SortByVram(nodes);
    SortedNodes(nodes);
    AssignCovers(spec, s, 0, spec.contextMb);
    AssignContiguous(spec, s, 0, spec.contextMb);
    AssignFits(spec, s, 0, spec.contextMb);
    UsedOnce(spec, s, 0, spec.contextMb);
  }

  /** Every layer is run by exactly one shard. */
  lemma {:induction false} LayerRunsOnce(a: seq<ShardAssignment>, from: nat, to: nat, layer: nat) returns (shard: nat)
    requires Contiguous(a, from, to) && from <= layer < to
    ensures shard < |a|
    ensures forall i :: 0 <= i < |a| ==> (a[i].layerStart <= layer < a[i].layerEnd <==> i == shard)
  {
    if layer < a[0].layerEnd {
      StartsAfter(a[1..], a[0].layerEnd, to);
      shard := 0;
      forall i | 0 < i < |a| ensures a[i].layerStart > layer { assert a[i] == a[1..][i - 1]; }
    } else {
      var k := LayerRunsOnce(a[1..], a[0].layerEnd, to, layer);
      shard := k + 1;
      forall i | 0 < i < |a|
        ensures a[i].layerStart <= layer < a[i].layerEnd <==> i == shard
      {
        assert a[i] == a[1..][i - 1];
      }
    }
  }

  lemma {:induction false} StartsAfter(a: seq<ShardAssignment>, from: nat, to: nat)
    requires Contiguous(a, from, to)
    ensures forall i :: 0 <= i < |a| ==> a[i].layerStart >= from
  {
    if a != [] {
      StartsAfter(a[1..], a[0].layerEnd, to);
      forall i | 0 < i < |a| ensures a[i].layerStart >= from { assert a[i] == a[1..][i - 1]; }
    }
  }

  /** No shard is empty, unless the cast to `u32` cut a node's share to nothing on the way. */
  lemma ShardsAreNonEmpty(spec: ModelSpec, nodes: seq<NodeCapacity>)
    requires spec.perLayerMb > 0 && Plan(spec, nodes).Ok?
    ensures NonEmptyRanges(Plan(spec, nodes).value.assignments)
       <==> !ReachesCutNode(spec, SortByVram(nodes), 0, spec.contextMb)
    ensures NoTruncation(spec, nodes) ==> NonEmptyRanges(Plan(spec, nodes).value.assignments)
  {
    AssignNonEmpty(spec, SortByVram(nodes), 0, spec.contextMb);
    if NoTruncation(spec, nodes) {
      SortedNodes(nodes);
      UntruncatedReachesNone(spec, SortByVram(nodes), 0, spec.contextMb);
    }
  }

  lemma {:induction false} UntruncatedReachesNone(spec: ModelSpec, nodes: seq<NodeCapacity>, cursor: nat, reserve: nat)
    requires spec.perLayerMb > 0 && NoTruncation(spec, nodes)
    ensures !ReachesCutNode(spec, nodes, cursor, reserve)
  {
    if nodes != [] && cursor < spec.totalLayers {
      var v := nodes[0].vramMb;
      UntruncatedCapacity(spec, v, reserve);
      if Usable(v, reserve) >= spec.perLayerMb {
        DivMonotone(spec.perLayerMb, Usable(v, reserve), spec.perLayerMb);
      }
      UntruncatedReachesNone(spec, nodes[1..], cursor + LayerCapacity(spec, v, reserve), 0);
    }
  }

  /** An input on which the cast makes the controller run no layer at all. */
  lemma CastCanEmptyAShard()
    ensures exists spec: ModelSpec, nodes: seq<NodeCapacity> ::
      spec.perLayerMb > 0 && Plan(spec, nodes).Ok? && !NonEmptyRanges(Plan(spec, nodes).value.assignments)
  {
    var spec := ModelSpec("m", 1, 1, 0);
    var big, small := NodeCapacity("a", "a", 0, 0, U32_LIMIT), NodeCapacity("b", "b", 0, 0, 1);
    var nodes := [big, small];
    LargerFirstIsOrder();
    SortIsUnique(LargerFirst, nodes, nodes);
    assert Assign(spec, [small], 0, 0).0 == [Assignment(spec, small, 0, 1)] + Assign(spec, [], 1, 0).0;
    assert nodes[1..] == [small];
    assert TotalVram(nodes) == U32_LIMIT + TotalVram([small]);
    assert Plan(spec, nodes).Ok?;
    assert Plan(spec, nodes).value.assignments[0] == Assignment(spec, big, 0, 0);
  }

  lemma PlanOkIff(spec: ModelSpec, nodes: seq<NodeCapacity>)
    requires spec.perLayerMb > 0
    ensures Plan(spec, nodes).Ok? <==>
      && nodes != []
      && TotalVram(nodes) >= spec.TotalMb()
      && CapacitySum(spec, SortByVram(nodes), spec.contextMb) >= spec.totalLayers
  {
    AssignCovers(spec, SortByVram(nodes), 0, spec.contextMb);
  }

  /** One more node adds its VRAM. */
  lemma {:induction false} TotalVramLaw(nodes: seq<NodeCapacity>, n: NodeCapacity)
    ensures TotalVram([]) == 0 && TotalVram(nodes + [n]) == TotalVram(nodes) + n.vramMb
  {
    if nodes == [] {
      assert [n][1..] == [] && nodes + [n] == [n];
    } else {
      assert (nodes + [n])[1..] == nodes[1..] + [n];
      TotalVramLaw(nodes[1..], n);
    }
  }

  /** A failure says that there are no nodes, or what was needed, what there was, and on how many nodes, in this order. */
  lemma PlanErrorIs(spec: ModelSpec, nodes: seq<NodeCapacity>)
    requires spec.perLayerMb > 0 && Plan(spec, nodes).Err?
    ensures Plan(spec, nodes).error ==
      if nodes == [] then NoNodes
      else InsufficientVram(spec.totalLayers * spec.perLayerMb + spec.contextMb, TotalVram(nodes), |nodes|)
  {
  }

  /**
   Planning succeeds exactly when the floored capacities, with the context charged to the largest node,
   cover all layers -- and, only where the largest node is smaller than the context, the VRAM check also passes.
   */
  lemma PlanSucceedsIff(spec: ModelSpec, nodes: seq<NodeCapacity>)
    requires spec.perLayerMb > 0 && NoTruncation(spec, nodes)
    ensures Plan(spec, nodes).Ok? <==>
      && nodes != []
      && TotalVram(nodes) >= spec.TotalMb()
      && LayersWithHost(spec, nodes, MaxVram(nodes)) >= spec.totalLayers
    ensures MaxVram(nodes) >= spec.contextMb ==>
      (Plan(spec, nodes).Ok? <==> nodes != [] && LayersWithHost(spec, nodes, MaxVram(nodes)) >= spec.totalLayers)
  {
    if nodes != [] {
      var s := SortByVram(nodes);
      SortedNodes(nodes);
      SortedCapacity(spec, nodes);
      PlanOkIff(spec, nodes);
      if MaxVram(nodes) >= spec.contextMb {
        TotalVramSorted(nodes);
        CapacityAgainstVram(spec, s, spec.contextMb);
        if CapacitySum(spec, s, spec.contextMb) >= spec.totalLayers {
          MulMonotone(spec.totalLayers, CapacitySum(spec, s, spec.contextMb), spec.perLayerMb);
        }
      }
    }
  }

  lemma SameSums(spec: ModelSpec, a: seq<NodeCapacity>, b: seq<NodeCapacity>)
    requires spec.perLayerMb > 0 && NoTruncation(spec, a) && multiset(a) == multiset(b)
    ensures NoTruncation(spec, b) && |a| == |b| && MaxVram(a) == MaxVram(b) && TotalVram(a) == TotalVram(b)
    ensures FlooredLayers(spec, a) == FlooredLayers(spec, b)
  {
    assert forall n :: n in b <==> n in multiset(b);
    assert forall n :: n in a <==> n in multiset(a);
    assert |a| == |multiset(a)| && |b| == |multiset(b)|;
    MaxVramIs(a);
    MaxVramIs(b);
    TotalVramIsSum(a);
    TotalVramIsSum(b);
    SumOverPermute(Megabytes(), a, b);
    SumOverPermute(LayersIn(spec), a, b);
  }

  /** Whether planning succeeds does not depend on the order of the nodes. */
  lemma PlanOkInAnyOrder(spec: ModelSpec, a: seq<NodeCapacity>, b: seq<NodeCapacity>)
    requires spec.perLayerMb > 0 && NoTruncation(spec, a) && multiset(a) == multiset(b)
    ensures Plan(spec, a).Ok? <==> Plan(spec, b).Ok?
  {
    SameSums(spec, a, b);
    PlanSucceedsIff(spec, a);
    PlanSucceedsIff(spec, b);
  }

  /** Enough VRAM to lose one MB short of a layer on all nodes but one always suffices. */
  lemma EnoughVram(spec: ModelSpec, nodes: seq<NodeCapacity>)
    requires spec.perLayerMb > 0 && NoTruncation(spec, nodes) && nodes != []
    requires TotalVram(nodes) >= spec.TotalMb() + (|nodes| - 1) * (spec.perLayerMb - 1)
    ensures Plan(spec, nodes).Ok?
  {
    DropProduct(TotalVram(nodes), spec.TotalMb(), |nodes| - 1, spec.perLayerMb - 1);
    EnoughCapacity(spec, nodes);
    PlanOkIff(spec, nodes);
  }

  lemma EnoughCapacity(spec: ModelSpec, nodes: seq<NodeCapacity>)
    requires spec.perLayerMb > 0 && NoTruncation(spec, nodes) && nodes != []
    requires TotalVram(nodes) >= spec.TotalMb() + (|nodes| - 1) * (spec.perLayerMb - 1)
    ensures CapacitySum(spec, SortByVram(nodes), spec.contextMb) >= spec.totalLayers
  {
    var s := SortByVram(nodes);
    SortedNodes(nodes);
    TotalVramSorted(nodes);
    if s[0].vramMb >= spec.contextMb {
      EnoughWithLargest(spec, s);
    } else {
      EnoughWithoutLargest(spec, s);
    }
  }

  lemma EnoughWithLargest(spec: ModelSpec, s: seq<NodeCapacity>)
    requires spec.perLayerMb > 0 && NoTruncation(spec, s) && s != [] && s[0].vramMb >= spec.contextMb
    requires TotalVram(s) >= spec.TotalMb() + (|s| - 1) * (spec.perLayerMb - 1)
    ensures CapacitySum(spec, s, spec.contextMb) >= spec.totalLayers
  {
    CapacityAgainstVram(spec, s, spec.contextMb);
    LossIsBounded(CapacitySum(spec, s, spec.contextMb), spec.totalLayers, spec.perLayerMb,
                  |s| - 1, TotalVram(s) - spec.contextMb);
  }

  lemma EnoughWithoutLargest(spec: ModelSpec, s: seq<NodeCapacity>)
    requires spec.perLayerMb > 0 && NoTruncation(spec, s) && s != [] && s[0].vramMb < spec.contextMb
    requires TotalVram(s) >= spec.TotalMb() + (|s| - 1) * (spec.perLayerMb - 1)
    ensures CapacitySum(spec, s, spec.contextMb) >= spec.totalLayers
  {
    SkippedCapacity(spec, s);
    CapacityAgainstVram(spec, s[1..], 0);
    MulCancel(CapacitySum(spec, s[1..], 0), spec.totalLayers, spec.perLayerMb);
  }

  /** A first node smaller than the context contributes nothing and loses the reserve to nobody. */
  lemma SkippedCapacity(spec: ModelSpec, nodes: seq<NodeCapacity>)
    requires spec.perLayerMb > 0 && nodes != [] && nodes[0].vramMb < spec.contextMb
    ensures CapacitySum(spec, nodes, spec.contextMb) == CapacitySum(spec, nodes[1..], 0)
  {
    SkippedHasNoCapacity(spec, nodes[0].vramMb, spec.contextMb);
  }

  // ----- The bound is tight

  function SmallNodes(spec: ModelSpec, n: nat): seq<NodeCapacity>
    requires spec.perLayerMb > 0
  {
    if n == 0 then [] else [NodeCapacity("small", "small", 0, 0, spec.perLayerMb - 1)] + SmallNodes(spec, n - 1)
  }

  /** A controller one MB short of the last layer, and `n` nodes one MB short of any layer. */
  function UnluckyNodes(spec: ModelSpec, n: nat): seq<NodeCapacity>
    requires spec.perLayerMb > 0 && spec.totalLayers > 0
  {
    [NodeCapacity("big", "big", 0, 0, spec.TotalMb() - 1)] + SmallNodes(spec, n)
  }

  lemma {:induction false} SmallNodesSums(spec: ModelSpec, n: nat)
    requires spec.perLayerMb > 0
    ensures |SmallNodes(spec, n)| == n
    ensures TotalVram(SmallNodes(spec, n)) == n * (spec.perLayerMb - 1)
    ensures FlooredLayers(spec, SmallNodes(spec, n)) == 0
    ensures MaxVram(SmallNodes(spec, n)) < spec.perLayerMb
    ensures forall x :: x in SmallNodes(spec, n) ==> x.vramMb == spec.perLayerMb - 1
  {
    if n > 0 {
      SmallNodesSums(spec, n - 1);
      DivUnique(spec.perLayerMb - 1, spec.perLayerMb, 0);
      Distribute(n - 1, 1, spec.perLayerMb - 1);
    }
  }

  lemma UnluckySums(spec: ModelSpec, n: nat)
    requires spec.perLayerMb > 0 && spec.totalLayers > 0
    ensures var nodes, big := UnluckyNodes(spec, n), spec.TotalMb() - 1;
      && big >= spec.contextMb + spec.perLayerMb - 1
      && |nodes| == n + 1 && MaxVram(nodes) == big
      && TotalVram(nodes) == big + n * (spec.perLayerMb - 1)
      && FlooredLayers(spec, nodes) == big / spec.perLayerMb
      && (forall x :: x in nodes ==> x.vramMb == big || x.vramMb == spec.perLayerMb - 1)
  {
    SmallNodesSums(spec, n);
    assert UnluckyNodes(spec, n)[1..] == SmallNodes(spec, n);
    MulMonotone(1, spec.totalLayers, spec.perLayerMb);
  }

  lemma UnluckyCapacity(spec: ModelSpec)
    requires spec.perLayerMb > 0 && spec.totalLayers > 0
    ensures (spec.totalLayers * spec.perLayerMb - 1) / spec.perLayerMb == spec.totalLayers - 1
  {
    Distribute(spec.totalLayers - 1, 1, spec.perLayerMb);
    DivUnique(spec.totalLayers * spec.perLayerMb - 1, spec.perLayerMb, spec.totalLayers - 1);
  }

  lemma UnluckyUntruncated(spec: ModelSpec, n: nat)
    requires spec.perLayerMb > 0 && spec.totalLayers > 0
    requires (spec.TotalMb() - 1) / spec.perLayerMb < U32_LIMIT
    ensures NoTruncation(spec, UnluckyNodes(spec, n))
  {
    UnluckySums(spec, n);
    TwoSizesUntruncated(spec, UnluckyNodes(spec, n), spec.TotalMb() - 1);
  }

  lemma TwoSizesUntruncated(spec: ModelSpec, nodes: seq<NodeCapacity>, big: nat)
    requires spec.perLayerMb > 0 && big / spec.perLayerMb < U32_LIMIT
    requires forall x :: x in nodes ==> x.vramMb == big || x.vramMb == spec.perLayerMb - 1
    ensures NoTruncation(spec, nodes)
  {
    DivUnique(spec.perLayerMb - 1, spec.perLayerMb, 0);
  }

  lemma UnluckyLayers(spec: ModelSpec, n: nat)
    requires spec.perLayerMb > 0 && spec.totalLayers > 0
    ensures LayersWithHost(spec, UnluckyNodes(spec, n), spec.TotalMb() - 1) < spec.totalLayers
  {
    UnluckySums(spec, n);
    UnluckyCapacity(spec);
  }

  /** For every model and every number of nodes, one MB less than `EnoughVram` asks for can fail. */
  lemma OneMbLessCanFail(spec: ModelSpec, n: nat)
    requires spec.perLayerMb > 0 && spec.totalLayers > 0
    requires (spec.TotalMb() - 1) / spec.perLayerMb < U32_LIMIT
    ensures var nodes := UnluckyNodes(spec, n);
      && |nodes| == n + 1 && NoTruncation(spec, nodes)
      && MaxVram(nodes) >= spec.contextMb
      && TotalVram(nodes) == spec.TotalMb() + (|nodes| - 1) * (spec.perLayerMb - 1) - 1
      && Plan(spec, nodes).Err?
  {
    UnluckySums(spec, n);
    UnluckyUntruncated(spec, n);
    UnluckyLayers(spec, n);
    PlanSucceedsIff(spec, UnluckyNodes(spec, n));
  }

  // ----- The controller and the context

  lemma {:induction false} UsedNodesFromInput(spec: ModelSpec, nodes: seq<NodeCapacity>, cursor: nat, reserve: nat)
    requires spec.perLayerMb > 0
    ensures forall n :: n in UsedNodes(spec, nodes, cursor, reserve) ==> n in nodes
  {
    UsedOnce(spec, nodes, cursor, reserve);
    forall n | n in UsedNodes(spec, nodes, cursor, reserve) ensures n in nodes {
      assert n in multiset(UsedNodes(spec, nodes, cursor, reserve));
      assert n in multiset(nodes);
    }
  }

  /** The controller's node has room for its layers and the context. */
  predicate ControllerHoldsContext(spec: ModelSpec, nodes: seq<NodeCapacity>)
    requires spec.perLayerMb > 0 && spec.totalLayers > 0 && Plan(spec, nodes).Ok?
  {
    PlanIsValid(spec, nodes);
    Plan(spec, nodes).value.assignments[0].vramRequiredMb + spec.contextMb <= PlanNodes(spec, nodes)[0].vramMb
  }

  /**
   The controller has room for the context exactly when the largest node holds the context and one layer;
   only then is the controller the largest node, otherwise that node is skipped and the reserve is dropped.
   */
  lemma ControllerHoldsContextIff(spec: ModelSpec, nodes: seq<NodeCapacity>)
    requires spec.perLayerMb > 0 && spec.totalLayers > 0 && NoTruncation(spec, nodes) && Plan(spec, nodes).Ok?
    ensures ControllerHoldsContext(spec, nodes) <==> MaxVram(nodes) >= spec.contextMb + spec.perLayerMb
    ensures MaxVram(nodes) >= spec.contextMb + spec.perLayerMb ==>
      var used, s := PlanNodes(spec, nodes), SortByVram(nodes);
      used != [] && s != [] && used[0] == s[0] && s[0].vramMb == MaxVram(nodes)
  {
    var s := SortByVram(nodes);
    PlanIsValid(spec, nodes);
    SortedNodes(nodes);
    if MaxVram(nodes) >= spec.contextMb + spec.perLayerMb {
      var layers := Min(LayerCapacity(spec, s[0].vramMb, spec.contextMb), spec.totalLayers);
      AssignmentFits(spec, s[0], 0, layers, spec.contextMb);
    } else {
      var used, first := PlanNodes(spec, nodes), Plan(spec, nodes).value.assignments[0];
      UsedNodesFromInput(spec, s, 0, spec.contextMb);
      assert used[0] in used;
      MaxVramIs(nodes);
      ShardsAreNonEmpty(spec, nodes);
      assert FitsOn(spec, first, used[0]);
      MulMonotone(1, first.layerEnd - first.layerStart, spec.perLayerMb);
    }
  }

  // ----- Few shards

  /** Three shards are planned, and none of the three nodes has room for the context: the controller's least of all. */
  lemma ContextCanBeUnpaid()
    ensures var spec, nodes := ModelSpec("m", 3, 10, 15), [SampleNode("a", 24), SampleNode("b", 24), SampleNode("c", 24)];
      && NoTruncation(spec, nodes) && Plan(spec, nodes).Ok? && !ControllerHoldsContext(spec, nodes)
  {
    var spec, nodes := ModelSpec("m", 3, 10, 15), [SampleNode("a", 24), SampleNode("b", 24), SampleNode("c", 24)];
    assert nodes[1..] == [nodes[1], nodes[2]] && nodes[1..][1..] == [nodes[2]] && nodes[1..][1..][1..] == [];
    assert TotalVram(nodes) == 72 && MaxVram(nodes) == 24;
    assert LayersIn(spec)(24) == 2;
    assert FlooredLayers(spec, nodes) == 6;
    PlanSucceedsIff(spec, nodes);
    ControllerHoldsContextIff(spec, nodes);
  }

  lemma FlooredHostLoss(v0: nat, h: nat, c: nat, p: nat)
    requires p > 0 && h <= v0 && c <= h
    ensures h / p - (h - c) / p >= v0 / p - (v0 - c) / p - 1
  {
    DivOfSum(h - c, c, p);
    DivOfSum(v0 - c, c, p);
  }

  /** The `m` largest nodes, with the context on the largest, against any `m` nodes with it on any of them. */
  lemma BestTeam(spec: ModelSpec, d: seq<NodeCapacity>, host: NodeCapacity, others: seq<NodeCapacity>)
    requires spec.perLayerMb > 0 && SortedBy(LargerFirst, d) && NoTruncation(spec, d)
    requires multiset([host] + others) <= multiset(d)
    ensures var m := 1 + |others|;
      && m <= |d| && host.vramMb <= d[0].vramMb
      && var best := CapacitySum(spec, d[..m], spec.contextMb);
         var team := LayersWithHost(spec, [host] + others, host.vramMb);
         && (host.vramMb == d[0].vramMb ==> best >= team)
         && (host.vramMb >= spec.contextMb ==> best >= team - 1)
  {
    var team := [host] + others;
    LayersInMonotone(spec);
    LargestAreBest(LayersIn(spec), d, team);
    DrawnFromSorted(d, host, others);
    CapacityIsFloored(spec, d[..|team|]);
    if host.vramMb >= spec.contextMb {
      FlooredHostLoss(d[0].vramMb, host.vramMb, spec.contextMb, spec.perLayerMb);
    }
  }

  lemma LayersInMonotone(spec: ModelSpec)
    requires spec.perLayerMb > 0
    ensures Monotone(LayersIn(spec))
  {
    forall x: nat, y: nat | x <= y ensures LayersIn(spec)(x) <= LayersIn(spec)(y) {
      DivMonotone(x, y, spec.perLayerMb);
    }
  }

  lemma DrawnFromSorted(d: seq<NodeCapacity>, host: NodeCapacity, others: seq<NodeCapacity>)
    requires SortedBy(LargerFirst, d) && multiset([host] + others) <= multiset(d)
    ensures d != [] && host.vramMb <= d[0].vramMb
  {
    assert host in multiset([host] + others);
    assert host in multiset(d);
    var i :| 0 <= i < |d| && d[i] == host;
    assert i > 0 ==> LargerFirst(d[0], d[i]);
  }

  lemma {:induction false} CapacitySumConcat(spec: ModelSpec, a: seq<NodeCapacity>, b: seq<NodeCapacity>, reserve: nat)
    requires spec.perLayerMb > 0 && a != []
    ensures CapacitySum(spec, a + b, reserve) == CapacitySum(spec, a, reserve) + CapacitySum(spec, b, 0)
  {
    assert (a + b)[1..] == a[1..] + b;
    if a[1..] == [] {
      assert a[1..] + b == b;
    } else {
      CapacitySumConcat(spec, a[1..], b, 0);
    }
  }

  lemma {:induction false} ZeroFromHere(spec: ModelSpec, d: seq<NodeCapacity>)
    requires spec.perLayerMb > 0 && SortedBy(LargerFirst, d) && NoTruncation(spec, d)
    requires d != [] ==> LayerCapacity(spec, d[0].vramMb, 0) == 0
    ensures CapacitySum(spec, d, 0) == 0
  {
    if |d| > 1 {
      assert LargerFirst(d[0], d[1]);
      UntruncatedCapacity(spec, d[0].vramMb, 0);
      UntruncatedCapacity(spec, d[1].vramMb, 0);
      DivMonotone(d[1].vramMb, d[0].vramMb, spec.perLayerMb);
      ZeroFromHere(spec, d[1..]);
    }
  }

  /** If `m` nodes fall short by one layer at most, one more node is enough for a plan that succeeds. */
  lemma OneMore(spec: ModelSpec, d: seq<NodeCapacity>, m: nat)
    requires spec.perLayerMb > 0 && SortedBy(LargerFirst, d) && NoTruncation(spec, d) && 1 <= m <= |d|
    requires CapacitySum(spec, d, spec.contextMb) >= spec.totalLayers
    requires CapacitySum(spec, d[..m], spec.contextMb) >= spec.totalLayers - 1
    ensures |Assign(spec, d, 0, spec.contextMb).0| <= m + 1
  {
    var rest := d[m..];
    assert d == d[..m] + rest;
    CapacitySumConcat(spec, d[..m], rest, spec.contextMb);
    if CapacitySum(spec, d[..m], spec.contextMb) >= spec.totalLayers {
      FewShards(spec, d, 0, spec.contextMb, m);
    } else {
      if LayerCapacity(spec, rest[0].vramMb, 0) == 0 {
        ZeroFromHere(spec, rest);
      }
      assert d[..m + 1] == d[..m] + [rest[0]];
      CapacitySumConcat(spec, d[..m], [rest[0]], spec.contextMb);
      assert CapacitySum(spec, [rest[0]], 0) == LayerCapacity(spec, rest[0].vramMb, 0) + CapacitySum(spec, [], 0);
      FewShards(spec, d, 0, spec.contextMb, m + 1);
    }
  }

  /**
   Greedy minimality.  Take any nodes that together cover all layers, with the context charged to one of them.
   If that one is as large as the largest, the plan has no more shards than the team has nodes;
   if it merely holds the context, the plan has at most one more.
   */
  lemma GreedyIsMinimal(spec: ModelSpec, nodes: seq<NodeCapacity>, host: NodeCapacity, others: seq<NodeCapacity>)
    requires spec.perLayerMb > 0 && NoTruncation(spec, nodes) && Plan(spec, nodes).Ok?
    requires multiset([host] + others) <= multiset(nodes)
    requires LayersWithHost(spec, [host] + others, host.vramMb) >= spec.totalLayers
    ensures host.vramMb == MaxVram(nodes) ==> |Plan(spec, nodes).value.assignments| <= |[host] + others|
    ensures host.vramMb >= spec.contextMb ==> |Plan(spec, nodes).value.assignments| <= |[host] + others| + 1
  {
    var s, m := SortByVram(nodes), |[host] + others|;
    SortedNodes(nodes);
    PlanOkIff(spec, nodes);
    BestTeam(spec, s, host, others);
    if host.vramMb == MaxVram(nodes) {
      FewShards(spec, s, 0, spec.contextMb, m);
    } else if host.vramMb >= spec.contextMb {
      OneMore(spec, s, m);
    }
  }

  lemma FreeTeamWithLargest(spec: ModelSpec, largest: NodeCapacity, team: seq<NodeCapacity>)
    requires spec.perLayerMb > 0
    ensures LayersWithHost(spec, [largest] + team, largest.vramMb) >= FlooredLayers(spec, team)
  {
    assert ([largest] + team)[1..] == team;
    assert LayersIn(spec)(largest.vramMb) == largest.vramMb / spec.perLayerMb;
  }

  /** Even a team that leaves the largest node out and pays for no context saves at most one shard. */
  lemma GreedyAgainstFreeTeam(spec: ModelSpec, nodes: seq<NodeCapacity>, largest: NodeCapacity, team: seq<NodeCapacity>)
    requires spec.perLayerMb > 0 && NoTruncation(spec, nodes) && Plan(spec, nodes).Ok?
    requires largest.vramMb == MaxVram(nodes) && multiset([largest] + team) <= multiset(nodes)
    requires FlooredLayers(spec, team) >= spec.totalLayers
    ensures |Plan(spec, nodes).value.assignments| <= |team| + 1
  {
    FreeTeamWithLargest(spec, largest, team);
    GreedyIsMinimal(spec, nodes, largest, team);
  }

  function SampleNode(id: string, vramMb: nat): NodeCapacity {
    NodeCapacity(id, id, 0, 0, vramMb)
  }

  lemma ThreeShardAssign(spec: ModelSpec, a: NodeCapacity, b: NodeCapacity, c: NodeCapacity)
    requires spec == ModelSpec("m", 3, 10, 5) && a.vramMb == 20 && b.vramMb == 15 && c.vramMb == 10
    ensures |Assign(spec, [a, b, c], 0, 5).0| == 3 && Assign(spec, [a, b, c], 0, 5).1 == 3
  {
    assert [a, b, c][1..] == [b, c] && [b, c][1..] == [c] && [c][1..] == [];
    assert LayerCapacity(spec, 10, 0) == 1 && LayerCapacity(spec, 15, 0) == 1 && LayerCapacity(spec, 20, 5) == 1;
    assert Assign(spec, [c], 2, 0).1 == 3 && |Assign(spec, [c], 2, 0).0| == 1;
    assert Assign(spec, [b, c], 1, 0).1 == 3 && |Assign(spec, [b, c], 1, 0).0| == 2;
  }

  lemma ThreeShardPlan(spec: ModelSpec, a: NodeCapacity, b: NodeCapacity, c: NodeCapacity)
    requires spec == ModelSpec("m", 3, 10, 5) && a.vramMb == 20 && b.vramMb == 15 && c.vramMb == 10
    ensures Plan(spec, [a, b, c]).Ok? && |Plan(spec, [a, b, c]).value.assignments| == 3
  {
    LargerFirstIsOrder();
    SortIsUnique(LargerFirst, [a, b, c], [a, b, c]);
    ThreeShardAssign(spec, a, b, c);
    assert [a, b, c][1..] == [b, c] && [b, c][1..] == [c];
    assert TotalVram([c]) == 10 && TotalVram([b, c]) == 25 && TotalVram([a, b, c]) == 45;
    assert SortByVram([a, b, c]) == [a, b, c];
  }

  /** The extra shard is real: three shards are planned where `b`, holding the context, and `a` would do. */
  lemma GreedyCanLoseOne(spec: ModelSpec, a: NodeCapacity, b: NodeCapacity, c: NodeCapacity)
    requires spec == ModelSpec("m", 3, 10, 5)
    requires a == SampleNode("a", 20) && b == SampleNode("b", 15) && c == SampleNode("c", 10)
    ensures NoTruncation(spec, [a, b, c]) && Plan(spec, [a, b, c]).Ok?
    ensures multiset([b] + [a]) <= multiset([a, b, c]) && b.vramMb >= spec.contextMb
    ensures LayersWithHost(spec, [b] + [a], b.vramMb) >= spec.totalLayers
    ensures |Plan(spec, [a, b, c]).value.assignments| == |[b] + [a]| + 1
  {
    ThreeShardPlan(spec, a, b, c);
    var f := LayersIn(spec);
    assert ([b] + [a])[1..] == [a];
    assert f(15) == 1 && f(20) == 2;
    assert SumOver(f, [a]) == 2;
  }

  /** Unique node ids, hosts or ports in the input stay unique in the plan. */
  lemma PlanKeepsDistinct<K>(spec: ModelSpec, nodes: seq<NodeCapacity>, key: NodeCapacity -> K)
    requires spec.perLayerMb > 0 && Plan(spec, nodes).Ok? && Distinct(Keys(key, nodes))
    ensures Distinct(Keys(key, PlanNodes(spec, nodes)))
  {
    PlanIsValid(spec, nodes);
    DrawnDistinct(key, PlanNodes(spec, nodes), nodes);
  }
}
