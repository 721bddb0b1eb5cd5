/** Candidate completeness, controller choice and failover refinement. */
module CoordinatorTheorems {
  import opened Arithmetic
  import opened Collections
  import opened Coordinator
  import opened Nodes
  import opened NodeSums
  import opened Planner
  import opened PlannerTheorems
  import opened Prelude
  import opened Registry
  import opened Sorting

  // ----- Filters, orders and rotations

  lemma SoloOrderIsOrder(stats: Stats)
    ensures TotalPreorder(SoloOrder(stats))
  {
  }

  lemma PlanOrderIsOrder(stats: Stats)
    ensures TotalPreorder(PlanOrder(stats))
  {
  }

  lemma {:induction false} OnlineNodesAre(nodes: seq<NodeInfo>)
    ensures forall n :: n in OnlineNodes(nodes) <==> n in nodes && n.status == Online
    ensures multiset(OnlineNodes(nodes)) <= multiset(nodes)
  {
    if nodes != [] {
      OnlineNodesAre(nodes[1..]);
      assert nodes == [nodes[0]] + nodes[1..];
    }
  }

  lemma {:induction false} AtLeastAre(nodes: seq<NodeInfo>, neededMb: nat)
    ensures forall n :: n in AtLeast(nodes, neededMb) <==> n in nodes && n.vramMb >= neededMb
  {
    if nodes != [] {
      AtLeastAre(nodes[1..], neededMb);
      assert nodes == [nodes[0]] + nodes[1..];
    }
  }

  lemma RotateIs<T>(s: seq<T>, offset: nat)
    requires s != [] && offset < |s|
    ensures |Rotate(s, offset)| == |s| && multiset(Rotate(s, offset)) == multiset(s)
    ensures forall k :: 0 <= k < |s| ==> Rotate(s, offset)[k] == s[(k + offset) % |s|]
  {
    assert s == s[..offset] + s[offset..];
    forall k | 0 <= k < |s| ensures Rotate(s, offset)[k] == s[(k + offset) % |s|] {
      if k + offset < |s| {
        DivUnique(k + offset, |s|, 0);
      } else {
        DivUnique(k + offset, |s|, 1);
      }
    }
  }

  /** Each call's sequence is the sorted list of solo nodes turned by the counter. */
  lemma SoloSequenceIs(spec: ModelSpec, nodes: seq<NodeInfo>, stats: Stats, counter: nat)
    requires SoloNodes(spec, nodes) != []
    ensures var solo, s := SoloNodes(spec, nodes), SoloSequence(spec, nodes, stats, counter);
      var sorted := StableSort(SoloOrder(stats), solo);
      && |sorted| == |solo| == |s| && multiset(s) == multiset(sorted) == multiset(solo)
      && s == Rotate(sorted, counter % |solo|)
  {
    SoloOrderIsOrder(stats);
    var sorted := StableSort(SoloOrder(stats), SoloNodes(spec, nodes));
    SortCorrect(SoloOrder(stats), SoloNodes(spec, nodes));
    RotateIs(sorted, counter % |sorted|);
  }

  lemma SoloNodesAre(spec: ModelSpec, nodes: seq<NodeInfo>)
    ensures forall n :: n in SoloNodes(spec, nodes) <==> n in nodes && n.status == Online && n.vramMb >= spec.TotalMb()
  {
    OnlineNodesAre(nodes);
    AtLeastAre(OnlineNodes(nodes), spec.TotalMb());
  }

  // ----- Candidate completeness

  /** One shard on `n` that runs every layer. */
  function WholeModelOn(spec: ModelSpec, n: NodeInfo): ShardPlan {
    ShardPlan(spec.name, spec.totalLayers, [Assignment(spec, Capacity(n), 0, spec.totalLayers)])
  }

  /** The shard is at the node's id, host and ports. */
  predicate PlacedOn(a: ShardAssignment, n: NodeInfo) {
    a.nodeId == n.id && a.host == n.host && a.ollamaPort == n.port && a.agentPort == n.agentPort
  }

  /** The plan runs the whole model on the node. */
  predicate RunsAllOn(spec: ModelSpec, plan: ShardPlan, n: NodeInfo) {
    && plan.model == spec.name && plan.totalLayers == spec.totalLayers && |plan.assignments| == 1
    && PlacedOn(plan.assignments[0], n)
    && plan.assignments[0].layerStart == 0 && plan.assignments[0].layerEnd == spec.totalLayers
    && plan.assignments[0].vramRequiredMb == spec.totalLayers * spec.perLayerMb
  }

  /** The node is online and fits the whole model with its context. */
  predicate CanServe(spec: ModelSpec, n: NodeInfo) {
    n.status == Online && n.vramMb >= spec.totalLayers * spec.perLayerMb + spec.contextMb
  }

  /** The counter moves, and wraps, exactly when some node can serve the model alone. */
  lemma NextCounterIs(spec: ModelSpec, nodes: seq<NodeInfo>, counter: nat)
    ensures NextCounter(spec, nodes, counter) ==
      if exists n :: n in nodes && CanServe(spec, n) then (counter + 1) % 0x1_0000_0000_0000_0000 else counter
  {
    SoloNodesAre(spec, nodes);
    if SoloNodes(spec, nodes) != [] {
      assert SoloNodes(spec, nodes)[0] in SoloNodes(spec, nodes);
    }
  }

  /** Also where the cast makes planning fail on some nodes, the others keep their plans, in order. */
  lemma {:induction false} PlansOnEachConcat(spec: ModelSpec, a: seq<NodeInfo>, b: seq<NodeInfo>, n: NodeInfo)
    requires spec.perLayerMb > 0
    ensures PlansOnEach(spec, a + b) == PlansOnEach(spec, a) + PlansOnEach(spec, b)
    ensures var r := Plan(spec, [Capacity(n)]); PlansOnEach(spec, [n]) == if r.Ok? then [r.value] else []
  {
    assert [n][1..] == [];
    if a == [] {
      assert a + b == b;
    } else {
      assert (a + b)[1..] == a[1..] + b;
      PlansOnEachConcat(spec, a[1..], b, n);
    }
  }

  function WholeModelOnEach(spec: ModelSpec, nodes: seq<NodeInfo>): seq<ShardPlan> {
    if nodes == [] then [] else [WholeModelOn(spec, nodes[0])] + WholeModelOnEach(spec, nodes[1..])
  }

  /** No online node is large enough for the cast to `u32` to matter. */
  predicate Untruncated(spec: ModelSpec, nodes: seq<NodeInfo>)
    requires spec.perLayerMb > 0
  {
    forall n :: n in nodes && n.status == Online ==> n.vramMb / spec.perLayerMb < U32_LIMIT
  }

  lemma SingletonSort(n: NodeCapacity)
    ensures SortByVram([n]) == [n]
  {
    assert StableSort(LargerFirst, [n]) == InsertFirst(LargerFirst, n, StableSort(LargerFirst, []));
  }

  lemma AmpleCapacity(spec: ModelSpec, vramMb: nat)
    requires spec.perLayerMb > 0 && vramMb >= spec.TotalMb() && vramMb / spec.perLayerMb < U32_LIMIT
    ensures LayerCapacity(spec, vramMb, spec.contextMb) >= spec.totalLayers
  {
    UntruncatedCapacity(spec, vramMb, spec.contextMb);
    DivMonotone(spec.totalLayers * spec.perLayerMb, vramMb - spec.contextMb, spec.perLayerMb);
    DivOfProduct(spec.totalLayers, spec.perLayerMb);
  }

  lemma AssignSingle(spec: ModelSpec, c: NodeCapacity)
    requires Plannable(spec) && LayerCapacity(spec, c.vramMb, spec.contextMb) >= spec.totalLayers
    ensures Assign(spec, [c], 0, spec.contextMb).0 == [Assignment(spec, c, 0, spec.totalLayers)]
  {
    SkippedHasNoCapacity(spec, c.vramMb, spec.contextMb);
    assert [c][1..] == [];
    assert Assign(spec, [], spec.totalLayers, 0) == ([], spec.totalLayers);
  }

  lemma SinglePlanOkIff(spec: ModelSpec, c: NodeCapacity)
    requires spec.perLayerMb > 0 && c.vramMb >= spec.TotalMb()
    ensures Plan(spec, [c]).Ok? <==> LayerCapacity(spec, c.vramMb, spec.contextMb) >= spec.totalLayers
  {
    SingletonSort(c);
    PlanOkIff(spec, [c]);
    assert [c][1..] == [];
    assert TotalVram([c]) == c.vramMb;
    assert CapacitySum(spec, [c], spec.contextMb) == LayerCapacity(spec, c.vramMb, spec.contextMb);
  }

  /** A node with enough VRAM keeps its plan exactly when the cast leaves it enough layers; the plan is then whole. */
  lemma SoloPlan(spec: ModelSpec, n: NodeInfo)
    requires Plannable(spec) && n.vramMb >= spec.TotalMb()
    ensures Plan(spec, [Capacity(n)]).Ok? <==> LayerCapacity(spec, n.vramMb, spec.contextMb) >= spec.totalLayers
    ensures Plan(spec, [Capacity(n)]).Ok? ==>
      Plan(spec, [Capacity(n)]) == Ok(WholeModelOn(spec, n)) && RunsAllOn(spec, WholeModelOn(spec, n), n)
    ensures n.vramMb / spec.perLayerMb < U32_LIMIT ==> Plan(spec, [Capacity(n)]).Ok?
  {
    var c := Capacity(n);
    SinglePlanOkIff(spec, c);
    if n.vramMb / spec.perLayerMb < U32_LIMIT {
      AmpleCapacity(spec, n.vramMb);
    }
    if Plan(spec, [c]).Ok? {
      SingletonSort(c);
      AssignSingle(spec, c);
    }
  }

  lemma {:induction false} PlansOnEachWhole(spec: ModelSpec, nodes: seq<NodeInfo>)
    requires Plannable(spec) && Untruncated(spec, nodes)
    requires forall n :: n in nodes ==> n.status == Online && n.vramMb >= spec.TotalMb()
    ensures PlansOnEach(spec, nodes) == WholeModelOnEach(spec, nodes)
  {
    if nodes != [] {
      SoloPlan(spec, nodes[0]);
      PlansOnEachWhole(spec, nodes[1..]);
    }
  }

  lemma {:induction false} WholeModelOnEachIs(spec: ModelSpec, nodes: seq<NodeInfo>)
    ensures |WholeModelOnEach(spec, nodes)| == |nodes|
    ensures forall k :: 0 <= k < |nodes| ==> WholeModelOnEach(spec, nodes)[k] == WholeModelOn(spec, nodes[k])
  {
    if nodes != [] {
      WholeModelOnEachIs(spec, nodes[1..]);
    }
  }

  /**
   In the solo case the candidates are whole-model plans on exactly the online nodes with enough VRAM,
   none dropped, in sorted order turned by the counter.
   */
  lemma SoloCandidates(spec: ModelSpec, nodes: seq<NodeInfo>, stats: Stats, counter: nat)
    requires Plannable(spec) && Untruncated(spec, nodes) && SoloNodes(spec, nodes) != []
    ensures var s, c := SoloSequence(spec, nodes, stats, counter), Candidates(spec, nodes, stats, counter);
      && |c| == |s| == |SoloNodes(spec, nodes)|
      && (forall k :: 0 <= k < |c| ==> c[k] == WholeModelOn(spec, s[k]) && RunsAllOn(spec, c[k], s[k]))
      && (forall n :: n in s <==> n in nodes && n.status == Online && n.vramMb >= spec.TotalMb())
  {
    var s := SoloSequence(spec, nodes, stats, counter);
    SoloSequenceIs(spec, nodes, stats, counter);
    SoloNodesAre(spec, nodes);
    forall n ensures n in s <==> n in SoloNodes(spec, nodes) {
      assert n in s <==> n in multiset(s);
      assert n in SoloNodes(spec, nodes) <==> n in multiset(SoloNodes(spec, nodes));
    }
    PlansOnEachWhole(spec, s);
    WholeModelOnEachIs(spec, s);
  }

  // ----- The fallback plan

  /** The capacities handed to the planner by `build_plan`. */
  function PlannerInput(nodes: seq<NodeInfo>, stats: Stats): seq<NodeCapacity> {
    Keys(Capacity, StableSort(PlanOrder(stats), OnlineNodes(nodes)))
  }

  /** The planner's own stable sort leaves the (VRAM, latency) order as it is. */
  lemma SortsCompose(nodes: seq<NodeInfo>, stats: Stats)
    ensures SortByVram(PlannerInput(nodes, stats)) == PlannerInput(nodes, stats)
  {
    var s := StableSort(PlanOrder(stats), OnlineNodes(nodes));
    PlanOrderIsOrder(stats);
    SortCorrect(PlanOrder(stats), OnlineNodes(nodes));
    KeysAt(Capacity, s);
    LargerFirstIsOrder();
    var c := PlannerInput(nodes, stats);
    forall i, j | 0 <= i < j < |c| ensures LargerFirst(c[i], c[j]) {
      assert PlanOrder(stats)(s[i], s[j]);
    }
    SortIsUnique(LargerFirst, c, c);
  }

  lemma PlannerInputIs(nodes: seq<NodeInfo>, stats: Stats)
    ensures var s := StableSort(PlanOrder(stats), OnlineNodes(nodes));
      && |PlannerInput(nodes, stats)| == |s| == |OnlineNodes(nodes)|
      && (forall k :: 0 <= k < |s| ==> PlannerInput(nodes, stats)[k] == Capacity(s[k]))
      && (forall n :: n in s <==> n in nodes && n.status == Online)
  {
    var s := StableSort(PlanOrder(stats), OnlineNodes(nodes));
    PlanOrderIsOrder(stats);
    SortCorrect(PlanOrder(stats), OnlineNodes(nodes));
    KeysAt(Capacity, s);
    OnlineNodesAre(nodes);
    forall n ensures n in s <==> n in OnlineNodes(nodes) {
      assert n in s <==> n in multiset(s);
      assert n in OnlineNodes(nodes) <==> n in multiset(OnlineNodes(nodes));
    }
  }

  lemma PlannerInputFrom(nodes: seq<NodeInfo>, stats: Stats, c: NodeCapacity)
    requires c in PlannerInput(nodes, stats)
    ensures exists n :: n in nodes && n.status == Online && c == Capacity(n)
  {
    PlannerInputIs(nodes, stats);
    var k :| 0 <= k < |PlannerInput(nodes, stats)| && PlannerInput(nodes, stats)[k] == c;
    var s := StableSort(PlanOrder(stats), OnlineNodes(nodes));
    assert s[k] in s;
  }

  lemma PlannerInputUntruncated(spec: ModelSpec, nodes: seq<NodeInfo>, stats: Stats)
    requires spec.perLayerMb > 0 && Untruncated(spec, nodes)
    ensures NoTruncation(spec, PlannerInput(nodes, stats))
  {
    forall c | c in PlannerInput(nodes, stats) ensures c.vramMb / spec.perLayerMb < U32_LIMIT {
      PlannerInputFrom(nodes, stats, c);
    }
  }

  /**
   If the largest online node holds the context and one layer, the controller of the fallback plan is
   the fastest of the largest online nodes, the first registered of them if several tie.
   */
  lemma FallbackController(spec: ModelSpec, nodes: seq<NodeInfo>, stats: Stats) returns (controller: NodeInfo)
    requires Plannable(spec) && Untruncated(spec, nodes) && FallbackPlan(spec, nodes, stats).Some?
    requires MaxVram(PlannerInput(nodes, stats)) >= spec.contextMb + spec.perLayerMb
    ensures controller in nodes && controller.status == Online
    ensures forall n :: n in nodes && n.status == Online ==>
      n.vramMb < controller.vramMb
      || (n.vramMb == controller.vramMb && NoSlower(LatencyOf(stats, controller), LatencyOf(stats, n)))
    ensures var ties := Ties(PlanOrder(stats), controller, OnlineNodes(nodes)); ties != [] && ties[0] == controller
    ensures var s := StableSort(PlanOrder(stats), OnlineNodes(nodes)); s != [] && s[0] == controller
    ensures var plan := FallbackPlan(spec, nodes, stats).value;
      plan.assignments != [] && RunsOn(plan.assignments[0], Capacity(controller)) && PlacedOn(plan.assignments[0], controller)
  {
    var le, input := PlanOrder(stats), PlannerInput(nodes, stats);
    var s := StableSort(le, OnlineNodes(nodes));
    PlannerInputIs(nodes, stats);
    PlannerInputUntruncated(spec, nodes, stats);
    SortsCompose(nodes, stats);
    PlanIsValid(spec, input);
    ControllerHoldsContextIff(spec, input);
    assert input != [];
    controller := s[0];
    assert controller in s;
    PlanOrderIsOrder(stats);
    SortCorrect(le, OnlineNodes(nodes));
    HeadTies(le, s);
    forall n | n in nodes && n.status == Online ensures le(controller, n) {
      var i :| 0 <= i < |s| && s[i] == n;
      assert le(s[0], s[0]);
    }
    assert FitsOn(spec, Plan(spec, input).value.assignments[0], PlanNodes(spec, input)[0]);
  }

  /** A plan whose first shard runs on a node that was not skipped leaves room for the context there. */
  lemma FirstShardRoom(spec: ModelSpec, s: seq<NodeCapacity>)
    requires spec.perLayerMb > 0 && s != [] && spec.totalLayers > 0
    requires Usable(s[0].vramMb, spec.contextMb) >= spec.perLayerMb
    ensures var a := Assign(spec, s, 0, spec.contextMb).0;
      a != [] && a[0].vramRequiredMb + spec.contextMb <= s[0].vramMb
  {
    var layers := Min(LayerCapacity(spec, s[0].vramMb, spec.contextMb), spec.totalLayers);
    AssignmentFits(spec, s[0], 0, layers, spec.contextMb);
  }

  /** A plan of one shard is made only when the largest node fits the whole model. */
  lemma LoneShardFits(spec: ModelSpec, input: seq<NodeCapacity>)
    requires Plannable(spec) && SortByVram(input) == input
    requires Plan(spec, input).Ok? && |Plan(spec, input).value.assignments| == 1
    ensures input != [] && input[0].vramMb >= spec.TotalMb()
  {
    var a, used := Plan(spec, input).value.assignments, PlanNodes(spec, input);
    PlanIsValid(spec, input);
    assert a[1..] == [];
    assert a[0].layerStart == 0 && a[0].layerEnd == spec.totalLayers;
    assert FitsOn(spec, a[0], used[0]);
    UsedNodesFromInput(spec, input, 0, spec.contextMb);
    assert used[0] in used;
    if Usable(input[0].vramMb, spec.contextMb) >= spec.perLayerMb {
      FirstShardRoom(spec, input);
    } else {
      // Then the node used is smaller than the context and one layer, which no more than outweighs all layers.
      SortedNodes(input);
      MaxVramIs(input);
      Distribute(spec.totalLayers - 1, 1, spec.perLayerMb);
    }
  }

  /** When no online node fits the model alone, a fallback plan always spreads it over at least two nodes. */
  lemma FallbackIsSplit(spec: ModelSpec, nodes: seq<NodeInfo>, stats: Stats)
    requires Plannable(spec) && SoloNodes(spec, nodes) == [] && FallbackPlan(spec, nodes, stats).Some?
    ensures |FallbackPlan(spec, nodes, stats).value.assignments| >= 2
  {
    var input := PlannerInput(nodes, stats);
    PlanIsValid(spec, input);
    if |Plan(spec, input).value.assignments| == 1 {
      SortsCompose(nodes, stats);
      LoneShardFits(spec, input);
      PlannerInputFrom(nodes, stats, input[0]);
      SoloNodesAre(spec, nodes);
    }
  }

  // ----- When there is a candidate at all

  lemma LargeNodePlans(spec: ModelSpec, input: seq<NodeCapacity>, c: NodeCapacity)
    requires Plannable(spec) && NoTruncation(spec, input) && c in input && c.vramMb >= spec.TotalMb()
    ensures Plan(spec, input).Ok?
  {
    var s := SortByVram(input);
    SortedNodes(input);
    MaxVramIs(input);
    AmpleCapacity(spec, s[0].vramMb);
    TotalVramSorted(input);
    PlanOkIff(spec, input);
  }

  /**
   A request gets a candidate exactly when the online nodes, in whatever order, can be planned --
   a condition that depends on neither latencies nor the counter.
   */
  lemma ServableIff(spec: ModelSpec, nodes: seq<NodeInfo>, stats: Stats, counter: nat)
    requires Plannable(spec) && Untruncated(spec, nodes)
    ensures Candidates(spec, nodes, stats, counter) != [] <==> Plan(spec, Keys(Capacity, OnlineNodes(nodes))).Ok?
  {
    var online := OnlineNodes(nodes);
    PlannerInputUntruncated(spec, nodes, stats);
    PlanOrderIsOrder(stats);
    SortCorrect(PlanOrder(stats), online);
    CapacitiesPermute(StableSort(PlanOrder(stats), online), online);
    PlanOkInAnyOrder(spec, PlannerInput(nodes, stats), Keys(Capacity, online));
    if SoloNodes(spec, nodes) != [] {
      SoloCandidates(spec, nodes, stats, counter);
      SoloImpliesPlan(spec, nodes, stats);
    }
  }

  /** If some online node fits the model alone, planning over all online nodes succeeds as well. */
  lemma SoloImpliesPlan(spec: ModelSpec, nodes: seq<NodeInfo>, stats: Stats)
    requires Plannable(spec) && Untruncated(spec, nodes) && SoloNodes(spec, nodes) != []
    ensures Plan(spec, PlannerInput(nodes, stats)).Ok?
  {
    var n := SoloNodes(spec, nodes)[0];
    SoloNodesAre(spec, nodes);
    assert n in SoloNodes(spec, nodes);
    PlannerInputIs(nodes, stats);
    PlannerInputUntruncated(spec, nodes, stats);
    var s := StableSort(PlanOrder(stats), OnlineNodes(nodes));
    var k :| 0 <= k < |s| && s[k] == n;
    assert PlannerInput(nodes, stats)[k] == Capacity(n);
    LargeNodePlans(spec, PlannerInput(nodes, stats), Capacity(n));
  }

  lemma CapacitiesPermute(a: seq<NodeInfo>, b: seq<NodeInfo>)
    requires multiset(a) == multiset(b)
    ensures multiset(Keys(Capacity, a)) == multiset(Keys(Capacity, b))
  {
    KeysDrawn(Capacity, a, b);
    KeysDrawn(Capacity, b, a);
  }

  /** Every shard of every candidate runs on a registered node that is online. */
  lemma CandidatesRunOnOnlineNodes(spec: ModelSpec, nodes: seq<NodeInfo>, stats: Stats, counter: nat,
                                   plan: ShardPlan, a: ShardAssignment) returns (n: NodeInfo)
    requires Plannable(spec) && Untruncated(spec, nodes)
    requires plan in Candidates(spec, nodes, stats, counter) && a in plan.assignments
    ensures n in nodes && n.status == Online && RunsOn(a, Capacity(n)) && PlacedOn(a, n) && a.vramRequiredMb <= n.vramMb
  {
    if SoloNodes(spec, nodes) != [] {
      SoloCandidates(spec, nodes, stats, counter);
      var c, s := Candidates(spec, nodes, stats, counter), SoloSequence(spec, nodes, stats, counter);
      var k :| 0 <= k < |c| && c[k] == plan;
      n := s[k];
      assert n in s;
    } else {
      var input := PlannerInput(nodes, stats);
      PlanIsValid(spec, input);
      var i :| 0 <= i < |plan.assignments| && plan.assignments[i] == a;
      var used := PlanNodes(spec, input);
      assert FitsOn(spec, plan.assignments[i], used[i]);
      assert used[i] in multiset(used);
      assert used[i] in multiset(input);
      PlannerInputFrom(nodes, stats, used[i]);
      n :| n in nodes && n.status == Online && used[i] == Capacity(n);
    }
  }

  // ----- Failover

  lemma {:induction false} FailoverOkIff(execute: ShardPlan -> Result<string, string>, candidates: seq<ShardPlan>)
    ensures Failover(execute, candidates).Ok? <==> exists p :: p in candidates && execute(p).Ok?
  {
    if candidates != [] {
      FailoverOkIff(execute, candidates[1..]);
      assert candidates == [candidates[0]] + candidates[1..];
    }
  }

  /** The first success in order is returned; without one, the last candidate's error. */
  lemma {:induction false} FailoverIs(execute: ShardPlan -> Result<string, string>, candidates: seq<ShardPlan>, i: nat)
    requires i < |candidates|
    requires forall k :: 0 <= k < i ==> execute(candidates[k]).Err?
    requires execute(candidates[i]).Ok? || i == |candidates| - 1
    ensures Failover(execute, candidates) == execute(candidates[i])
  {
    if i > 0 {
      FailoverIs(execute, candidates[1..], i - 1);
    }
  }

  /** In the solo case execution succeeds if and only if some solo node does, whatever the counter and latencies. */
  lemma SoloFailover(spec: ModelSpec, nodes: seq<NodeInfo>, stats: Stats, counter: nat,
                     execute: ShardPlan -> Result<string, string>)
    requires Plannable(spec) && Untruncated(spec, nodes) && SoloNodes(spec, nodes) != []
    ensures Failover(execute, Candidates(spec, nodes, stats, counter)).Ok? <==>
      exists n :: n in nodes && n.status == Online && n.vramMb >= spec.TotalMb() && execute(WholeModelOn(spec, n)).Ok?
  {
    var c, s := Candidates(spec, nodes, stats, counter), SoloSequence(spec, nodes, stats, counter);
    SoloCandidates(spec, nodes, stats, counter);
    FailoverOkIff(execute, c);
    if exists p :: p in c && execute(p).Ok? {
      var p :| p in c && execute(p).Ok?;
      var k :| 0 <= k < |c| && c[k] == p;
      assert s[k] in s && execute(WholeModelOn(spec, s[k])).Ok?;
    }
    forall n | n in nodes && n.status == Online && n.vramMb >= spec.TotalMb() && execute(WholeModelOn(spec, n)).Ok?
      ensures exists p :: p in c && execute(p).Ok?
    {
      var k :| 0 <= k < |s| && s[k] == n;
      assert c[k] in c && execute(c[k]).Ok?;
    }
  }

  lemma {:induction false} AtLeastDrawn(nodes: seq<NodeInfo>, neededMb: nat)
    ensures multiset(AtLeast(nodes, neededMb)) <= multiset(nodes)
  {
    if nodes != [] {
      AtLeastDrawn(nodes[1..], neededMb);
      assert nodes == [nodes[0]] + nodes[1..];
    }
  }

  function NodeId(): NodeInfo -> string {
    (n: NodeInfo) => n.id
  }

  /** Of any two candidates, the first shards are on different nodes. */
  ghost predicate TriesNodesOnce(plans: seq<ShardPlan>) {
    && (forall i :: 0 <= i < |plans| ==> plans[i].assignments != [])
    && forall i, j :: 0 <= i < j < |plans| ==> plans[i].assignments[0].nodeId != plans[j].assignments[0].nodeId
  }

  lemma SoloTriedOnce(spec: ModelSpec, nodes: seq<NodeInfo>, stats: Stats, counter: nat)
    requires Plannable(spec) && Untruncated(spec, nodes) && SoloNodes(spec, nodes) != []
    requires Distinct(Keys(NodeId(), nodes))
    ensures TriesNodesOnce(Candidates(spec, nodes, stats, counter))
  {
    var s := SoloSequence(spec, nodes, stats, counter);
    SoloCandidates(spec, nodes, stats, counter);
    SoloSequenceIs(spec, nodes, stats, counter);
    OnlineNodesAre(nodes);
    AtLeastDrawn(OnlineNodes(nodes), spec.TotalMb());
    DrawnDistinct(NodeId(), s, nodes);
    KeysAt(NodeId(), s);
    forall i, j | 0 <= i < j < |s| ensures s[i].id != s[j].id {
      assert Keys(NodeId(), s)[i] != Keys(NodeId(), s)[j];
    }
  }

  /** With unique node ids, every candidate has a controller and no two have the same. */
  lemma TriedOnce(spec: ModelSpec, nodes: seq<NodeInfo>, stats: Stats, counter: nat)
    requires Plannable(spec) && Untruncated(spec, nodes) && Distinct(Keys(NodeId(), nodes))
    ensures TriesNodesOnce(Candidates(spec, nodes, stats, counter))
  {
    if SoloNodes(spec, nodes) != [] {
      SoloTriedOnce(spec, nodes, stats, counter);
    } else if FallbackPlan(spec, nodes, stats).Some? {
      PlanIsValid(spec, PlannerInput(nodes, stats));
    }
  }
}
