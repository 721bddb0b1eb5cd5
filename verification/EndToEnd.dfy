/** From the candidates to the answer: failover over candidates that are executed on a node or along a chain of agents. */
module EndToEnd {
  import opened Coordinator
  import opened CoordinatorTheorems
  import opened ForwardChain
  import opened Nodes
  import opened Planner
  import opened PlannerTheorems
  import opened Prelude
  import opened Registry

  /** The world of the agents, what a node answers when it is asked directly, and how the gateway renders a reply. */
  datatype Net = Net(world: World, direct: ShardAssignment -> Result<string, string>, render: Response -> string)

  /** What the gateway makes of the first agent's reply; one that is still pending is given up. */
  function Received(net: Net, reply: Reply): Result<string, string> {
    match reply
    case Pending => Err("failed to reach controller")
    case Failed(_) => Err("controller returned an error")
    case Answered(response) =>
      if net.world.parses(response) then Ok(net.render(response)) else Err("failed to parse shard response from controller")
  }

  /** `execute`, given up after `fuel` nested calls between agents. */
  function Execute(net: Net, req: Request, fuel: nat): ShardPlan -> Result<string, string> {
    (plan: ShardPlan) =>
      if plan.assignments == [] then Err("no assignments")
      else if |plan.assignments| == 1 then net.direct(plan.assignments[0])
      else if !net.world.reaches(plan.assignments[0]) then Err("failed to reach controller")
      else Received(net, Forward(net.world, plan.assignments, plan.assignments[0], req, fuel))
  }

  /** Everything that has to go right along a split plan. */
  ghost predicate ChainDelivers(net: Net, plan: seq<ShardAssignment>, req: Request)
    requires plan != []
  {
    && WellAddressed(plan) && net.world.reaches(plan[0])
    && ChainSucceeds(net.world, plan, req) && net.world.parses(FinalResponse(net.world, plan, req))
  }

  lemma SplitPlanIff(net: Net, plan: ShardPlan, req: Request)
    requires |plan.assignments| >= 2
    ensures (exists fuel: nat :: Execute(net, req, fuel)(plan).Ok?) <==> ChainDelivers(net, plan.assignments, req)
    ensures forall fuel: nat :: Execute(net, req, fuel)(plan).Ok? ==>
      Execute(net, req, fuel)(plan) == Ok(net.render(FinalResponse(net.world, plan.assignments, req)))
  {
    var a, w := plan.assignments, net.world;
    ChainAnswersIff(w, a, req);
    forall fuel: nat | Execute(net, req, fuel)(plan).Ok?
      ensures Forward(w, a, a[0], req, fuel).Answered?
      ensures ChainDelivers(net, a, req)
      ensures Execute(net, req, fuel)(plan) == Ok(net.render(FinalResponse(w, a, req)))
    {
      assert Forward(w, a, a[0], req, fuel).Answered?;
    }
    if ChainDelivers(net, a, req) {
      var fuel: nat :| Forward(w, a, a[0], req, fuel).Answered?;
      assert Execute(net, req, fuel)(plan).Ok?;
    }
  }

  /**
   When no node can serve alone, a request succeeds, given enough time, exactly when there is a fallback plan whose
   assignments share no host, agent port or node id and whose every stage succeeds; its answer is the last stage's.
   */
  lemma SplitRequestIff(spec: ModelSpec, nodes: seq<NodeInfo>, stats: Stats, counter: nat, net: Net, req: Request)
    requires Plannable(spec) && SoloNodes(spec, nodes) == []
    ensures (exists fuel: nat :: Failover(Execute(net, req, fuel), Candidates(spec, nodes, stats, counter)).Ok?) <==>
      && FallbackPlan(spec, nodes, stats).Some?
      && FallbackPlan(spec, nodes, stats).value.assignments != []
      && ChainDelivers(net, FallbackPlan(spec, nodes, stats).value.assignments, req)
    ensures forall fuel: nat :: var r := Failover(Execute(net, req, fuel), Candidates(spec, nodes, stats, counter));
      r.Ok? ==>
        && FallbackPlan(spec, nodes, stats).Some?
        && var a := FallbackPlan(spec, nodes, stats).value.assignments;
           a != [] && r.value == net.render(FinalResponse(net.world, a, req))
  {
    if FallbackPlan(spec, nodes, stats).Some? {
      var plan := FallbackPlan(spec, nodes, stats).value;
      FallbackIsSplit(spec, nodes, stats);
      SplitPlanIff(net, plan, req);
      assert forall fuel: nat ::
        Failover(Execute(net, req, fuel), Candidates(spec, nodes, stats, counter)) == Execute(net, req, fuel)(plan);
    }
  }

  /** When some node can serve alone, a request succeeds exactly when one of those nodes does, asked directly. */
  lemma SoloRequestIff(spec: ModelSpec, nodes: seq<NodeInfo>, stats: Stats, counter: nat, net: Net, req: Request, fuel: nat)
    requires Plannable(spec) && Untruncated(spec, nodes) && (exists n :: n in nodes && CanServe(spec, n))
    ensures Failover(Execute(net, req, fuel), Candidates(spec, nodes, stats, counter)).Ok? <==>
      exists n, a :: n in nodes && CanServe(spec, n) && PlacedOn(a, n) && net.direct(a).Ok? && a == WholeModelOn(spec, n).assignments[0]
  {
    SoloNodesAre(spec, nodes);
    var n :| n in nodes && CanServe(spec, n);
    assert n in SoloNodes(spec, nodes);
    SoloFailover(spec, nodes, stats, counter, Execute(net, req, fuel));
    forall n ensures Execute(net, req, fuel)(WholeModelOn(spec, n)) == net.direct(WholeModelOn(spec, n).assignments[0]) {
    }
    forall n ensures PlacedOn(WholeModelOn(spec, n).assignments[0], n) {
    }
  }

  /** If no node can serve alone and all online nodes share one agent port, such as the default one, no request succeeds. */
  lemma SharedPortFails(spec: ModelSpec, nodes: seq<NodeInfo>, stats: Stats, counter: nat, net: Net, req: Request,
                        port: nat, fuel: nat)
    requires Plannable(spec) && SoloNodes(spec, nodes) == []
    requires forall n :: n in nodes && n.status == Online ==> n.agentPort == port
    ensures Failover(Execute(net, req, fuel), Candidates(spec, nodes, stats, counter)).Err?
  {
    if FallbackPlan(spec, nodes, stats).Some? {
      var a := FallbackPlan(spec, nodes, stats).value.assignments;
      FallbackIsSplit(spec, nodes, stats);
      FallbackPorts(spec, nodes, stats, port);
      CommonPortNeverAnswers(net.world, a, req, fuel);
    }
  }

  lemma FallbackPorts(spec: ModelSpec, nodes: seq<NodeInfo>, stats: Stats, port: nat)
    requires Plannable(spec) && FallbackPlan(spec, nodes, stats).Some?
    requires forall n :: n in nodes && n.status == Online ==> n.agentPort == port
    ensures forall a :: a in FallbackPlan(spec, nodes, stats).value.assignments ==> a.agentPort == port
  {
    var input := PlannerInput(nodes, stats);
    var assignments, used := FallbackPlan(spec, nodes, stats).value.assignments, PlanNodes(spec, input);
    PlanIsValid(spec, input);
    forall a | a in assignments ensures a.agentPort == port {
      var i :| 0 <= i < |assignments| && assignments[i] == a;
      assert FitsOn(spec, a, used[i]);
      assert used[i] in multiset(used) && used[i] in multiset(input);
      PlannerInputFrom(nodes, stats, used[i]);
    }
  }
}
