/**
 The shard forwarding chain.  Each agent finds its own place in the plan, runs inference, and hands the
 accumulated conversation to the next assignment, waiting for that reply before it sends its own.
 */
module ForwardChain {
  import opened Collections
  import opened NodeSums
  import opened Planner
  import opened PlannerTheorems
  import opened Prelude
  import opened Registry

  const BAD_GATEWAY := 502

  datatype Message = Message(role: string, content: string)

  datatype Request = Request(
    requestId: string, model: string, messages: seq<Message>, stream: bool,
    maxTokens: Option<nat>, temperature: Option<real>, topP: Option<real>)

  /** A backend's reply: the text at `/message/content`, if there is one, and everything else. */
  datatype Body = Body(content: Option<string>, other: string)

  datatype Response = Response(requestId: string, model: string, body: Body)

  datatype Failure = InferenceFailed(error: string) | NextUnreachable | NextReturned(status: nat) | NextUnparsable

  datatype Reply = Pending | Answered(response: Response) | Failed(failure: Failure)

  /** What the model does not decide: inference, and whether messages between agents get through. */
  datatype World = World(
    infer: (ShardAssignment, Request) -> Result<Body, string>,
    reaches: ShardAssignment -> bool,
    parses: Response -> bool)

  // ----- The handler

  function FindSelf(plan: seq<ShardAssignment>, host: string, agentPort: nat): Option<ShardAssignment> {
    if plan == [] then None
    else if plan[0].host == host || plan[0].agentPort == agentPort then Some(plan[0])
    else FindSelf(plan[1..], host, agentPort)
  }

  function Position(plan: seq<ShardAssignment>, nodeId: string): Option<nat> {
    if plan == [] then None
    else if plan[0].nodeId == nodeId then Some(0)
    else match Position(plan[1..], nodeId) case Some(i) => Some(i + 1) case None => None
  }

  /** Where an agent that goes by `host` and `agentPort` takes itself to be. */
  function ShardIndex(plan: seq<ShardAssignment>, host: string, agentPort: nat): nat {
    match FindSelf(plan, host, agentPort)
    case None => 0
    case Some(a) => match Position(plan, a.nodeId) case Some(i) => i case None => 0
  }

  function TextOf(body: Body): string {
    match body.content case Some(text) => text case None => ""
  }

  function NextRequest(req: Request, body: Body): Request {
    req.(messages := req.messages + [Message("assistant", TextOf(body))], stream := false)
  }

  /** What an agent makes of the reply it was waiting for. */
  function Relay(w: World, reply: Reply): Reply {
    match reply
    case Pending => Pending
    case Failed(_) => Failed(NextReturned(BAD_GATEWAY))
    case Answered(response) => if w.parses(response) then Answered(response) else Failed(NextUnparsable)
  }

  /** `forward` at the agent that `agent` addresses; `Pending` if it takes more than `fuel` nested calls. */
  function Forward(w: World, plan: seq<ShardAssignment>, agent: ShardAssignment, req: Request, fuel: nat): Reply
    decreases fuel
  {
    if fuel == 0 then Pending
    else
      var i := ShardIndex(plan, agent.host, agent.agentPort);
      match w.infer(agent, req)
      case Err(e) => Failed(InferenceFailed(e))
      case Ok(body) =>
        if i + 1 < |plan| then
          if !w.reaches(plan[i + 1]) then Failed(NextUnreachable)
          else Relay(w, Forward(w, plan, plan[i + 1], NextRequest(req, body), fuel - 1))
        else Answered(Response(req.requestId, req.model, body))
  }

  datatype Visit = Visit(agent: ShardAssignment, request: Request)

  /** The agents asked to run inference, with the request each of them received. */
  function Visits(w: World, plan: seq<ShardAssignment>, agent: ShardAssignment, req: Request, fuel: nat): seq<Visit>
    decreases fuel
  {
    if fuel == 0 then []
    else
      var i := ShardIndex(plan, agent.host, agent.agentPort);
      [Visit(agent, req)] +
      match w.infer(agent, req)
      case Err(_) => []
      case Ok(body) =>
        if i + 1 < |plan| && w.reaches(plan[i + 1]) then
          Visits(w, plan, plan[i + 1], NextRequest(req, body), fuel - 1)
        else []
  }

  // ----- Who an agent takes itself to be

  predicate Confusable(a: ShardAssignment, b: ShardAssignment) {
    a.host == b.host || a.agentPort == b.agentPort || a.nodeId == b.nodeId
  }

  /** No two assignments share a host, an agent port or a node id. */
  predicate WellAddressed(plan: seq<ShardAssignment>) {
    forall i, j :: 0 <= i < j < |plan| ==> !Confusable(plan[i], plan[j])
  }

  function IndexOf(plan: seq<ShardAssignment>, k: nat): nat
    requires k < |plan|
  {
    ShardIndex(plan, plan[k].host, plan[k].agentPort)
  }

  lemma {:induction false} FindSelfIs(plan: seq<ShardAssignment>, host: string, agentPort: nat, k: nat) returns (i: nat)
    requires k < |plan| && (plan[k].host == host || plan[k].agentPort == agentPort)
    ensures i <= k && FindSelf(plan, host, agentPort) == Some(plan[i])
    ensures plan[i].host == host || plan[i].agentPort == agentPort
    ensures forall j :: 0 <= j < i ==> plan[j].host != host && plan[j].agentPort != agentPort
  {
    if plan[0].host == host || plan[0].agentPort == agentPort {
      i := 0;
    } else {
      var r := FindSelfIs(plan[1..], host, agentPort, k - 1);
      i := r + 1;
      assert forall j :: 0 < j < i ==> plan[j] == plan[1..][j - 1];
    }
  }

  lemma {:induction false} PositionIs(plan: seq<ShardAssignment>, nodeId: string, k: nat) returns (i: nat)
    requires k < |plan| && plan[k].nodeId == nodeId
    ensures i <= k && Position(plan, nodeId) == Some(i) && plan[i].nodeId == nodeId
    ensures forall j :: 0 <= j < i ==> plan[j].nodeId != nodeId
  {
    if plan[0].nodeId == nodeId {
      i := 0;
    } else {
      var r := PositionIs(plan[1..], nodeId, k - 1);
      i := r + 1;
      assert forall j :: 0 < j < i ==> plan[j] == plan[1..][j - 1];
    }
  }

  /** An agent finds its own index, or an earlier one; its own exactly when no earlier agent can be mistaken for it. */
  lemma IndexIsOwnIff(plan: seq<ShardAssignment>, k: nat)
    requires k < |plan|
    ensures IndexOf(plan, k) <= k
    ensures IndexOf(plan, k) == k <==> forall j :: 0 <= j < k ==> !Confusable(plan[j], plan[k])
  {
    var i := FindSelfIs(plan, plan[k].host, plan[k].agentPort, k);
    var p := PositionIs(plan, plan[i].nodeId, i);
    if p < k {
      assert Confusable(plan[i], plan[k]) && (i == k ==> Confusable(plan[p], plan[k]));
    }
  }

  /** Every agent finds its own index. */
  predicate OwnsIndex(plan: seq<ShardAssignment>, k: nat)
    requires k < |plan|
  {
    IndexOf(plan, k) == k
  }

  ghost predicate AllOwn(plan: seq<ShardAssignment>) {
    forall k :: 0 <= k < |plan| ==> OwnsIndex(plan, k)
  }

  lemma OwnIndex(plan: seq<ShardAssignment>, k: nat)
    requires AllOwn(plan) && k < |plan|
    ensures IndexOf(plan, k) == k
  {
    assert OwnsIndex(plan, k);
  }

  lemma AllOwnIff(plan: seq<ShardAssignment>)
    ensures WellAddressed(plan) <==> AllOwn(plan)
  {
    forall k | 0 <= k < |plan|
      ensures OwnsIndex(plan, k) <==> forall j :: 0 <= j < k ==> !Confusable(plan[j], plan[k])
    {
      IndexIsOwnIff(plan, k);
    }
    if AllOwn(plan) {
      forall i, j | 0 <= i < j < |plan| ensures !Confusable(plan[i], plan[j]) {
        assert OwnsIndex(plan, j);
      }
    }
  }

  // ----- What a complete run looks like

  function BodyOf(w: World, agent: ShardAssignment, req: Request): Body {
    match w.infer(agent, req) case Ok(body) => body case Err(_) => Body(None, "")
  }

  /** The request that reaches assignment `k`. */
  function RequestAt(w: World, plan: seq<ShardAssignment>, req: Request, k: nat): Request
    requires k < |plan|
  {
    if k == 0 then req
    else
      var before := RequestAt(w, plan, req, k - 1);
      NextRequest(before, BodyOf(w, plan[k - 1], before))
  }

  function FinalResponse(w: World, plan: seq<ShardAssignment>, req: Request): Response
    requires plan != []
  {
    var last := RequestAt(w, plan, req, |plan| - 1);
    Response(last.requestId, last.model, BodyOf(w, plan[|plan| - 1], last))
  }

  /** Every assignment, in order, is reached and infers, from assignment `k` on. */
  ghost predicate StagesSucceed(w: World, plan: seq<ShardAssignment>, req: Request, k: nat) {
    && (forall i :: k <= i < |plan| ==> w.infer(plan[i], RequestAt(w, plan, req, i)).Ok?)
    && (forall i :: k < i < |plan| ==> w.reaches(plan[i]))
  }

  /** All stages succeed, and with several of them the answer is readable on its way back. */
  ghost predicate ChainSucceeds(w: World, plan: seq<ShardAssignment>, req: Request)
    requires plan != []
  {
    StagesSucceed(w, plan, req, 0) && (|plan| > 1 ==> w.parses(FinalResponse(w, plan, req)))
  }

  /** One stage of an orderly run. */
  lemma ForwardStep(w: World, plan: seq<ShardAssignment>, req: Request, k: nat, fuel: nat)
    requires k < |plan| && IndexOf(plan, k) == k && fuel > 0
    ensures var r := RequestAt(w, plan, req, k);
      Forward(w, plan, plan[k], r, fuel) ==
        match w.infer(plan[k], r)
        case Err(e) => Failed(InferenceFailed(e))
        case Ok(body) =>
          if k + 1 < |plan| then
            if !w.reaches(plan[k + 1]) then Failed(NextUnreachable)
            else Relay(w, Forward(w, plan, plan[k + 1], RequestAt(w, plan, req, k + 1), fuel - 1))
          else Answered(Response(r.requestId, r.model, body))
  {
  }

  /** The orderly run from stage `k` on ends, and answers exactly if all remaining stages succeed. */
  ghost predicate EndsWell(w: World, plan: seq<ShardAssignment>, req: Request, k: nat, reply: Reply)
    requires k < |plan|
  {
    && reply != Pending
    && (reply.Answered? <==>
          StagesSucceed(w, plan, req, k) && (k < |plan| - 1 ==> w.parses(FinalResponse(w, plan, req))))
    && (reply.Answered? ==> reply.response == FinalResponse(w, plan, req))
  }

  lemma RelayEndsWell(w: World, plan: seq<ShardAssignment>, req: Request, k: nat, reply: Reply)
    requires k + 1 < |plan| && EndsWell(w, plan, req, k + 1, reply)
    requires w.infer(plan[k], RequestAt(w, plan, req, k)).Ok? && w.reaches(plan[k + 1])
    ensures EndsWell(w, plan, req, k, Relay(w, reply))
  {
    StagesFrom(w, plan, req, k);
  }

  lemma LastStageEndsWell(w: World, plan: seq<ShardAssignment>, req: Request, fuel: nat)
    requires plan != [] && IndexOf(plan, |plan| - 1) == |plan| - 1 && fuel > 0
    ensures var k := |plan| - 1;
      EndsWell(w, plan, req, k, Forward(w, plan, plan[k], RequestAt(w, plan, req, k), fuel))
  {
    ForwardStep(w, plan, req, |plan| - 1, fuel);
  }

  lemma StageEndsWell(w: World, plan: seq<ShardAssignment>, req: Request, k: nat, fuel: nat)
    requires k + 1 < |plan| && IndexOf(plan, k) == k && fuel > 0
    requires EndsWell(w, plan, req, k + 1, Forward(w, plan, plan[k + 1], RequestAt(w, plan, req, k + 1), fuel - 1))
    ensures EndsWell(w, plan, req, k, Forward(w, plan, plan[k], RequestAt(w, plan, req, k), fuel))
  {
    ForwardStep(w, plan, req, k, fuel);
    StagesFrom(w, plan, req, k);
    if w.infer(plan[k], RequestAt(w, plan, req, k)).Ok? && w.reaches(plan[k + 1]) {
      RelayEndsWell(w, plan, req, k, Forward(w, plan, plan[k + 1], RequestAt(w, plan, req, k + 1), fuel - 1));
    }
  }

  lemma {:induction false} RunsDown(w: World, plan: seq<ShardAssignment>, req: Request, k: nat, fuel: nat)
    requires AllOwn(plan) && k < |plan| && fuel >= |plan| - k
    ensures EndsWell(w, plan, req, k, Forward(w, plan, plan[k], RequestAt(w, plan, req, k), fuel))
    decreases |plan| - k
  {
    OwnIndex(plan, k);
    if k + 1 < |plan| {
      RunsDown(w, plan, req, k + 1, fuel - 1);
      StageEndsWell(w, plan, req, k, fuel);
    } else {
      LastStageEndsWell(w, plan, req, fuel);
    }
  }

  lemma StagesFrom(w: World, plan: seq<ShardAssignment>, req: Request, k: nat)
    requires k + 1 < |plan|
    ensures StagesSucceed(w, plan, req, k) <==>
      w.infer(plan[k], RequestAt(w, plan, req, k)).Ok? && w.reaches(plan[k + 1]) && StagesSucceed(w, plan, req, k + 1)
  {
  }

  // ----- What goes wrong otherwise

  /** From any agent up to a confused one `k`, the chain comes back to an agent up to `k`. */
  lemma {:induction false} NeverAnswers(w: World, plan: seq<ShardAssignment>, req: Request, k: nat, a: nat, fuel: nat)
    requires k < |plan| && IndexOf(plan, k) < k && a <= k
    requires forall j :: 0 <= j < k ==> IndexOf(plan, j) == j
    ensures !Forward(w, plan, plan[a], req, fuel).Answered?
    ensures (forall x, r :: w.infer(x, r).Ok?) && (forall x :: w.reaches(x)) ==>
      Forward(w, plan, plan[a], req, fuel) == Pending
    decreases fuel
  {
    if fuel > 0 {
      var i := IndexOf(plan, a);
      assert i + 1 <= k;
      match w.infer(plan[a], req)
      case Err(_) =>
      case Ok(body) => NeverAnswers(w, plan, NextRequest(req, body), k, i + 1, fuel - 1);
    }
  }

  lemma {:induction false} FirstConfused(plan: seq<ShardAssignment>, n: nat) returns (k: nat)
    requires n <= |plan| && exists j :: 0 <= j < n && IndexOf(plan, j) != j
    ensures k < n && IndexOf(plan, k) < k && forall j :: 0 <= j < k ==> IndexOf(plan, j) == j
  {
    if exists j :: 0 <= j < n - 1 && IndexOf(plan, j) != j {
      k := FirstConfused(plan, n - 1);
    } else {
      k := n - 1;
      IndexIsOwnIff(plan, k);
    }
  }

  // ----- Main results

  /**
   The gateway's call to assignment 0 is answered, given enough time, exactly when no two assignments share
   a host, an agent port or a node id and every stage succeeds; the answer is then the last stage's, under the
   request id and model of the original request.
   */
  lemma ChainAnswersIff(w: World, plan: seq<ShardAssignment>, req: Request)
    requires plan != []
    ensures (exists fuel: nat :: Forward(w, plan, plan[0], req, fuel).Answered?) <==>
      WellAddressed(plan) && ChainSucceeds(w, plan, req)
    ensures forall fuel: nat :: var reply := Forward(w, plan, plan[0], req, fuel);
      reply.Answered? ==>
        && reply.response == FinalResponse(w, plan, req)
        && reply.response.requestId == req.requestId && reply.response.model == req.model
  {
    RequestIs(w, plan, req, |plan| - 1);
    if WellAddressed(plan) {
      OrderlyReply(w, plan, req, |plan|);
      if ChainSucceeds(w, plan, req) {
        assert Forward(w, plan, plan[0], req, |plan|).Answered?;
      }
      forall fuel: nat ensures AnsweredInFull(w, plan, req, Forward(w, plan, plan[0], req, fuel)) {
        OrderlyReply(w, plan, req, fuel);
      }
    } else {
      forall fuel: nat ensures !Forward(w, plan, plan[0], req, fuel).Answered? {
        ConfusedNeverAnswers(w, plan, req, fuel);
      }
    }
  }

  /** If `reply` is an answer at all, all stages succeeded and it is the last one's. */
  ghost predicate AnsweredInFull(w: World, plan: seq<ShardAssignment>, req: Request, reply: Reply)
    requires plan != []
  {
    reply.Answered? ==> ChainSucceeds(w, plan, req) && reply.response == FinalResponse(w, plan, req)
  }

  lemma OrderlyReply(w: World, plan: seq<ShardAssignment>, req: Request, fuel: nat)
    requires plan != [] && WellAddressed(plan)
    ensures var reply := Forward(w, plan, plan[0], req, fuel);
      && (fuel >= |plan| ==> reply != Pending && (reply.Answered? <==> ChainSucceeds(w, plan, req)))
      && AnsweredInFull(w, plan, req, reply)
  {
    AllOwnIff(plan);
    if fuel >= |plan| {
      FullRun(w, plan, req, fuel);
    } else if Forward(w, plan, plan[0], req, fuel) != Pending {
      MoreFuel(w, plan, plan[0], req, fuel, |plan|);
      FullRun(w, plan, req, |plan|);
    }
  }

  lemma FullRun(w: World, plan: seq<ShardAssignment>, req: Request, fuel: nat)
    requires plan != [] && AllOwn(plan) && fuel >= |plan|
    ensures var reply := Forward(w, plan, plan[0], req, fuel);
      && reply != Pending && (reply.Answered? <==> ChainSucceeds(w, plan, req))
      && AnsweredInFull(w, plan, req, reply)
  {
    RunsDown(w, plan, req, 0, fuel);
    assert RequestAt(w, plan, req, 0) == req;
  }

  lemma ConfusedNeverAnswers(w: World, plan: seq<ShardAssignment>, req: Request, fuel: nat)
    requires plan != [] && !WellAddressed(plan)
    ensures !Forward(w, plan, plan[0], req, fuel).Answered?
    ensures (forall x, r :: w.infer(x, r).Ok?) && (forall x :: w.reaches(x)) ==>
      Forward(w, plan, plan[0], req, fuel) == Pending
  {
    AllOwnIff(plan);
    var k := FirstConfused(plan, |plan|);
    NeverAnswers(w, plan, req, k, 0, fuel);
  }

  lemma {:induction false} MoreFuel(w: World, plan: seq<ShardAssignment>, agent: ShardAssignment, req: Request, fuel: nat, more: nat)
    requires fuel <= more && Forward(w, plan, agent, req, fuel) != Pending
    ensures Forward(w, plan, agent, req, more) == Forward(w, plan, agent, req, fuel)
    decreases fuel
  {
    var i := ShardIndex(plan, agent.host, agent.agentPort);
    if i + 1 < |plan| && w.reaches(plan[i + 1]) {
      match w.infer(agent, req)
      case Err(_) =>
      case Ok(body) => MoreFuel(w, plan, plan[i + 1], NextRequest(req, body), fuel - 1, more - 1);
    }
  }

  /** If no stage ever fails, the chain comes to an end exactly when no two assignments can be confused. */
  lemma ChainEndsIff(w: World, plan: seq<ShardAssignment>, req: Request)
    requires plan != []
    requires (forall x, r :: w.infer(x, r).Ok?) && (forall x :: w.reaches(x))
    ensures (exists fuel: nat :: Forward(w, plan, plan[0], req, fuel) != Pending) <==> WellAddressed(plan)
  {
    if WellAddressed(plan) {
      OrderlyReply(w, plan, req, |plan|);
      assert Forward(w, plan, plan[0], req, |plan|) != Pending;
    } else {
      forall fuel: nat ensures Forward(w, plan, plan[0], req, fuel) == Pending {
        ConfusedNeverAnswers(w, plan, req, fuel);
      }
    }
  }

  function AssistantTurns(w: World, plan: seq<ShardAssignment>, req: Request, k: nat): seq<Message>
    requires k < |plan|
  {
    seq(k, i requires 0 <= i < k =>
      Message("assistant", TextOf(BodyOf(w, plan[i], RequestAt(w, plan, req, i)))))
  }

  /** The text of an inference result, or nothing if it has none. */
  predicate HandsOn(body: Body, turn: Message) {
    turn.role == "assistant" &&
    match body.content
    case Some(text) => turn.content == text
    case None => turn.content == ""
  }

  /** There is one turn per stage before `k`, and each hands on what that stage inferred. */
  lemma TurnsAre(w: World, plan: seq<ShardAssignment>, req: Request, k: nat)
    requires k < |plan|
    ensures |AssistantTurns(w, plan, req, k)| == k
    ensures forall i :: 0 <= i < k && w.infer(plan[i], RequestAt(w, plan, req, i)).Ok? ==>
      HandsOn(w.infer(plan[i], RequestAt(w, plan, req, i)).value, AssistantTurns(w, plan, req, k)[i])
  {
  }

  lemma {:induction false} RequestTurns(w: World, plan: seq<ShardAssignment>, req: Request, k: nat)
    requires k < |plan|
    ensures RequestAt(w, plan, req, k) ==
      req.(messages := req.messages + AssistantTurns(w, plan, req, k), stream := k == 0 && req.stream)
  {
    if k == 0 {
      assert req.messages + AssistantTurns(w, plan, req, 0) == req.messages;
    } else {
      RequestTurns(w, plan, req, k - 1);
      var turn := Message("assistant", TextOf(BodyOf(w, plan[k - 1], RequestAt(w, plan, req, k - 1))));
      assert AssistantTurns(w, plan, req, k) == AssistantTurns(w, plan, req, k - 1) + [turn];
      assert req.messages + AssistantTurns(w, plan, req, k) ==
        (req.messages + AssistantTurns(w, plan, req, k - 1)) + [turn];
    }
  }

  /**
   Assignment `k` receives the original request with exactly one assistant turn added per stage before it, which hands on
   what that stage inferred.
   */
  lemma RequestIs(w: World, plan: seq<ShardAssignment>, req: Request, k: nat)
    requires k < |plan|
    ensures RequestAt(w, plan, req, k) ==
      req.(messages := req.messages + AssistantTurns(w, plan, req, k), stream := k == 0 && req.stream)
    ensures |AssistantTurns(w, plan, req, k)| == k
    ensures forall i :: 0 <= i < k && w.infer(plan[i], RequestAt(w, plan, req, i)).Ok? ==>
      HandsOn(w.infer(plan[i], RequestAt(w, plan, req, i)).value, AssistantTurns(w, plan, req, k)[i])
  {
    RequestTurns(w, plan, req, k);
    TurnsAre(w, plan, req, k);
  }

  /** The visits of a complete run: every assignment from `k` on, in layer order. */
  function OrderlyVisits(w: World, plan: seq<ShardAssignment>, req: Request, k: nat): seq<Visit>
    requires k <= |plan|
    decreases |plan| - k
  {
    if k == |plan| then []
    else [Visit(plan[k], RequestAt(w, plan, req, k))] + OrderlyVisits(w, plan, req, k + 1)
  }

  lemma {:induction false} OrderlyVisitsAre(w: World, plan: seq<ShardAssignment>, req: Request, k: nat)
    requires k <= |plan|
    ensures var v := OrderlyVisits(w, plan, req, k);
      && |v| == |plan| - k
      && forall i :: 0 <= i < |v| ==> v[i] == Visit(plan[k + i], RequestAt(w, plan, req, k + i))
    decreases |plan| - k
  {
    if k < |plan| {
      OrderlyVisitsAre(w, plan, req, k + 1);
    }
  }

  lemma {:induction false} RunVisits(w: World, plan: seq<ShardAssignment>, req: Request, k: nat, fuel: nat)
    requires AllOwn(plan) && k < |plan| && fuel >= |plan| - k && StagesSucceed(w, plan, req, k)
    ensures Visits(w, plan, plan[k], RequestAt(w, plan, req, k), fuel) == OrderlyVisits(w, plan, req, k)
    decreases |plan| - k
  {
    OwnIndex(plan, k);
    if k + 1 < |plan| {
      StagesFrom(w, plan, req, k);
      RunVisits(w, plan, req, k + 1, fuel - 1);
    } else {
      assert OrderlyVisits(w, plan, req, k + 1) == [];
    }
  }

  /** A run whose stages all succeed visits every assignment exactly once, in layer order. */
  lemma VisitsEachOnce(w: World, plan: seq<ShardAssignment>, req: Request, fuel: nat)
    requires plan != [] && WellAddressed(plan) && fuel >= |plan| && StagesSucceed(w, plan, req, 0)
    ensures var v := Visits(w, plan, plan[0], req, fuel);
      && |v| == |plan|
      && forall i :: 0 <= i < |v| ==> v[i] == Visit(plan[i], RequestAt(w, plan, req, i))
  {
    AllOwnIff(plan);
    RunVisits(w, plan, req, 0, fuel);
    OrderlyVisitsAre(w, plan, req, 0);
  }

  // ----- What agents hand on

  /** The second request is the first with the result of its inference added as one turn, and is not streamed. */
  predicate Continues(w: World, first: Visit, second: Visit) {
    var r, q := first.request, second.request;
    && w.infer(first.agent, r).Ok?
    && |q.messages| == |r.messages| + 1 && q.messages[..|r.messages|] == r.messages
    && HandsOn(w.infer(first.agent, r).value, q.messages[|r.messages|])
    && q.requestId == r.requestId && q.model == r.model && !q.stream
    && q.maxTokens == r.maxTokens && q.temperature == r.temperature && q.topP == r.topP
  }

  lemma NextContinues(w: World, agent: ShardAssignment, req: Request, next: ShardAssignment)
    requires w.infer(agent, req).Ok?
    ensures Continues(w, Visit(agent, req), Visit(next, NextRequest(req, w.infer(agent, req).value)))
  {
  }

  /** Each agent reached is in the plan and continues the one before. */
  ghost predicate ContinueEach(w: World, plan: seq<ShardAssignment>, v: seq<Visit>) {
    forall i, j :: 0 <= i < |v| && j == i + 1 && j < |v| ==> Continues(w, v[i], v[j]) && v[j].agent in plan
  }

  lemma ContinueOneMore(w: World, plan: seq<ShardAssignment>, first: Visit, rest: seq<Visit>)
    requires ContinueEach(w, plan, rest) && (rest != [] ==> Continues(w, first, rest[0]) && rest[0].agent in plan)
    ensures ContinueEach(w, plan, [first] + rest)
  {
    var v := [first] + rest;
    forall i, j | 0 <= i < |v| && j == i + 1 && j < |v| ensures Continues(w, v[i], v[j]) && v[j].agent in plan {
      if i > 0 {
        assert v[i] == rest[i - 1] && v[j] == rest[j - 1];
      }
    }
  }

  /** The chain begins with the given request at the given agent, and each agent reached continues the one before. */
  lemma {:induction false} VisitsContinue(w: World, plan: seq<ShardAssignment>, agent: ShardAssignment, req: Request, fuel: nat)
    requires fuel > 0
    ensures var v := Visits(w, plan, agent, req, fuel);
      v != [] && v[0] == Visit(agent, req) && ContinueEach(w, plan, v)
    decreases fuel
  {
    var i := ShardIndex(plan, agent.host, agent.agentPort);
    if w.infer(agent, req).Ok? && i + 1 < |plan| && w.reaches(plan[i + 1]) && fuel > 1 {
      var next := NextRequest(req, w.infer(agent, req).value);
      VisitsContinue(w, plan, plan[i + 1], next, fuel - 1);
      NextContinues(w, agent, req, plan[i + 1]);
      ContinueOneMore(w, plan, Visit(agent, req), Visits(w, plan, plan[i + 1], next, fuel - 1));
    }
  }

  /** An answer is what the last agent reached inferred from the request it received. */
  lemma {:induction false} AnswerIsLast(w: World, plan: seq<ShardAssignment>, agent: ShardAssignment, req: Request, fuel: nat)
    requires Forward(w, plan, agent, req, fuel).Answered?
    ensures var v, response := Visits(w, plan, agent, req, fuel), Forward(w, plan, agent, req, fuel).response;
      && v != [] && w.infer(v[|v| - 1].agent, v[|v| - 1].request) == Ok(response.body)
      && response.requestId == req.requestId && response.model == req.model
    decreases fuel
  {
    var i := ShardIndex(plan, agent.host, agent.agentPort);
    if i + 1 < |plan| {
      AnswerIsLast(w, plan, plan[i + 1], NextRequest(req, w.infer(agent, req).value), fuel - 1);
    }
  }

  // ----- How a chain fails

  /** The first stage from `k` on that does not succeed is `i`: its agent is not reached, or its inference fails. */
  ghost predicate FailsAt(w: World, plan: seq<ShardAssignment>, req: Request, k: nat, i: nat) {
    && k <= i < |plan|
    && (forall j :: k <= j < i ==> w.infer(plan[j], RequestAt(w, plan, req, j)).Ok?)
    && (forall j :: k < j < i ==> w.reaches(plan[j]))
    && ((i > k && !w.reaches(plan[i])) || w.infer(plan[i], RequestAt(w, plan, req, i)).Err?)
  }

  lemma FailsLater(w: World, plan: seq<ShardAssignment>, req: Request, k: nat, i: nat)
    requires FailsAt(w, plan, req, k, i) && (i > k + 1 || (i == k + 1 && w.reaches(plan[i])))
    ensures FailsAt(w, plan, req, k + 1, i) && FailureSeen(w, plan, req, k, i) == NextReturned(502)
    ensures w.infer(plan[k], RequestAt(w, plan, req, k)).Ok? && w.reaches(plan[k + 1])
  {
  }

  /** What the agent at `k` makes of the first failure, at `i`. */
  function FailureSeen(w: World, plan: seq<ShardAssignment>, req: Request, k: nat, i: nat): Failure
    requires k <= i < |plan| && (i == k ==> w.infer(plan[i], RequestAt(w, plan, req, i)).Err?)
  {
    if i == k then InferenceFailed(w.infer(plan[i], RequestAt(w, plan, req, i)).error)
    else if i == k + 1 && !w.reaches(plan[i]) then NextUnreachable
    else NextReturned(502)
  }

  lemma FailsHere(w: World, plan: seq<ShardAssignment>, req: Request, k: nat, i: nat, fuel: nat)
    requires FailsAt(w, plan, req, k, i) && IndexOf(plan, k) == k && fuel > 0
    requires i == k || (i == k + 1 && !w.reaches(plan[i]))
    ensures Forward(w, plan, plan[k], RequestAt(w, plan, req, k), fuel) == Failed(FailureSeen(w, plan, req, k, i))
  {
    ForwardStep(w, plan, req, k, fuel);
  }

  lemma FailsBehind(w: World, plan: seq<ShardAssignment>, req: Request, k: nat, fuel: nat, failure: Failure)
    requires k + 1 < |plan| && IndexOf(plan, k) == k && fuel > 0
    requires w.infer(plan[k], RequestAt(w, plan, req, k)).Ok? && w.reaches(plan[k + 1])
    requires Forward(w, plan, plan[k + 1], RequestAt(w, plan, req, k + 1), fuel - 1) == Failed(failure)
    ensures Forward(w, plan, plan[k], RequestAt(w, plan, req, k), fuel) == Failed(NextReturned(502))
  {
    ForwardStep(w, plan, req, k, fuel);
  }

  /** Only the agent next to the failure knows what it was; to all before it, the next agent returned status 502. */
  lemma {:induction false} FailureIs(w: World, plan: seq<ShardAssignment>, req: Request, k: nat, i: nat, fuel: nat)
    requires AllOwn(plan) && FailsAt(w, plan, req, k, i) && fuel >= |plan| - k
    ensures Forward(w, plan, plan[k], RequestAt(w, plan, req, k), fuel) == Failed(FailureSeen(w, plan, req, k, i))
    decreases |plan| - k
  {
    OwnIndex(plan, k);
    if i > k + 1 || (i == k + 1 && w.reaches(plan[i])) {
      FailsLater(w, plan, req, k, i);
      FailureIs(w, plan, req, k + 1, i, fuel - 1);
      FailsBehind(w, plan, req, k, fuel, FailureSeen(w, plan, req, k + 1, i));
    } else {
      FailsHere(w, plan, req, k, i, fuel);
    }
  }

  // ----- Plans made by the planner

  function IdOf(): NodeCapacity -> string { (n: NodeCapacity) => n.nodeId }
  function HostOf(): NodeCapacity -> string { (n: NodeCapacity) => n.host }
  function AgentPortOf(): NodeCapacity -> nat { (n: NodeCapacity) => n.agentPort }

  /** A plan over nodes with distinct ids, hosts and agent ports forwards without confusion. */
  lemma PlannedChainIsWellAddressed(spec: ModelSpec, nodes: seq<NodeCapacity>)
    requires spec.perLayerMb > 0 && Plan(spec, nodes).Ok?
    requires Distinct(Keys(IdOf(), nodes)) && Distinct(Keys(HostOf(), nodes)) && Distinct(Keys(AgentPortOf(), nodes))
    ensures WellAddressed(Plan(spec, nodes).value.assignments)
  {
    var a, used := Plan(spec, nodes).value.assignments, PlanNodes(spec, nodes);
    PlanIsValid(spec, nodes);
    PlanKeepsDistinct(spec, nodes, IdOf());
    PlanKeepsDistinct(spec, nodes, HostOf());
    PlanKeepsDistinct(spec, nodes, AgentPortOf());
    KeysAt(IdOf(), used);
    KeysAt(HostOf(), used);
    KeysAt(AgentPortOf(), used);
    forall i, j | 0 <= i < j < |a| ensures !Confusable(a[i], a[j]) {
      assert FitsOn(spec, a[i], used[i]) && FitsOn(spec, a[j], used[j]);
      assert Keys(IdOf(), used)[i] != Keys(IdOf(), used)[j];
      assert Keys(HostOf(), used)[i] != Keys(HostOf(), used)[j];
      assert Keys(AgentPortOf(), used)[i] != Keys(AgentPortOf(), used)[j];
    }
  }

  /** Agents on one common port, such as the default one, never answer a request that spans two of them. */
  lemma CommonPortNeverAnswers(w: World, plan: seq<ShardAssignment>, req: Request, fuel: nat)
    requires |plan| >= 2 && plan[0].agentPort == plan[1].agentPort
    ensures !Forward(w, plan, plan[0], req, fuel).Answered?
  {
    assert Confusable(plan[0], plan[1]);
    ConfusedNeverAnswers(w, plan, req, fuel);
  }
}
