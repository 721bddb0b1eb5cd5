# Verification of the inference scheduler and its accounting

This project models how the gateway and the node agents decide where a request runs and what is charged for it,
and proves what those parts promise.  It covers the greedy shard planner and the coordinator that turns plans into
an ordered list of candidates, the chain of agents that forwards a request from shard to shard, the re-framing of a
backend's stream into events, the per-minute rate limiter, the hourly usage meter, the nightly payout, and the life of
nodes between registration, probing, heartbeats and the stale sweep.

`dafny verify dfyconfig.toml` checks everything.

## How it is organised

Code that changes state step by step is modelled by methods over the same fields (`Planner.PlanShards`,
`Coordinator.ShardCoordinator`, `Stream.StreamResponse`, `RateLimit.RateLimiter`, `Metering.MeterReporter`,
`Payout.PayoutProcessor`, `PayoutLoop.PayoutClock`, `Lifecycle.Gateway`, `Heartbeat.Agent`).  Each method is proved
equal to a specification function, and the lemmas say what that function means, in terms of its inputs.  Where several
parties act at once, the module also has a `State`, an `Action` and `Apply`/`Exec`, and its safety lemmas hold for every
sequence of actions.

| files | subject |
|---|---|
| `Prelude`, `Arithmetic`, `Collections`, `Sorting` | options and results, division facts, keys that stay distinct, stable sorting |
| `Registry`, `Planner`, `NodeSums`, `PlannerTheorems` | model metadata and the greedy planner |
| `Nodes`, `Coordinator`, `CoordinatorTheorems`, `Preference`, `Fairness` | candidates, fallback and failover, who is preferred to whom, and the rotation over a series of calls |
| `ForwardChain`, `EndToEnd` | agents forwarding a request along a plan, and a request from candidates to answer |
| `Stream` | the streaming loop |
| `Names`, `RateLimit` | identifiers, and the rate limiter on a store with expiry |
| `Metering`, `MeteringTheorems`, `MeteringCompleteness` | hourly metering by several gateways that may crash |
| `Payout`, `PayoutLoop`, `PayoutHistory` | one payout run, when runs happen, and what each account has received |
| `Health`, `Lifecycle`, `Heartbeat` | probe counters, the shared node list, the agent's registration loop |

## Where the code does not do what its documentation says

The code is what is modelled.

- `crates/shard-planner/src/planner.rs:133` says that the VRAM check guarantees that all layers are covered.  It does
  not, because every node rounds down on its own: `PlannerTheorems.OneMbLessCanFail` gives failing inputs for every
  model and every number of nodes, and `PlannerTheorems.PlanSucceedsIff` says exactly when planning succeeds.
- `crates/shard-planner/src/planner.rs:71-77` says that the largest node becomes the controller and pays for the
  context.  `PlannerTheorems.ControllerHoldsContextIff` shows that it does exactly when the largest node holds the
  context and one layer; otherwise it is skipped and nobody pays.  `PlannerTheorems.ContextCanBeUnpaid` is an input.
- The cast at `crates/shard-planner/src/planner.rs:116` can leave a node with no layers at all:
  `PlannerTheorems.CastCanEmptyAShard`.  `PlannerTheorems.ShardsAreNonEmpty` gives the exact condition.
- An agent recognises itself by host or by agent port (`crates/node-agent/src/shard.rs:68`), and all agents default to
  one port (`crates/api-gateway/src/nodes.rs:21-23`).  `ForwardChain.CommonPortNeverAnswers` shows that a plan whose
  first two agents share a port is never answered, and `ForwardChain.ChainAnswersIff` when a plan is.  If no node can
  serve alone and all share the default port, no request succeeds: `EndToEnd.SharedPortFails`.
- `crates/api-gateway/src/billing_cron.rs:150` says that a failed meter report is retried the next hour.  The next run
  looks at the next hour only.  `MeteringCompleteness.PastHourIsFinal` says that a past hour is billed in the end exactly
  if it is billed already, and `MeteringCompleteness.FiveTokensLost` is a run that loses an hour.
- `crates/api-gateway/src/billing_cron.rs:254` says that a failed transfer is retried in the next run.  The next run pays
  for the next window only.  `PayoutHistory.AllSharesIff` says that an account receives its share of every window exactly
  if each transfer of a share goes through, and `PayoutHistory.FailedShareIsLost` is a run that loses a share for good.
- Token counts are unsigned and stored as signed (`crates/api-gateway/src/routes/chat.rs:325-326`), so a count from 2^31 on is
  stored as a negative one.  An hour whose usage nets negative is not billed and not made up for:
  `MeteringCompleteness.MeteringIsComplete` says exactly when what is billed is what was used, and
  `MeteringCompleteness.CreditIsNotBilled` is a run in which it is not.
- `crates/api-gateway/src/billing_cron.rs:12` says that the reporter runs at the top of the hour.  It ticks every hour
  from start-up on; `MeteringCompleteness.TicksReportConsecutiveHours` says that the offset does not matter.
- `README.md:333` and `ARCHITECTURE.md:82` say that nodes silent for two minutes are swept or removed.  The sweep marks
  them offline after 90 seconds (`Heartbeat.ThreeFailuresCanBeSwept`) and removes nothing (`Lifecycle.SweepIsExact`); the next probe, even a failed one, overrules the sweep unless it is
  at least the tenth failure in a row (`Lifecycle.ProbeOverrulesSweep`).

## What is assumed

- Memory sizes are unbounded naturals: sums of `u64` megabytes do not wrap.  The cast of a layer count to `u32` is
  modelled, and so is the wrap of the 64-bit rotation counter.
- Measured latencies are totally ordered, and a node without one comes last.  The lower-case form of a model name
  is passed in beside the name.
- Sorting by the standard library is a function, `Sorting.StableSort`; `Sorting.SortIsUnique` shows that any
  stable sort computes the same.
- JSON, HTTP, server-sent events, SQL, Redis and Stripe calls appear as outcomes or as small stores.  A stored usage
  row carries the time at which it became visible, on a clock that does not run backwards.  Stripe keeps one event per
  identifier for good.
- Times are after 1970-01-01 01:00, so that no reported hour begins before the epoch.
  `Names.MeterIdNeedsTheEpoch` shows why this matters.
- Money is real-valued.  Stripe's view of an amount is the whole number of cents that is sent.
- A fresh node identifier is one that was never used before.  The outcome of the license check is passed in.
- An agent at an address reports the host and the port it registered with.

## Model

| member | source | states |
|---|---|---|
| `Registry.ResolvePlannable` | crates/shard-planner/src/registry.rs:40-182 | whatever the model name, known, prefixed or unknown, the resolved specification has layers that weigh something and together outweigh the context by at least one layer |
| `Registry.ResolveIs` | crates/shard-planner/src/registry.rs:161-182 | a name gets the first table entry whose name begins it, and only a name that no entry begins gets the 4096 MB estimate: 32 layers of 112 MB and 512 MB of context |
| `Registry.EstimateIs` | crates/shard-planner/src/registry.rs:171-181 | an estimate sets an eighth aside as context and divides the rest by 32 layers, both rounded down |
| `Sorting.SortCorrect` | crates/shard-planner/src/planner.rs:94-96 | the sort yields a sorted permutation in which ties keep their input order |
| `Sorting.SortIsUnique` | crates/shard-planner/src/planner.rs:94-96 | any sorted arrangement that keeps ties in input order is that result, so nothing depends on the sorting algorithm |
| `Planner.PlanShards` | crates/shard-planner/src/planner.rs:78-147 | the planning loop computes `Plan` for all inputs, with its errors and the figures they carry |
| `PlannerTheorems.PlanIsValid` | crates/shard-planner/src/planner.rs:98-146 | a successful plan partitions the layers in order, uses every input node at most once, and asks no node for more VRAM than it has |
| `PlannerTheorems.LayerRunsOnce` | crates/shard-planner/src/planner.rs:120-130 | every layer is run by exactly one shard |
| `PlannerTheorems.ShardsAreNonEmpty` | crates/shard-planner/src/planner.rs:108-130 | every shard runs some layer if and only if no node reached has its layer count cut to zero by the `u32` cast |
| `PlannerTheorems.CastCanEmptyAShard` | crates/shard-planner/src/planner.rs:116-130 | there is an input on which the cast leaves a planned shard empty |
| `PlannerTheorems.PlanOkIff` | crates/shard-planner/src/planner.rs:79-140 | with or without truncation, planning succeeds if and only if there are nodes, their VRAM reaches the requirement, and the capacities in visiting order cover all layers |
| `PlannerTheorems.PlanErrorIs` | crates/shard-planner/src/planner.rs:79-140 | a failure says that there are no nodes, or how much was needed, how much there was and on how many nodes |
| `PlannerTheorems.TotalVramLaw` | crates/shard-planner/src/planner.rs:83 | what there is, is the sum of the nodes' VRAM |
| `PlannerTheorems.PlanSucceedsIff` | crates/shard-planner/src/planner.rs:83-140 | planning succeeds if and only if VRAM reaches the requirement and the floored capacities, with the context charged to the largest node, cover all layers; the VRAM check matters only if no node holds the context |
| `PlannerTheorems.PlanOkInAnyOrder` | crates/shard-planner/src/planner.rs:83-140 | success does not depend on the order of the input |
| `PlannerTheorems.EnoughVram` | crates/shard-planner/src/planner.rs:83-140 | the requirement plus one MB short of a layer for every node but one always suffices |
| `PlannerTheorems.OneMbLessCanFail` | crates/shard-planner/src/planner.rs:133-140 | that bound is tight: for every model and every number of nodes there are nodes with one MB less on which planning fails |
| `PlannerTheorems.ControllerHoldsContextIff` | crates/shard-planner/src/planner.rs:94-114 | the controller has room for layers and context if and only if the largest node holds the context and one layer, and it then is the largest node |
| `PlannerTheorems.ContextCanBeUnpaid` | crates/shard-planner/src/planner.rs:100-114 | there is an input on which planning succeeds and the controller has no room for the context |
| `PlannerTheorems.GreedyIsMinimal` | crates/shard-planner/src/planner.rs:94-131 | no team of nodes that covers all layers with the context on a node of largest size has fewer members than the plan, and with the context on any node that holds it at most one fewer |
| `PlannerTheorems.GreedyAgainstFreeTeam` | crates/shard-planner/src/planner.rs:94-131 | even a team without the largest node that pays for no context is smaller by one at most |
| `PlannerTheorems.GreedyCanLoseOne` | crates/shard-planner/src/planner.rs:94-131 | the difference of one does occur |
| `PlannerTheorems.PlanKeepsDistinct` | crates/shard-planner/src/planner.rs:103-131 | any key that is unique among the input nodes is unique among the nodes of the plan |
| `NodeSums.LargestAreBest` | crates/shard-planner/src/planner.rs:94-96 | exchange argument: for any measure that grows with VRAM, the first m nodes in sorted order total at least as much as any m nodes drawn from them |
| `Coordinator.ShardCoordinator.BuildCandidates` | crates/api-gateway/src/shard_coordinator.rs:65-132 | the candidates are a function of the nodes, the latencies and the counter, and the counter moves, with wrap-around, exactly when some node can serve alone |
| `Coordinator.ShardCoordinator.BuildPlan` | crates/api-gateway/src/shard_coordinator.rs:183-232 | the fallback plan is the plan over all online nodes in (VRAM, latency) order, if there is one |
| `Coordinator.ShardCoordinator.ExecuteWithFailover` | crates/api-gateway/src/shard_coordinator.rs:138-173 | candidates are tried in order up to the first success, nothing after it is tried, and without a success all are tried and the last error is returned |
| `CoordinatorTheorems.SoloPlan` | crates/api-gateway/src/shard_coordinator.rs:102-114 | a node with enough VRAM keeps its plan if and only if the `u32` cast leaves it enough layers, and the plan is then one shard with all layers |
| `CoordinatorTheorems.SoloCandidates` | crates/api-gateway/src/shard_coordinator.rs:81-123 | in the solo case no plan is dropped: the candidates are whole-model plans on exactly the online nodes with enough VRAM |
| `CoordinatorTheorems.PlansOnEachConcat` | crates/api-gateway/src/shard_coordinator.rs:102-114 | also where the `u32` cast makes planning fail on some nodes, the others keep their plans, in order |
| `Preference.CandidateOrder` | crates/api-gateway/src/shard_coordinator.rs:89-123 | in the first call's candidates, of two nodes that can serve the request, the one with the lower measured latency comes first, a measured one before one without a measurement, of equally fast ones the larger, and of equally large ones the one registered earlier; each candidate has the node's own id, host and ports |
| `Preference.CandidatesTurn` | crates/api-gateway/src/shard_coordinator.rs:97-100 | in later calls the candidate at position k stands as many places further on in that list as the counter says |
| `CoordinatorTheorems.SoloSequenceIs` | crates/api-gateway/src/shard_coordinator.rs:89-100 | each call tries the sorted solo nodes, turned by the counter |
| `CoordinatorTheorems.SortsCompose` | crates/api-gateway/src/shard_coordinator.rs:194-202 | the planner's own sort leaves the (VRAM, latency) order as it is |
| `CoordinatorTheorems.FallbackController` | crates/api-gateway/src/shard_coordinator.rs:175-232 | if the largest node holds the context and a layer, the controller is the fastest of the largest online nodes, the first registered of them on a tie |
| `Preference.ControllerIsPreferred` | crates/api-gateway/src/shard_coordinator.rs:194-202 | in terms of the latency table: the fallback plan's controller is the largest online node, of several the one with the lowest measured latency, and of several of these the one registered first |
| `CoordinatorTheorems.NextCounterIs` | crates/api-gateway/src/shard_coordinator.rs:87-99 | the counter moves, and wraps at 2^64, exactly when some online node has VRAM for all layers and the context |
| `CoordinatorTheorems.FallbackIsSplit` | crates/api-gateway/src/shard_coordinator.rs:126-131 | if no online node fits the model alone, a fallback plan has at least two shards |
| `CoordinatorTheorems.ServableIff` | crates/api-gateway/src/shard_coordinator.rs:65-132 | there is a candidate if and only if the online nodes can be planned, whatever the latencies and the counter |
| `CoordinatorTheorems.CandidatesRunOnOnlineNodes` | crates/api-gateway/src/shard_coordinator.rs:75-132 | every shard of every candidate is addressed to the id, host and ports of a registered online node with enough VRAM |
| `CoordinatorTheorems.FailoverOkIff` | crates/api-gateway/src/shard_coordinator.rs:150-172 | execution succeeds if and only if some candidate succeeds |
| `CoordinatorTheorems.FailoverIs` | crates/api-gateway/src/shard_coordinator.rs:150-172 | the first success in order is returned, or else the last candidate's error |
| `CoordinatorTheorems.SoloFailover` | crates/api-gateway/src/shard_coordinator.rs:97-172 | in the solo case a request succeeds if and only if some online node with enough VRAM succeeds, whatever the counter and the latencies |
| `CoordinatorTheorems.TriedOnce` | crates/api-gateway/src/shard_coordinator.rs:97-172 | with unique node ids every candidate has a controller and no two candidates have the same, so no node is tried twice for a request |
| `Fairness.OccupiesIsPosition` | crates/api-gateway/src/shard_coordinator.rs:97-100 | whose turn it is at a position, by arithmetic on the counter, is the node found there in the sequence that the coordinator builds |
| `Fairness.CounterAfterIs` | crates/api-gateway/src/shard_coordinator.rs:99 | after t calls with the same nodes the counter has moved by t, modulo its range |
| `Fairness.FairToNodesIff` | crates/api-gateway/src/shard_coordinator.rs:87-123 | over as many consecutive calls as there are solo nodes, every solo node is the candidate at every position in exactly one call, if and only if the counter does not wrap within them or their number divides its range |
| `Fairness.NodesLeadEvenly` | crates/api-gateway/src/shard_coordinator.rs:87-123 | over m calls without a wrap each of n solo nodes is the first candidate in floor(m/n) or ceil(m/n) of them |
| `ForwardChain.IndexIsOwnIff` | crates/node-agent/src/shard.rs:64-77 | an agent takes itself for its own assignment or an earlier one, and for its own if and only if no earlier one shares its host, agent port or node id |
| `ForwardChain.AllOwnIff` | crates/node-agent/src/shard.rs:64-77 | all agents find their own index if and only if assignments have pairwise distinct hosts, agent ports and node ids |
| `ForwardChain.ChainAnswersIff` | crates/node-agent/src/shard.rs:60-179 | a request to the first assignment is answered if and only if the assignments are pairwise distinct in that sense and every stage succeeds; the answer is the last stage's body under the original request id and model |
| `ForwardChain.ChainEndsIff` | crates/node-agent/src/shard.rs:64-179 | if no stage fails, the chain ends if and only if the assignments are pairwise distinct in that sense |
| `ForwardChain.RequestIs` | crates/node-agent/src/shard.rs:109-130 | assignment k receives the original request with exactly one assistant turn added for each of the k stages before it, whose content is the text that stage inferred; all but the first are not streamed |
| `ForwardChain.VisitsContinue` | crates/node-agent/src/shard.rs:88-148 | along any chain, confused or not, each agent reached receives the request of the one before with one assistant turn added, the text inferred from that request or nothing if it has none, and all else unchanged but streaming |
| `ForwardChain.AnswerIsLast` | crates/node-agent/src/shard.rs:164-178 | an answer is what the last agent reached inferred from the request it received, under the first request's id and model |
| `ForwardChain.FailureIs` | crates/node-agent/src/shard.rs:88-169 | when some stage is the first to fail, only the agent next to it reports why; all before report that the next agent returned status 502 |
| `ForwardChain.VisitsEachOnce` | crates/node-agent/src/shard.rs:88-172 | a run whose stages succeed visits every assignment exactly once, in layer order |
| `ForwardChain.NeverAnswers` | crates/node-agent/src/shard.rs:64-171 | from any agent up to a confused one the request is never answered, and goes round for ever if no stage fails |
| `ForwardChain.PlannedChainIsWellAddressed` | crates/node-agent/src/shard.rs:64-77 | a plan made over nodes with distinct ids, hosts and agent ports forwards without confusion |
| `ForwardChain.CommonPortNeverAnswers` | crates/node-agent/src/shard.rs:68-98 | a plan whose first two agents share a port is never answered |
| `EndToEnd.SoloRequestIff` | crates/api-gateway/src/shard_coordinator.rs:97-277 | when some node can serve alone, a request succeeds if and only if one of those nodes, asked directly, answers |
| `EndToEnd.SplitPlanIff` | crates/api-gateway/src/shard_coordinator.rs:234-327 | executing a plan of several shards succeeds, given enough time, if and only if no two assignments can be confused and every stage succeeds, with the last stage's answer |
| `EndToEnd.SplitRequestIff` | crates/api-gateway/src/shard_coordinator.rs:126-172 | when no node can serve alone, a request succeeds, given enough time, if and only if there is a fallback plan along which that holds |
| `EndToEnd.SharedPortFails` | crates/node-agent/src/shard.rs:68-98 | when no node can serve alone and all online nodes share one agent port, every request fails |
| `Stream.StreamResponse` | crates/api-gateway/src/routes/chat.rs:228-379 | however the text is cut into chunks, and wherever the stream breaks off, the emitted events and recorded usage are those of splitting the received text into lines at once; usage is recorded for the first readable line that is done, its prompt count as input and its evaluation count as output tokens, each as a 32-bit column stores it; only filtered texts of readable lines are said |
| `Stream.OneMoreLine` | crates/api-gateway/src/routes/chat.rs:303-378 | the events line by line: no text gives the role and the end marker, and each further line, as long as none is done, puts before the end marker its filtered text, `stop`, or nothing |
| `Stream.ReceivedIs` | crates/api-gateway/src/routes/chat.rs:292-301 | chunks are read in order, and none after a failed read |
| `Stream.LineIs` | crates/api-gateway/src/routes/chat.rs:303-305 | a text without line end is one line once it has one, and none before |
| `Stream.DrainLines` | crates/api-gateway/src/routes/chat.rs:303-374 | the inner loop leaves a buffer without a line end and, whatever text is still to come, an unchanged final outcome; or it ends with that outcome |
| `Stream.OneLine` | crates/api-gateway/src/routes/chat.rs:303-374 | taking one line off the buffer does to the final outcome what that line means, whatever text is still to come |
| `Stream.ContinueIs` | crates/api-gateway/src/routes/chat.rs:303-378 | handling lines one at a time yields everything said before the first finishing line, then `stop` and the end marker, or only the end marker if no line finishes |
| `Stream.FirstFinishIs` | crates/api-gateway/src/routes/chat.rs:319-349 | the line at which the answer ends is the first that says so |
| `Stream.EventOrder` | crates/api-gateway/src/routes/chat.rs:269-378 | the role is first and only there, the end marker last and only there, `stop` only just before it and exactly when some line finishes; usage is recorded at most once, exactly when there is also a database |
| `Stream.LinesConcat` | crates/api-gateway/src/routes/chat.rs:301-305 | the lines of two texts joined at a line end are the lines of the one followed by those of the other |
| `Stream.TailDropped` | crates/api-gateway/src/routes/chat.rs:303-378 | an unterminated tail changes nothing |
| `Stream.CutOffIsPrefix` | crates/api-gateway/src/routes/chat.rs:292-298 | what is emitted before a break is a prefix of what the full text yields, and is all of it once `stop` was sent |
| `Names.DigitsInjective` | crates/api-gateway/src/cache.rs:52 | decimal notation determines the number |
| `Names.ValueOfDigits` | crates/api-gateway/src/cache.rs:52 | the notation of a number, read as a decimal number, is that number |
| `Names.RateKeyInjective` | crates/api-gateway/src/cache.rs:51-52 | different keys or minutes never share a counter, whatever characters a key contains |
| `Names.MeterIdInjective` | crates/api-gateway/src/billing_cron.rs:112 | from 1970 on, different keys or hours never share a meter identifier |
| `Names.MeterIdNeedsTheEpoch` | crates/api-gateway/src/billing_cron.rs:112 | before 1970 every identifier is also that of another key and hour |
| `RateLimit.RateLimiter.CheckAndIncrement` | crates/api-gateway/src/cache.rs:50-60 | the counter of the clock's minute is incremented, gets its expiry when it is new, and the request passes if the count is within the limit; also when a command or its answer is lost |
| `RateLimit.CallIsTrace` | crates/api-gateway/src/cache.rs:50-60 | a call, also one with a store error, does what its commands do at the end of a trace, keeps the trace prompt, and lets the request through exactly if the trace does |
| `RateLimit.FirstCallIs` | crates/api-gateway/src/cache.rs:54-57 | the first request of a minute starts its count at one, kept for 120 seconds from the expiry command on, or without end if that command is lost |
| `RateLimit.LaterCallIs` | crates/api-gateway/src/cache.rs:54-57 | a later request, while the count is kept, adds one, leaves its expiry alone, and changes nothing else in the store |
| `RateLimit.CounterRefines` | crates/api-gateway/src/cache.rs:50-57 | in every interleaving whose increments land within 60 seconds of the clock read, the stored counter is the unbounded count of the minute's requests |
| `RateLimit.AdmittedIs` | crates/api-gateway/src/cache.rs:50-60 | without store errors exactly min(requests, limit) requests of a key are admitted in every aligned minute |
| `RateLimit.IntervalBound` | crates/api-gateway/src/cache.rs:50-60 | in any interval of W minutes at most (W+1) times the limit is admitted |
| `RateLimit.TwiceTheLimit` | crates/api-gateway/src/cache.rs:50-60 | that is reached: twice the limit passes within one minute |
| `RateLimit.LateIncrementForgets` | crates/api-gateway/src/cache.rs:51-57 | for any longer delay there is a run in which a counter expires too early and forgets a request |
| `Metering.MeterReporter.SumUsage` | crates/api-gateway/src/billing_cron.rs:92-104 | the sums are those of the key's rows in the half-open window |
| `Metering.UsageLaw` | crates/api-gateway/src/billing_cron.rs:92-106 | a usage row adds its input tokens and its output tokens to the two sums, and its input plus twice its output tokens to the weighted sum, exactly if it is of the key and was stored in the half-open window |
| `MeteringTheorems.HourLaw` | crates/api-gateway/src/billing_cron.rs:50-57 | the hour boundary used is the last whole hour of 3600 seconds |
| `Metering.MeterReporter.ReportOne` | crates/api-gateway/src/billing_cron.rs:71-155 | one customer's turn changes the ledger as specified, for a call that is accepted, refused, or accepted without an answer, and a failing insert leaves the same ledger as a lost answer |
| `Metering.MeterReporter.ReportMeterUsage` | crates/api-gateway/src/billing_cron.rs:44-158 | a run reports the last whole hour for all customers, or for those before the one at which a query or an insert fails; it fails exactly if that customer is reached and, for an insert, has a row to insert |
| `MeteringTheorems.StepKeeps` | crates/api-gateway/src/billing_cron.rs:44-158 | every step of every gateway keeps: events carry the exact weighted usage of closed aligned hours under their own identifiers, reports are backed by events, gateways hold correct figures |
| `MeteringTheorems.MeteringIsSafe` | crates/api-gateway/src/billing_cron.rs:50-139 | over every interleaving of gateways, repeated runs, lost answers and crashes, each accepted event bills exactly the weighted usage of a closed hour, which is positive, and no usage row counts in two events |
| `MeteringTheorems.ReportRowsAre` | crates/api-gateway/src/billing_cron.rs:112-139 | over every interleaving a report row holds the input tokens and the output tokens of its key in its hour, in this order, and its event was accepted with the one plus twice the other |
| `MeteringTheorems.RepeatIsHarmless` | crates/api-gateway/src/billing_cron.rs:72-124 | a repeated identifier stands for the same key, hour and amount as the event already accepted |
| `MeteringTheorems.EventsStay` | crates/api-gateway/src/billing_cron.rs:114-124 | accepted events are never changed or withdrawn |
| `MeteringCompleteness.ReporterIsOneInterleaving` | crates/api-gateway/src/billing_cron.rs:44-158 | a call of the reporter, also one ended by a failing query or insert, is one run of the interleaved steps, so what is proved of all runs holds of it |
| `MeteringCompleteness.FinishedRunSettles` | crates/api-gateway/src/billing_cron.rs:71-155 | among any steps of other gateways, a run that ends without a crash and without a refusal for a key leaves the hour settled for it: billed, if there is anything to bill |
| `MeteringCompleteness.UninterruptedRunFinishes` | crates/api-gateway/src/billing_cron.rs:71-155 | an uninterrupted run that is not refused for the key ends that way |
| `MeteringCompleteness.TicksReportConsecutiveHours` | crates/api-gateway/src/billing_cron.rs:14-57 | ticks exactly an hour apart report consecutive hours without gap or overlap, wherever in the hour they fall |
| `MeteringCompleteness.MeteringIsComplete` | crates/api-gateway/src/billing_cron.rs:14-139 | if each of k consecutive hours has such a run, of any gateway, with any customers that include the key, and overlapping anything, then each hour is billed once at its usage, or not at all if that nets negative; the total is the usage of the whole span if and only if no hour nets negative |
| `MeteringCompleteness.CreditIsNotBilled` | crates/api-gateway/src/billing_cron.rs:103-110 | an hour with negative usage is not billed |
| `MeteringCompleteness.PastHourIsFinal` | crates/api-gateway/src/billing_cron.rs:50-57 | an hour that is no longer the last whole hour, and on which no gateway is working, ends up billed if and only if it is billed already |
| `MeteringCompleteness.RefusedHourIsLost` | crates/api-gateway/src/billing_cron.rs:147-154 | an hour whose only report was refused is never billed, whatever happens once the next hour is over |
| `MeteringCompleteness.FiveTokensLost` | crates/api-gateway/src/billing_cron.rs:147-154 | a run in which five used tokens are never billed |
| `Payout.PayoutProcessor.SumUsage` | crates/api-gateway/src/billing_cron.rs:195-205 | the sum is the weighted usage of all rows in the half-open window |
| `Payout.WindowLaw` | crates/api-gateway/src/billing_cron.rs:195-205 | a usage row of any key adds its input plus twice its output tokens exactly if it was stored in the half-open window |
| `Payout.TransfersAre` | crates/api-gateway/src/billing_cron.rs:195-258 | every transfer of a payout is of the whole number of cents in an equal share of the last day's weighted usage at the rate, less the commission; each account whose transfer goes through gets one for every provider it belongs to, and nobody else gets any; nothing is sent, although some transfer would go through, only if there is not a cent for each provider |
| `Payout.PayoutProcessor.ProcessPayouts` | crates/api-gateway/src/billing_cron.rs:166-267 | a run appends one transfer of the floored share for each provider whose transfer goes through, or nothing if there is no provider, no usage or no whole cent; if a query fails it appends nothing and returns an error |
| `Payout.PayoutConserves` | crates/api-gateway/src/billing_cron.rs:204-258 | n shares come within n cents of the pool, 100 * (1 - commission) * gross, if and only if the pool is not negative; transfers then never exceed it |
| `PayoutLoop.PayoutClock.Tick` | crates/api-gateway/src/billing_cron.rs:28-39 | a tick runs the payout exactly in hour 2 of a day it does not remember, remembers the day if it succeeds, and makes that payout's transfers and no others |
| `PayoutLoop.TickIs` | crates/api-gateway/src/billing_cron.rs:28-39 | with the time taken apart into days and seconds: a tick pays from second 7200 up to second 10800 of a day whose day-of-year is not remembered |
| `PayoutLoop.LoopIsOrderly` | crates/api-gateway/src/billing_cron.rs:24-41 | whatever fails, payouts fall in hour 2, each on a later day than the one before, and the loop remembers the last one |
| `PayoutLoop.GapsAreBounded` | crates/api-gateway/src/billing_cron.rs:24-41 | the windows of payouts on consecutive days overlap or leave a gap by less than an hour, and d days apart by less than an hour around d - 1 days |
| `PayoutLoop.LoopIsUpToDate` | crates/api-gateway/src/billing_cron.rs:24-41 | if payouts at first ticks of hour 2 succeed, whatever happens to others, no such tick passes without that day's payout, and all payouts but perhaps the first happen at one |
| `PayoutLoop.FirstPayoutIs` | crates/api-gateway/src/billing_cron.rs:24-41 | if one at the start would succeed too, the first payout happens at once in hour 2, or else at the next first tick of hour 2 |
| `PayoutLoop.WindowsTile` | crates/api-gateway/src/billing_cron.rs:24-41 | if payouts at first ticks of hour 2 succeed, windows tile time exactly from the second payout on, and from the first if and only if that one fell on a first tick of hour 2 |
| `PayoutLoop.UsageIsPaidOnce` | crates/api-gateway/src/billing_cron.rs:166-205 | then all usage from the start of the second window to the last payout is paid for exactly once |
| `PayoutHistory.EachWindowIs` | crates/api-gateway/src/billing_cron.rs:231-258 | however long the loop runs, an account has received for a window its share if that payout happened and its transfer went through, and nothing otherwise: a failed share is never sent later |
| `PayoutHistory.AllSharesIff` | crates/api-gateway/src/billing_cron.rs:231-258 | an account has received its share of every window if and only if its transfer went through in each payout in which it had a share |
| `PayoutHistory.TotalIff` | crates/api-gateway/src/billing_cron.rs:231-258 | in total it never receives more than its shares, and as much if and only if no transfer of a share failed |
| `PayoutHistory.FailedShareIsLost` | crates/api-gateway/src/billing_cron.rs:250-255 | a run in which eighty cents whose transfer failed are never sent, although all later transfers succeed |
| `Health.CountConsecutiveFailures` | crates/api-gateway/src/health_monitor.rs:170-193 | the loop counts the failures before the first success, and none if the query fails |
| `Health.LatestIs` | crates/api-gateway/src/health_monitor.rs:171-174 | the probes read back are the latest ones, the latest first |
| `Health.CountersAgree` | crates/api-gateway/src/health_monitor.rs:83-193 | for every probe history the in-memory counter is the trailing run of failures, the database count that run cut off at ten, and both lead to the same status |
| `Health.ClassifyIs` | crates/api-gateway/src/health_monitor.rs:83-90 | fewer than three failures in a row mean online, fewer than ten degraded, and any more offline |
| `Health.TrailingFailuresIs` | crates/api-gateway/src/health_monitor.rs:183-192 | the run of failures reaches back exactly to the last success, or to the first probe |
| `Health.EnoughProbesRead` | crates/api-gateway/src/health_monitor.rs:83-173 | reading back n probes classifies all histories correctly if and only if n is at least the offline threshold |
| `Lifecycle.Gateway.Register` | crates/api-gateway/src/routes/nodes.rs:26-85 | an approved registration replaces the node of that name where it stands, or appends it, with the fields of the request, online and just seen; a refused one changes nothing |
| `Lifecycle.Gateway.CollectTargets` | crates/api-gateway/src/health_monitor.rs:254-260 | the snapshot holds the id of every node, in order |
| `Lifecycle.Gateway.ProbeMemory` | crates/api-gateway/src/health_monitor.rs:128-166 | the counter of the id is updated, and the first node with that id gets the status it calls for |
| `Lifecycle.Gateway.Sweep` | crates/api-gateway/src/stale_nodes.rs:38-44 | each node is swept on its own and the counters are left alone |
| `Lifecycle.SetStatusIs` | crates/api-gateway/src/health_monitor.rs:154-165 | with unique ids, exactly the node with the id gets the status, and nothing changes if there is none |
| `Lifecycle.StepKeeps` | crates/api-gateway/src/health_monitor.rs:128-166 | registration, snapshot, probe result, sweep and the passing of time all keep the invariant of the node list |
| `Lifecycle.LifecycleInvariant` | crates/api-gateway/src/routes/nodes.rs:72-78 | over every interleaving names and ids stay unique, each counter is the trailing run of failures of its id, and each status is what the probes of the node's present id say, unless the node is stale and offline |
| `Lifecycle.DegradedNeedsThreeProbes` | crates/api-gateway/src/health_monitor.rs:146-152 | a node is degraded, or offline without being stale, only if the last three probes of its present id failed |
| `Lifecycle.ProbeTouchesOnlyItsId` | crates/api-gateway/src/health_monitor.rs:154-165 | a probe result sets the status of the node with that id to what the id's history calls for and touches no other node; for an id that re-registration has replaced it touches none |
| `Lifecycle.ReRegistrationEscapesProbes` | crates/api-gateway/src/routes/nodes.rs:37-78 | re-registration leaves one node of the name, online, fresh and under an id that no pending probe refers to, and keeps all other nodes |
| `Lifecycle.SweepIsExact` | crates/api-gateway/src/stale_nodes.rs:19-45 | right after a sweep every node last heard of more than 90 seconds ago is offline, and every other node is as it was |
| `Lifecycle.SweepsCompose` | crates/api-gateway/src/stale_nodes.rs:19-45 | two sweeps do what one at the later of their times does |
| `Lifecycle.ProbeOverrulesSweep` | crates/api-gateway/src/health_monitor.rs:128-166 | the next probe of a swept node decides its status alone, however stale the node: it stays offline if and only if that probe is at least the tenth failure in a row |
| `Lifecycle.RoutingAvoidsFailingNodes` | crates/api-gateway/src/shard_coordinator.rs:75-132 | in every reachable state every shard of every candidate runs on a registered online node whose last three probes did not all fail |
| `Lifecycle.RoutingAfterSweepIsFresh` | crates/api-gateway/src/stale_nodes.rs:19-45 | whatever the nodes, right after a sweep every shard of every candidate runs on an online node heard of in the last 90 seconds |
| `Lifecycle.RoutingTriesNodesOnce` | crates/api-gateway/src/shard_coordinator.rs:97-172 | in every reachable state a request tries no node twice |
| `Heartbeat.Agent.RegisterLoop` | crates/node-agent/src/registration.rs:23-55 | requests are sent at the times given by 30 seconds after a success and the doubling pause, at most 120 seconds, after a failure, and the flag tells how the last one went |
| `Heartbeat.PausesAre` | crates/node-agent/src/registration.rs:42-53 | k pauses in a row add up to 2^(k+1) - 2 for k up to 6, and to 120 seconds more for each further one |
| `Heartbeat.FromTheStart` | crates/node-agent/src/registration.rs:23-53 | before the first success the loop pauses as after one: k failures from the start take their requests' time and k pauses |
| `Heartbeat.GapBounds` | crates/node-agent/src/registration.rs:26-53 | k failures between two registrations delay the second stamp by at most 30 + 10 (k + 2) seconds and the pauses, for every k |
| `Heartbeat.WorstGapIsReached` | crates/node-agent/src/registration.rs:26-53 | that bound is attained for every k |
| `Heartbeat.HarmlessIff` | crates/api-gateway/src/stale_nodes.rs:19-43 | no gap with k failures exceeds the 90 seconds of the sweep if and only if k is at most 2 |
| `Heartbeat.ThreeFailuresCanBeSwept` | crates/api-gateway/src/stale_nodes.rs:38-44 | with three failures or more there is a moment at which a sweep takes the node offline |
| `Heartbeat.StaysFresh` | crates/node-agent/src/registration.rs:25-55 | while an agent never fails three times in a row, its last stamp is never older than 76 seconds between two successes |
| `Heartbeat.RunSeen` | crates/api-gateway/src/routes/nodes.rs:37-78 | over every interleaving a node's `last_seen` is the time of the last registration of its name, and the name is present exactly if it ever registered |
| `Heartbeat.SweepSparesTheSteady` | crates/api-gateway/src/stale_nodes.rs:38-44 | over every interleaving, a sweep leaves the node of an agent that never fails three times in a row exactly as it is |

## Left out

- Database mode of registration, probing and sweeping: the same rules run as SQL statements there; routing reads the
  in-memory list only.
- Latency percentiles and uptime, and rounding of real numbers.
- The 120 second time-outs of the gateway and between agents: a request is given up after any number of nested calls, and
  a chain that never ends is one whose answer is pending at every depth.
- Direct execution on a node is a fixed outcome per node; `EndToEnd` models execution along a chain of agents.
- Decoding of bytes: the stream theorems are about decoded text, and a chunk that ends within a character is decoded
  on its own by the program.
- Trimming, JSON parsing and the PII filter: they are arbitrary functions in `Stream`.
- A client that goes away during a stream: sends whose failure the program ignores.
- A gateway without a database or a Stripe configuration: meter and payout runs then do nothing and succeed.
- Authentication, license lookup, webhooks, the dashboard, the command line and the analytics routes.
- What `auth.rs` does when the rate limiter returns an error: it lets the request pass.
- Coordinator.ShardCoordinator.ExecuteWithFailover: the error for an empty candidate list does not name the model.
- Planner.PlanShards: the sums of megabytes are unbounded, where the program would wrap or stop at 2^64.
- RateLimit.AdmittedIs: the runs have no store errors; `CheckAndIncrement` says what each error does to the counter.
- Metering.MeterReporter.ReportMeterUsage: a failure of the query for the customer list, after which nothing happens.
- MeteringTheorems.MeteringIsSafe: a usage row whose timestamp lies in an hour already over when it becomes visible is
  not modelled, because rows are stored with the current time.
- Payout.PayoutProcessor.ProcessPayouts: an amount beyond 2^64 cents would be cut off there and is not here.
- PayoutLoop.PayoutClock.Tick: the payout reads its own clock a moment after the tick; here both read the same time.
- Health.CountersAgree: every probe is recorded; a probe whose record the database refuses is skipped by the program.
- Lifecycle.Gateway.ProbeMemory: the counter is unbounded, where the program's would overflow after 2^32 failures.
- Heartbeat.Agent.RegisterLoop: sleeps last exactly as long as asked for, and the loop runs for any finite number of
  attempts instead of for ever.
