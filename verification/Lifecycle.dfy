/**
 The life of nodes in memory mode: registration under a fresh id, probing of a snapshot, and the stale sweep,
 in any order.  `Gateway` is the shared state with its methods; `State` adds what the proofs talk about.
 */
module Lifecycle {
  import opened Collections
  import opened Coordinator
  import opened CoordinatorTheorems
  import opened Health
  import opened Nodes
  import opened Planner
  import opened PlannerTheorems
  import opened Prelude
  import opened Registry

  /** Seconds without a heartbeat after which the sweep takes a node offline. */
  const STALE_AFTER := 90.0

  // ----- Operations on the node list

  /** Replaces the node of the same name, or appends. */
  function Upsert(nodes: seq<NodeInfo>, node: NodeInfo): seq<NodeInfo> {
    if nodes == [] then [node]
    else if nodes[0].name == node.name then [node] + nodes[1..]
    else [nodes[0]] + Upsert(nodes[1..], node)
  }

  /** Sets the status of the first node with the id, if there is one. */
  function SetStatus(nodes: seq<NodeInfo>, id: string, status: NodeStatus): seq<NodeInfo> {
    if nodes == [] then []
    else if nodes[0].id == id then [nodes[0].(status := status)] + nodes[1..]
    else [nodes[0]] + SetStatus(nodes[1..], id, status)
  }

  predicate Stale(n: NodeInfo, now: real) {
    n.lastSeen < now - STALE_AFTER
  }

  function Swept(n: NodeInfo, now: real): NodeInfo {
    if Stale(n, now) && n.status != Offline then n.(status := Offline) else n
  }

  function SweepAll(nodes: seq<NodeInfo>, now: real): seq<NodeInfo> {
    seq(|nodes|, i requires 0 <= i < |nodes| => Swept(nodes[i], now))
  }

  function Ids(nodes: seq<NodeInfo>): seq<string> {
    seq(|nodes|, i requires 0 <= i < |nodes| => nodes[i].id)
  }

  function NewNode(name: string, id: string, host: string, port: nat, agentPort: nat, gpuName: string, vramMb: nat, now: real): NodeInfo {
    NodeInfo(id, name, host, port, agentPort, gpuName, vramMb, Online, now, now)
  }

  // ----- The gateway

  class Gateway {
    var nodes: seq<NodeInfo>
    var failureCounts: FailureCounts

    constructor ()
      ensures nodes == [] && failureCounts == map[]
    {
      nodes, failureCounts := [], map[];
    }

    /** `register`; `approved` is the outcome of the license check and `id` the fresh identifier. */
    method Register(name: string, id: string, host: string, port: nat, agentPort: nat, gpuName: string, vramMb: nat,
                    now: real, approved: bool) returns (ok: bool)
      modifies this
      ensures ok == approved && failureCounts == old(failureCounts)
      ensures nodes == if approved then Upsert(old(nodes), NewNode(name, id, host, port, agentPort, gpuName, vramMb, now))
                       else old(nodes)
      ensures approved ==> NodeInfo(id, name, host, port, agentPort, gpuName, vramMb, Online, now, now) in nodes
    {
      if !approved {
        return false;
      }
      var node := NewNode(name, id, host, port, agentPort, gpuName, vramMb, now);
      var pos := 0;
      while pos < |nodes| && nodes[pos].name != name
        invariant 0 <= pos <= |nodes| && nodes == old(nodes) && failureCounts == old(failureCounts)
        invariant forall j :: 0 <= j < pos ==> nodes[j].name != name
      {
        pos := pos + 1;
      }
      ghost var k := UpsertAt(nodes, node);
      assert pos == k;
      UpsertIs(nodes, node);
      if pos < |nodes| {
        nodes := nodes[pos := node];
      } else {
        nodes := nodes + [node];
      }
      return true;
    }

    method CollectTargets() returns (targets: seq<string>)
      ensures targets == Ids(nodes)
      ensures |targets| == |nodes| && forall i :: 0 <= i < |nodes| ==> targets[i] == nodes[i].id
    {
      targets := [];
      for i := 0 to |nodes|
        invariant targets == Ids(nodes)[..i]
      {
        targets := targets + [nodes[i].id];
      }
    }

    /** `probe_memory`. */
    method ProbeMemory(nodeId: string, success: bool)
      modifies this
      ensures failureCounts == CountProbe(old(failureCounts), nodeId, success)
      ensures nodes == SetStatus(old(nodes), nodeId, Classify(Counter(failureCounts, nodeId)))
    {
      if success {
        failureCounts := failureCounts - {nodeId};
      } else {
        failureCounts := failureCounts[nodeId := (if nodeId in failureCounts then failureCounts[nodeId] else 0) + 1];
      }
      var consec := if success then 0 else failureCounts[nodeId];
      var newStatus := Classify(consec);
      var pos := 0;
      while pos < |nodes| && nodes[pos].id != nodeId
        invariant 0 <= pos <= |nodes| && nodes == old(nodes)
        invariant failureCounts == CountProbe(old(failureCounts), nodeId, success)
        invariant forall j :: 0 <= j < pos ==> nodes[j].id != nodeId
      {
        pos := pos + 1;
      }
      ghost var k := SetStatusAt(nodes, nodeId, newStatus);
      assert pos == k;
      if pos < |nodes| {
        var node := nodes[pos];
        if node.status != newStatus {
          nodes := nodes[pos := node.(status := newStatus)];
        }
      }
    }

    /** The in-memory branch of `sweep`. */
    method Sweep(now: real)
      modifies this
      ensures nodes == SweepAll(old(nodes), now) && failureCounts == old(failureCounts)
    {
      var cutoff := now - STALE_AFTER;
      for i := 0 to |nodes|
        invariant |nodes| == |old(nodes)| && failureCounts == old(failureCounts)
        invariant forall k :: 0 <= k < i ==> nodes[k] == Swept(old(nodes)[k], now)
        invariant forall k :: i <= k < |nodes| ==> nodes[k] == old(nodes)[k]
      {
        var node := nodes[i];
        if node.lastSeen < cutoff && node.status != Offline {
          nodes := nodes[i := node.(status := Offline)];
        }
      }
    }
  }

  // ----- All interleavings

  /**
   `pending` are the ids of a snapshot still to be probed.  `histories` records the probes of every id and `used`
   every id ever handed out; neither is part of the program.
   */
  datatype State = State(
    now: real, nodes: seq<NodeInfo>, failureCounts: FailureCounts, pending: seq<string>,
    histories: map<string, seq<bool>>, used: set<string>)

  datatype Action =
    | Advance(to: real)
    | Register(name: string, id: string, host: string, port: nat, agentPort: nat, gpuName: string, vramMb: nat)
    | Snapshot
    | ProbeResult(success: bool)
    | Sweep

  function HistoryOf(s: State, id: string): seq<bool> {
    if id in s.histories then s.histories[id] else []
  }

  /** The outcome of a probe of `id`. */
  function Probed(s: State, id: string, success: bool): State {
    var counts := CountProbe(s.failureCounts, id, success);
    s.(failureCounts := counts,
       nodes := SetStatus(s.nodes, id, Classify(Counter(counts, id))),
       histories := s.histories[id := HistoryOf(s, id) + [success]])
  }

  /** One step; an action that does not apply changes nothing.  An id that was handed out is never handed out again. */
  function Apply(s: State, a: Action): State {
    match a
    case Advance(to) => if to >= s.now then s.(now := to) else s
    case Register(name, id, host, port, agentPort, gpuName, vramMb) =>
      if id in s.used then s
      else s.(nodes := Upsert(s.nodes, NewNode(name, id, host, port, agentPort, gpuName, vramMb, s.now)), used := s.used + {id})
    case Snapshot => if s.pending == [] then s.(pending := Ids(s.nodes)) else s
    case ProbeResult(success) =>
      if s.pending == [] then s else Probed(s, s.pending[0], success).(pending := s.pending[1..])
    case Sweep => s.(nodes := SweepAll(s.nodes, s.now))
  }

  function Exec(s: State, actions: seq<Action>): State
    decreases |actions|
  {
    if actions == [] then s else Exec(Apply(s, actions[0]), actions[1..])
  }

  function InitialState(now: real): State {
    State(now, [], map[], [], map[], {})
  }

  // ----- The invariant

  predicate NamesUnique(nodes: seq<NodeInfo>) {
    forall i, j :: 0 <= i < j < |nodes| ==> nodes[i].name != nodes[j].name
  }

  predicate IdsUnique(nodes: seq<NodeInfo>) {
    forall i, j :: 0 <= i < j < |nodes| ==> nodes[i].id != nodes[j].id
  }

  /** The status is what the probes of the current id say, unless the node has gone stale and was swept. */
  predicate StatusFits(n: NodeInfo, history: seq<bool>, now: real) {
    n.status == Classify(TrailingFailures(history)) || (n.status == Offline && Stale(n, now))
  }

  predicate NodesOk(s: State) {
    forall n :: n in s.nodes ==> n.id in s.used && n.lastSeen <= s.now && StatusFits(n, HistoryOf(s, n.id), s.now)
  }

  /** Each stored counter is the trailing run of failures of its id, and a missing one stands for none. */
  ghost predicate CountersOk(s: State) {
    forall id :: Counter(s.failureCounts, id) == TrailingFailures(HistoryOf(s, id))
  }

  predicate UsedOk(s: State) {
    && (forall id :: id in s.histories ==> id in s.used)
    && (forall id :: id in s.pending ==> id in s.used)
  }

  ghost predicate Inv(s: State) {
    NamesUnique(s.nodes) && IdsUnique(s.nodes) && NodesOk(s) && CountersOk(s) && UsedOk(s)
  }

  // ----- Every step keeps it

  /** Where the new node goes. */
  lemma {:induction false} UpsertAt(nodes: seq<NodeInfo>, node: NodeInfo) returns (k: nat)
    ensures k <= |nodes| && forall j :: 0 <= j < k ==> nodes[j].name != node.name
    ensures k < |nodes| ==> nodes[k].name == node.name
    ensures Upsert(nodes, node) == if k < |nodes| then nodes[k := node] else nodes + [node]
  {
    if nodes == [] || nodes[0].name == node.name {
      k := 0;
    } else {
      var r := UpsertAt(nodes[1..], node);
      k := r + 1;
      assert forall j :: 0 < j < k ==> nodes[j] == nodes[1..][j - 1];
      if k < |nodes| {
        UpdateTail(nodes, r, node);
      } else {
        assert nodes + [node] == [nodes[0]] + (nodes[1..] + [node]);
      }
    }
  }

  /** Where a status is set. */
  lemma {:induction false} SetStatusAt(nodes: seq<NodeInfo>, id: string, status: NodeStatus) returns (k: nat)
    ensures k <= |nodes| && forall j :: 0 <= j < k ==> nodes[j].id != id
    ensures k < |nodes| ==> nodes[k].id == id
    ensures SetStatus(nodes, id, status) == if k < |nodes| then nodes[k := nodes[k].(status := status)] else nodes
  {
    if nodes == [] || nodes[0].id == id {
      k := 0;
    } else {
      var r := SetStatusAt(nodes[1..], id, status);
      k := r + 1;
      assert forall j :: 0 < j < k ==> nodes[j] == nodes[1..][j - 1];
      if k < |nodes| {
        UpdateTail(nodes, r, nodes[k].(status := status));
      }
    }
  }

  /** The nodes are as before, except that every one with the id has the status. */
  predicate OnlyStatusOf(before: seq<NodeInfo>, after: seq<NodeInfo>, id: string, status: NodeStatus) {
    && |after| == |before|
    && forall i :: 0 <= i < |before| ==>
         after[i] == (if before[i].id == id then before[i].(status := status) else before[i])
  }

  /** With unique ids, exactly the node with the id gets the status. */
  lemma SetStatusIs(nodes: seq<NodeInfo>, id: string, status: NodeStatus)
    requires IdsUnique(nodes)
    ensures OnlyStatusOf(nodes, SetStatus(nodes, id, status), id, status)
    ensures id !in Ids(nodes) ==> SetStatus(nodes, id, status) == nodes
  {
    var k := SetStatusAt(nodes, id, status);
    FirstIsOnly(nodes, id, k);
    assert k < |nodes| ==> Ids(nodes)[k] == id;
  }

  /** The first node with an id is the only one. */
  lemma FirstIsOnly(nodes: seq<NodeInfo>, id: string, k: nat)
    requires IdsUnique(nodes) && k <= |nodes| && (forall j :: 0 <= j < k ==> nodes[j].id != id)
    requires k < |nodes| ==> nodes[k].id == id
    ensures forall i :: 0 <= i < |nodes| && nodes[i].id == id ==> i == k
  {
  }

  lemma RegisterKeeps(s: State, node: NodeInfo)
    requires Inv(s) && node.id !in s.used && node.status == Online && node.lastSeen == s.now
    ensures Inv(s.(nodes := Upsert(s.nodes, node), used := s.used + {node.id}))
  {
    var t := s.(nodes := Upsert(s.nodes, node), used := s.used + {node.id});
    UpsertKeepsNames(s.nodes, node);
    forall n | n in s.nodes ensures n.id != node.id {
      assert n.id in s.used;
    }
    UpsertKeepsIds(s.nodes, node);
    UpsertIs(s.nodes, node);
    assert HistoryOf(s, node.id) == [];
    forall n | n in t.nodes
      ensures n.id in t.used && n.lastSeen <= t.now && StatusFits(n, HistoryOf(t, n.id), t.now)
    {
      assert n == node || n in s.nodes;
    }
  }

  lemma UpsertKeepsNames(nodes: seq<NodeInfo>, node: NodeInfo)
    requires NamesUnique(nodes)
    ensures NamesUnique(Upsert(nodes, node))
  {
    var t := Upsert(nodes, node);
    var k := UpsertAt(nodes, node);
    assert t[k] == node && forall i :: 0 <= i < |t| && i != k ==> t[i] == nodes[i];
    forall i, j | 0 <= i < j < |t| ensures t[i].name != t[j].name {
      if i == k { assert nodes[k].name != nodes[j].name; }
    }
  }

  lemma UpsertKeepsIds(nodes: seq<NodeInfo>, node: NodeInfo)
    requires IdsUnique(nodes) && forall n :: n in nodes ==> n.id != node.id
    ensures IdsUnique(Upsert(nodes, node))
  {
    var t := Upsert(nodes, node);
    var k := UpsertAt(nodes, node);
    assert t[k] == node && forall i :: 0 <= i < |t| && i != k ==> t[i] == nodes[i] && nodes[i] in nodes;
  }

  /** What an upsert adds, and what it keeps. */
  lemma UpsertIs(nodes: seq<NodeInfo>, node: NodeInfo)
    ensures var t := Upsert(nodes, node);
      && node in t
      && (forall n :: n in t ==> n == node || n in nodes)
      && (forall n :: n in nodes && n.name != node.name ==> n in t)
  {
    var t := Upsert(nodes, node);
    var k := UpsertAt(nodes, node);
    assert t[k] == node && forall i :: 0 <= i < |t| && i != k ==> t[i] == nodes[i];
    forall n | n in nodes && n.name != node.name ensures n in t {
      var i :| 0 <= i < |nodes| && nodes[i] == n;
      assert t[i] == n;
    }
  }

  lemma ProbeKeeps(s: State, id: string, success: bool)
    requires Inv(s) && id in s.used
    ensures Inv(Probed(s, id, success))
  {
    var t := Probed(s, id, success);
    ProbeCounts(s, id, success);
    forall other ensures Counter(t.failureCounts, other) == TrailingFailures(HistoryOf(t, other)) {
      assert Counter(s.failureCounts, other) == TrailingFailures(HistoryOf(s, other));
    }
    ProbeKeepsNodes(s, t, id, Classify(TrailingFailures(HistoryOf(t, id))));
  }

  /** A probe keeps the counter of its id at the trailing run of failures. */
  lemma ProbeCounts(s: State, id: string, success: bool)
    requires CountersOk(s)
    ensures Counter(CountProbe(s.failureCounts, id, success), id) == TrailingFailures(HistoryOf(s, id) + [success])
  {
    var before := HistoryOf(s, id);
    assert Counter(s.failureCounts, id) == TrailingFailures(before);
    assert (before + [success])[..|before|] == before;
  }

  lemma OnlyStatusKeepsUnique(before: seq<NodeInfo>, after: seq<NodeInfo>, id: string, status: NodeStatus)
    requires NamesUnique(before) && IdsUnique(before) && OnlyStatusOf(before, after, id, status)
    ensures NamesUnique(after) && IdsUnique(after)
  {
    assert forall i :: 0 <= i < |before| ==> after[i].name == before[i].name && after[i].id == before[i].id;
  }

  lemma ProbeKeepsNodes(s: State, t: State, id: string, status: NodeStatus)
    requires NamesUnique(s.nodes) && IdsUnique(s.nodes) && NodesOk(s)
    requires t.nodes == SetStatus(s.nodes, id, status) && t.now == s.now && t.used == s.used
    requires status == Classify(TrailingFailures(HistoryOf(t, id)))
    requires forall other :: other != id ==> HistoryOf(t, other) == HistoryOf(s, other)
    ensures NamesUnique(t.nodes) && IdsUnique(t.nodes) && NodesOk(t)
  {
    SetStatusIs(s.nodes, id, status);
    OnlyStatusKeepsUnique(s.nodes, t.nodes, id, status);
    forall n | n in t.nodes
      ensures n.id in t.used && n.lastSeen <= t.now && StatusFits(n, HistoryOf(t, n.id), t.now)
    {
      var i :| 0 <= i < |t.nodes| && t.nodes[i] == n;
      assert s.nodes[i] in s.nodes;
    }
  }

  lemma SweepKeeps(s: State)
    requires Inv(s)
    ensures Inv(s.(nodes := SweepAll(s.nodes, s.now)))
  {
    var t := s.(nodes := SweepAll(s.nodes, s.now));
    forall n | n in t.nodes
      ensures n.id in t.used && n.lastSeen <= t.now && StatusFits(n, HistoryOf(t, n.id), t.now)
    {
      var i :| 0 <= i < |t.nodes| && t.nodes[i] == n;
      assert s.nodes[i] in s.nodes;
    }
  }

  lemma AdvanceKeeps(s: State, to: real)
    requires Inv(s) && to >= s.now
    ensures Inv(s.(now := to))
  {
    var t := s.(now := to);
    forall n | n in t.nodes
      ensures n.id in t.used && n.lastSeen <= t.now && StatusFits(n, HistoryOf(t, n.id), t.now)
    {
      assert n in s.nodes;
    }
    forall id ensures Counter(t.failureCounts, id) == TrailingFailures(HistoryOf(t, id)) {
      assert Counter(s.failureCounts, id) == TrailingFailures(HistoryOf(s, id));
    }
  }

  /** Only what is still to be probed changes, to ids that have been handed out. */
  lemma PendingKeeps(s: State, pending: seq<string>)
    requires Inv(s) && forall id :: id in pending ==> id in s.used
    ensures Inv(s.(pending := pending))
  {
    var t := s.(pending := pending);
    forall n | n in t.nodes
      ensures n.id in t.used && n.lastSeen <= t.now && StatusFits(n, HistoryOf(t, n.id), t.now)
    {
      assert n in s.nodes;
    }
    forall id ensures Counter(t.failureCounts, id) == TrailingFailures(HistoryOf(t, id)) {
      assert Counter(s.failureCounts, id) == TrailingFailures(HistoryOf(s, id));
    }
  }

  lemma StepKeeps(s: State, a: Action)
    requires Inv(s)
    ensures Inv(Apply(s, a))
  {
    match a
    case Advance(to) => if to >= s.now { AdvanceKeeps(s, to); }
    case Register(name, id, host, port, agentPort, gpuName, vramMb) =>
      if id !in s.used {
        RegisterKeeps(s, NewNode(name, id, host, port, agentPort, gpuName, vramMb, s.now));
      }
    case Snapshot =>
      if s.pending == [] {
        forall id | id in Ids(s.nodes) ensures id in s.used {
          var i :| 0 <= i < |s.nodes| && Ids(s.nodes)[i] == id;
          assert s.nodes[i] in s.nodes;
        }
        PendingKeeps(s, Ids(s.nodes));
      }
    case ProbeResult(success) =>
      if s.pending != [] {
        var id := s.pending[0];
        ProbeKeeps(s, id, success);
        PendingKeeps(Probed(s, id, success), s.pending[1..]);
      }
    case Sweep => SweepKeeps(s);
  }

  // ----- Main results

  lemma {:induction false} RunKeeps(s: State, actions: seq<Action>)
    requires Inv(s)
    ensures Inv(Exec(s, actions))
    decreases |actions|
  {
    if actions != [] {
      StepKeeps(s, actions[0]);
      RunKeeps(Apply(s, actions[0]), actions[1..]);
    }
  }

  /**
   Over every interleaving: names and ids stay unique, each counter is the trailing run of failures of its id, and
   each node's status is what the probes of its present id say, unless it is offline and its heartbeat is stale.
   */
  lemma LifecycleInvariant(now: real, actions: seq<Action>)
    ensures var s := Exec(InitialState(now), actions);
      && NamesUnique(s.nodes) && IdsUnique(s.nodes) && CountersOk(s)
      && forall n :: n in s.nodes ==> StatusFits(n, HistoryOf(s, n.id), s.now)
  {
    RunKeeps(InitialState(now), actions);
  }

  /** Registration resets a node: its new id has no probes, so only three failures in a row of that id can degrade it. */
  lemma DegradedNeedsThreeProbes(s: State, n: NodeInfo)
    requires Inv(s) && n in s.nodes && (n.status == Degraded || (n.status == Offline && !Stale(n, s.now)))
    ensures |HistoryOf(s, n.id)| >= 3
    ensures var h := HistoryOf(s, n.id); !h[|h| - 1] && !h[|h| - 2] && !h[|h| - 3]
  {
    RunOfFailures(HistoryOf(s, n.id), 3);
  }

  lemma {:induction false} RunOfFailures(history: seq<bool>, n: nat)
    requires TrailingFailures(history) >= n
    ensures |history| >= n && forall i :: |history| - n <= i < |history| ==> !history[i]
  {
    if n > 0 {
      RunOfFailures(history[..|history| - 1], n - 1);
    }
  }

  lemma NameIsOnly(nodes: seq<NodeInfo>, a: NodeInfo, b: NodeInfo)
    requires NamesUnique(nodes) && a in nodes && b in nodes && a.name == b.name
    ensures a == b
  {
    var i :| 0 <= i < |nodes| && nodes[i] == a;
    var j :| 0 <= j < |nodes| && nodes[j] == b;
    assert i == j;
  }

  /**
   A probe result for an id that re-registration has replaced leaves every node as it is; one for a current id
   changes no other node.
   */
  lemma ProbeTouchesOnlyItsId(s: State, success: bool)
    requires IdsUnique(s.nodes) && CountersOk(s) && s.pending != []
    ensures var t, id := Apply(s, ProbeResult(success)), s.pending[0];
      && OnlyStatusOf(s.nodes, t.nodes, id, Classify(TrailingFailures(HistoryOf(s, id) + [success])))
      && (id !in Ids(s.nodes) ==> t.nodes == s.nodes)
  {
    var id := s.pending[0];
    ProbeCounts(s, id, success);
    SetStatusIs(s.nodes, id, Classify(TrailingFailures(HistoryOf(s, id) + [success])));
  }

  /** Re-registration replaces the node of that name, under an id no pending probe refers to. */
  lemma ReRegistrationEscapesProbes(s: State, name: string, id: string, host: string, port: nat, agentPort: nat,
                                    gpuName: string, vramMb: nat)
    requires Inv(s) && id !in s.used
    ensures var t := Apply(s, Register(name, id, host, port, agentPort, gpuName, vramMb));
      && (forall n :: n in t.nodes && n.name == name ==>
            n == NodeInfo(id, name, host, port, agentPort, gpuName, vramMb, Online, s.now, s.now))
      && (exists n :: n in t.nodes && n.name == name)
      && (forall n :: n in s.nodes && n.name != name ==> n in t.nodes)
      && id !in t.pending
  {
    var node := NewNode(name, id, host, port, agentPort, gpuName, vramMb, s.now);
    var t := Upsert(s.nodes, node);
    UpsertIs(s.nodes, node);
    UpsertKeepsNames(s.nodes, node);
    forall n | n in t && n.name == name ensures n == node {
      NameIsOnly(t, n, node);
    }
  }

  /** Right after a sweep every node not heard of for 90 seconds is offline, and no other node has been touched. */
  lemma SweepIsExact(nodes: seq<NodeInfo>, now: real)
    ensures var r := SweepAll(nodes, now);
      && |r| == |nodes|
      && forall i :: 0 <= i < |nodes| ==>
           r[i] == (if now - nodes[i].lastSeen > 90.0 then nodes[i].(status := Offline) else nodes[i])
  {
  }

  /** Sweeping twice is sweeping once, at the later of the two times. */
  lemma SweepsCompose(nodes: seq<NodeInfo>, t1: real, t2: real)
    ensures SweepAll(SweepAll(nodes, t1), t2) == SweepAll(nodes, if t1 <= t2 then t2 else t1)
  {
    var r := SweepAll(SweepAll(nodes, t1), t2);
    forall i | 0 <= i < |nodes| ensures r[i] == SweepAll(nodes, if t1 <= t2 then t2 else t1)[i] {
      assert SweepAll(nodes, t1)[i] == Swept(nodes[i], t1);
    }
  }

  /**
   The sweep's verdict on a node lasts only until the next probe of it: even a failed probe overrules it, however stale
   the node, and leaves it offline exactly if it is the tenth failure in a row or a later one.
   */
  lemma ProbeOverrulesSweep(s: State, i: nat, success: bool)
    requires Inv(s) && i < |s.nodes| && Stale(s.nodes[i], s.now)
    requires s.pending != [] && s.pending[0] == s.nodes[i].id
    ensures var swept := Apply(s, Sweep);
      && swept.nodes[i].status == Offline
      && var probed := Apply(swept, ProbeResult(success));
         && |probed.nodes| == |s.nodes| && Stale(probed.nodes[i], probed.now)
         && (probed.nodes[i].status == Offline <==>
               TrailingFailures(HistoryOf(s, s.nodes[i].id) + [success]) >= 10)
  {
    var swept := Apply(s, Sweep);
    SweepKeeps(s);
    ProbeTouchesOnlyItsId(swept, success);
  }

  // ----- Routing

  lemma IdsAreDistinctKeys(nodes: seq<NodeInfo>)
    requires IdsUnique(nodes)
    ensures Distinct(Keys(NodeId(), nodes))
  {
    KeysAt(NodeId(), nodes);
  }

  /**
   In every reachable state, every shard of every candidate plan runs on a registered node that is online and whose
   last three probes did not all fail.
   */
  lemma RoutingAvoidsFailingNodes(now: real, actions: seq<Action>, spec: ModelSpec, stats: Stats, counter: nat,
                                  plan: ShardPlan, a: ShardAssignment) returns (n: NodeInfo)
    requires var s := Exec(InitialState(now), actions);
      && Plannable(spec) && Untruncated(spec, s.nodes)
      && plan in Candidates(spec, s.nodes, stats, counter) && a in plan.assignments
    ensures var s := Exec(InitialState(now), actions);
      && n in s.nodes && n.status == Online && PlacedOn(a, n)
      && TrailingFailures(HistoryOf(s, n.id)) < 3
  {
    var s := Exec(InitialState(now), actions);
    RunKeeps(InitialState(now), actions);
    n := CandidatesRunOnOnlineNodes(spec, s.nodes, stats, counter, plan, a);
    assert StatusFits(n, HistoryOf(s, n.id), s.now);
  }

  /** Right after a sweep, every shard of every candidate plan runs on a node heard of lately. */
  lemma RoutingAfterSweepIsFresh(nodes: seq<NodeInfo>, now: real, spec: ModelSpec, stats: Stats, counter: nat,
                                 plan: ShardPlan, a: ShardAssignment) returns (n: NodeInfo)
    requires Plannable(spec) && Untruncated(spec, SweepAll(nodes, now))
    requires plan in Candidates(spec, SweepAll(nodes, now), stats, counter) && a in plan.assignments
    ensures n in nodes && n.status == Online && PlacedOn(a, n) && now - n.lastSeen <= 90.0
  {
    n := CandidatesRunOnOnlineNodes(spec, SweepAll(nodes, now), stats, counter, plan, a);
    var i :| 0 <= i < |nodes| && SweepAll(nodes, now)[i] == n;
    assert nodes[i] == n;
  }

  /** In every reachable state, one request tries no node twice. */
  lemma RoutingTriesNodesOnce(now: real, actions: seq<Action>, spec: ModelSpec, stats: Stats, counter: nat)
    requires Plannable(spec) && Untruncated(spec, Exec(InitialState(now), actions).nodes)
    ensures TriesNodesOnce(Candidates(spec, Exec(InitialState(now), actions).nodes, stats, counter))
  {
    var s := Exec(InitialState(now), actions);
    RunKeeps(InitialState(now), actions);
    IdsAreDistinctKeys(s.nodes);
    TriedOnce(spec, s.nodes, stats, counter);
  }
}
