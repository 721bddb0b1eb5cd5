/**
 The agent's registration loop, which doubles as its heartbeat: 30 seconds between successful requests, and a
 doubling pause after a failed one.  The gateway stamps `lastSeen` while it handles a request.
 */
module Heartbeat {
  import opened Health
  import opened Lifecycle
  import opened Nodes
  import opened Prelude

  const HEARTBEAT: nat := 30
  const FIRST_BACKOFF: nat := 2
  const MAX_BACKOFF: nat := 120
  const REQUEST_TIMEOUT := 10.0

  /** One request: how long it took, whether it was answered with success, and when after its start it was stamped. */
  datatype Attempt = Attempt(duration: real, ok: bool, stampedAfter: real)

  predicate InTime(a: Attempt) {
    0.0 <= a.stampedAfter <= a.duration <= REQUEST_TIMEOUT
  }

  function Sleep(backoff: nat, ok: bool): nat {
    if ok then HEARTBEAT else backoff
  }

  function NextBackoff(backoff: nat, ok: bool): nat {
    if ok then FIRST_BACKOFF else Min(backoff * 2, MAX_BACKOFF)
  }

  /** The pause a failure of attempt `i` would bring. */
  function BackoffAt(attempts: seq<Attempt>, i: nat): nat
    requires i <= |attempts|
  {
    if i == 0 then FIRST_BACKOFF else NextBackoff(BackoffAt(attempts, i - 1), attempts[i - 1].ok)
  }

  /** When attempt `i` starts. */
  function StartOf(attempts: seq<Attempt>, t0: real, i: nat): real
    requires i <= |attempts|
  {
    if i == 0 then t0
    else StartOf(attempts, t0, i - 1) + attempts[i - 1].duration
         + Sleep(BackoffAt(attempts, i - 1), attempts[i - 1].ok) as real
  }

  /** When the first `n + 1` attempts start. */
  function Starts(attempts: seq<Attempt>, t0: real, n: nat): seq<real>
    requires n <= |attempts|
  {
    (if n == 0 then [] else Starts(attempts, t0, n - 1)) + [StartOf(attempts, t0, n)]
  }

  lemma {:induction false} StartsAre(attempts: seq<Attempt>, t0: real, n: nat)
    requires n <= |attempts|
    ensures |Starts(attempts, t0, n)| == n + 1
    ensures forall i :: 0 <= i <= n ==> Starts(attempts, t0, n)[i] == StartOf(attempts, t0, i)
  {
    if n > 0 {
      StartsAre(attempts, t0, n - 1);
    }
  }

  class Agent {
    var registrationOk: bool

    constructor ()
      ensures !registrationOk
    {
      registrationOk := false;
    }

    /** `register_loop` for as long as the given attempts last; `starts` are the times at which requests are sent. */
    method RegisterLoop(attempts: seq<Attempt>, t0: real) returns (starts: seq<real>)
      modifies this
      ensures |starts| == |attempts| + 1 && forall i :: 0 <= i <= |attempts| ==> starts[i] == StartOf(attempts, t0, i)
      ensures registrationOk == if attempts == [] then old(registrationOk) else attempts[|attempts| - 1].ok
    {
      var backoffSecs := FIRST_BACKOFF;
      var clock := t0;
      starts := [t0];
      for i := 0 to |attempts|
        invariant clock == StartOf(attempts, t0, i) && backoffSecs == BackoffAt(attempts, i)
        invariant starts == Starts(attempts, t0, i)
        invariant registrationOk == if i == 0 then old(registrationOk) else attempts[i - 1].ok
      {
        clock := clock + attempts[i].duration;
        if attempts[i].ok {
          registrationOk := true;
          backoffSecs := FIRST_BACKOFF;
          clock := clock + HEARTBEAT as real;
        } else {
          registrationOk := false;
          clock := clock + backoffSecs as real;
          backoffSecs := Min(backoffSecs * 2, MAX_BACKOFF);
        }
        starts := starts + [clock];
      }
      StartsAre(attempts, t0, |attempts|);
    }
  }

  // ----- Runs of failures

  /** The pause after `k` failures in a row, were there one more. */
  function Doubled(k: nat): nat {
    if k == 0 then FIRST_BACKOFF else NextBackoff(Doubled(k - 1), false)
  }

  /** All pauses of `k` failures in a row. */
  function Pauses(k: nat): nat {
    if k == 0 then 0 else Pauses(k - 1) + Doubled(k - 1)
  }

  function Pow2(k: nat): nat {
    if k == 0 then 1 else 2 * Pow2(k - 1)
  }

  /** The time the `k` requests from `from` on took. */
  function Spent(attempts: seq<Attempt>, from: nat, k: nat): real
    requires from + k <= |attempts|
  {
    if k == 0 then 0.0 else Spent(attempts, from, k - 1) + attempts[from + k - 1].duration
  }

  function SeenAt(attempts: seq<Attempt>, t0: real, i: nat): real
    requires i < |attempts|
  {
    StartOf(attempts, t0, i) + attempts[i].stampedAfter
  }

  /** Two successes with `k` failures, and nothing else, between them. */
  predicate IsGap(attempts: seq<Attempt>, i: nat, k: nat) {
    && i + k + 1 < |attempts| && attempts[i].ok && attempts[i + k + 1].ok
    && (forall j :: i < j <= i + k ==> !attempts[j].ok)
    && (forall j :: i <= j <= i + k + 1 ==> InTime(attempts[j]))
  }

  function Gap(attempts: seq<Attempt>, i: nat, k: nat): real
    requires IsGap(attempts, i, k)
  {
    SeenAt(attempts, 0.0, i + k + 1) - SeenAt(attempts, 0.0, i)
  }

  /** Pauses double up to 64 seconds and stay at 120 from the seventh on. */
  lemma {:induction false} PausesAre(k: nat)
    ensures k <= 6 ==> Pauses(k) == Pow2(k + 1) - 2
    ensures k <= 5 ==> Doubled(k) == Pow2(k + 1)
    ensures k > 5 ==> Doubled(k) == 120 && Pauses(k) == 126 + (k - 6) * 120
  {
    if k > 0 {
      PausesAre(k - 1);
      if k <= 6 { SmallPowers(k); }
    }
  }

  lemma SmallPowers(k: nat)
    requires k <= 6
    ensures k <= 5 ==> Pow2(k) <= 32
    ensures Pow2(6) == 64 && Pow2(7) == 128
  {
    assert Pow2(1) == 2 && Pow2(2) == 4 && Pow2(3) == 8 && Pow2(4) == 16 && Pow2(5) == 32 && Pow2(6) == 64;
    assert k == 0 || k == 1 || k == 2 || k == 3 || k == 4 || k == 5 || k == 6;
  }

  /** After a success and `k` failures the loop has slept once for the heartbeat and once for each pause. */
  lemma {:induction false} AfterFailures(attempts: seq<Attempt>, t0: real, i: nat, k: nat)
    requires i + k < |attempts| && attempts[i].ok && forall j :: i < j <= i + k ==> !attempts[j].ok
    ensures BackoffAt(attempts, i + k + 1) == Doubled(k)
    ensures StartOf(attempts, t0, i + k + 1) ==
            StartOf(attempts, t0, i) + attempts[i].duration + HEARTBEAT as real + Spent(attempts, i + 1, k) + Pauses(k) as real
  {
    if k > 0 {
      AfterFailures(attempts, t0, i, k - 1);
    }
  }

  /** Before the first success the loop has slept once for each pause: the first is as short as after a success. */
  lemma {:induction false} FromTheStart(attempts: seq<Attempt>, t0: real, k: nat)
    requires k <= |attempts| && forall j :: 0 <= j < k ==> !attempts[j].ok
    ensures BackoffAt(attempts, k) == Doubled(k)
    ensures StartOf(attempts, t0, k) == t0 + Spent(attempts, 0, k) + Pauses(k) as real
  {
    if k > 0 {
      FromTheStart(attempts, t0, k - 1);
    }
  }

  lemma {:induction false} SpentWithin(attempts: seq<Attempt>, from: nat, k: nat)
    requires from + k <= |attempts| && forall j :: from <= j < from + k ==> InTime(attempts[j])
    ensures 0.0 <= Spent(attempts, from, k) <= 10.0 * k as real
    ensures (forall j :: from <= j < from + k ==> attempts[j].duration == REQUEST_TIMEOUT) ==>
              Spent(attempts, from, k) == 10.0 * k as real
  {
    if k > 0 {
      SpentWithin(attempts, from, k - 1);
    }
  }

  /** The start time does not matter to what lies between two stamps. */
  lemma GapIs(attempts: seq<Attempt>, t0: real, i: nat, k: nat)
    requires IsGap(attempts, i, k)
    ensures SeenAt(attempts, t0, i + k + 1) - SeenAt(attempts, t0, i) == Gap(attempts, i, k)
    ensures Gap(attempts, i, k) == attempts[i].duration - attempts[i].stampedAfter + 30.0
                                   + Spent(attempts, i + 1, k) + Pauses(k) as real + attempts[i + k + 1].stampedAfter
  {
    AfterFailures(attempts, t0, i, k);
    AfterFailures(attempts, 0.0, i, k);
  }

  // ----- Main results

  function WorstGap(k: nat): real {
    30.0 + 10.0 * (k + 2) as real + Pauses(k) as real
  }

  /** Between two stamps with `k` failures in between pass at least the pauses and at most 10 seconds a request more. */
  lemma GapBounds(attempts: seq<Attempt>, i: nat, k: nat)
    requires IsGap(attempts, i, k)
    ensures 30.0 + Pauses(k) as real <= Gap(attempts, i, k) <= WorstGap(k)
    ensures k <= 6 ==> Gap(attempts, i, k) <= 30.0 + 10.0 * (k + 2) as real + (Pow2(k + 1) - 2) as real
  {
    GapIs(attempts, 0.0, i, k);
    SpentWithin(attempts, i + 1, k);
    PausesAre(k);
  }

  /** Stamped at once, `k` time-outs, and stamped at the very end. */
  function Slowest(k: nat): seq<Attempt> {
    [Attempt(10.0, true, 0.0)] + seq(k, _ => Attempt(10.0, false, 10.0)) + [Attempt(10.0, true, 10.0)]
  }

  /** The upper bound is reached. */
  lemma WorstGapIsReached(k: nat)
    ensures IsGap(Slowest(k), 0, k) && Gap(Slowest(k), 0, k) == WorstGap(k)
  {
    var attempts := Slowest(k);
    assert forall j :: 0 < j <= k ==> attempts[j] == Attempt(10.0, false, 10.0);
    GapIs(attempts, 0.0, 0, k);
    SpentWithin(attempts, 1, k);
  }

  /** Every gap with `k` failures is too short for the sweep to see a stale heartbeat inside it. */
  ghost predicate Harmless(k: nat) {
    forall attempts: seq<Attempt>, i: nat :: IsGap(attempts, i, k) ==> Gap(attempts, i, k) <= 90.0
  }

  /** Two failures in a row never cost a node its place, three can. */
  lemma HarmlessIff(k: nat)
    ensures Harmless(k) <==> k <= 2
  {
    WorstGapIsReached(k);
    WorstGaps(k);
    if k <= 2 {
      forall attempts: seq<Attempt>, i: nat | IsGap(attempts, i, k) ensures Gap(attempts, i, k) <= 90.0 {
        GapBounds(attempts, i, k);
      }
    } else {
      assert IsGap(Slowest(k), 0, k);
    }
  }

  /** After the slowest run with three failures or more, a sweep just before the next stamp takes the node offline. */
  lemma ThreeFailuresCanBeSwept(k: nat, t0: real, n: NodeInfo)
    requires k > 2 && n.lastSeen == SeenAt(Slowest(k), t0, 0)
    ensures exists now :: n.lastSeen < now < SeenAt(Slowest(k), t0, k + 1) && Swept(n, now) == n.(status := Offline)
  {
    WorstGapIsReached(k);
    WorstGaps(k);
    GapIs(Slowest(k), t0, 0, k);
    var now := n.lastSeen + 92.0;
    assert Swept(n, now) == n.(status := Offline);
  }

  lemma {:induction false} WorstGaps(k: nat)
    ensures k <= 2 ==> WorstGap(k) <= 76.0
    ensures k > 2 ==> WorstGap(k) >= 94.0
  {
    assert Pauses(1) == 2 && Pauses(2) == 6 && Pauses(3) == 14;
    if k > 3 {
      WorstGaps(k - 1);
    }
  }

  // ----- Against the sweep

  /** Never three failures in a row. */
  predicate FewFailures(attempts: seq<Attempt>) {
    forall i :: 0 <= i < |attempts| - 2 ==> attempts[i].ok || attempts[i + 1].ok || attempts[i + 2].ok
  }

  /** `b` is no older than any successful registration up to `now`. */
  predicate Heard(attempts: seq<Attempt>, t0: real, now: real, b: real) {
    forall i :: 0 <= i < |attempts| && attempts[i].ok && SeenAt(attempts, t0, i) <= now ==> SeenAt(attempts, t0, i) <= b
  }

  /** The next success after `p`, at most two failures later. */
  lemma NextSuccess(attempts: seq<Attempt>, p: nat, q: nat) returns (k: nat)
    requires FewFailures(attempts) && (forall a :: a in attempts ==> InTime(a))
    requires p < q < |attempts| && attempts[p].ok && attempts[q].ok
    ensures k <= 2 && p + k + 1 <= q && IsGap(attempts, p, k)
  {
    k := if attempts[p + 1].ok then 0 else if attempts[p + 2].ok then 1 else 2;
    assert k == 2 ==> !attempts[p + 1].ok && !attempts[p + 2].ok && p + 3 <= q;
  }

  /** With never three failures in a row, the heartbeat is at most 76 seconds old at any time between two successes. */
  lemma {:induction false} StaysFresh(attempts: seq<Attempt>, t0: real, p: nat, q: nat, now: real, b: real)
    requires FewFailures(attempts) && (forall a :: a in attempts ==> InTime(a)) && Heard(attempts, t0, now, b)
    requires p < q < |attempts| && attempts[p].ok && attempts[q].ok
    requires SeenAt(attempts, t0, p) <= now <= SeenAt(attempts, t0, q)
    ensures now - b <= 76.0
    decreases q - p
  {
    var k := NextSuccess(attempts, p, q);
    GapIs(attempts, t0, p, k);
    GapBounds(attempts, p, k);
    WorstGaps(k);
    var j := p + k + 1;
    if j < q && SeenAt(attempts, t0, j) <= now {
      StaysFresh(attempts, t0, j, q, now, b);
    }
  }

  predicate Registers(s: State, a: Action, name: string) {
    a.Register? && a.name == name && a.id !in s.used
  }

  /** When `name` last registered in a run, `b` if it does not. */
  function LastBeat(s: State, actions: seq<Action>, name: string, b: Option<real>): Option<real>
    decreases |actions|
  {
    if actions == [] then b
    else LastBeat(Apply(s, actions[0]), actions[1..], name, if Registers(s, actions[0], name) then Some(s.now) else b)
  }

  ghost predicate SeenLast(nodes: seq<NodeInfo>, name: string, b: Option<real>) {
    && (b.Some? <==> exists n :: n in nodes && n.name == name)
    && forall n :: n in nodes && n.name == name ==> b == Some(n.lastSeen)
  }

  /** Only registrations of a name touch its `lastSeen`. */
  lemma StepSeen(s: State, a: Action, name: string, b: Option<real>)
    requires Inv(s) && SeenLast(s.nodes, name, b)
    ensures SeenLast(Apply(s, a).nodes, name, if Registers(s, a, name) then Some(s.now) else b)
  {
    match a
    case Register(other, id, host, port, agentPort, gpuName, vramMb) =>
      if id !in s.used {
        RegisterSeen(s, NewNode(other, id, host, port, agentPort, gpuName, vramMb, s.now), name, b);
      }
    case ProbeResult(success) =>
      if s.pending != [] {
        var id := s.pending[0];
        var k := SetStatusAt(s.nodes, id, Classify(Counter(CountProbe(s.failureCounts, id, success), id)));
        SameStamps(s.nodes, Apply(s, a).nodes, name, b);
      }
    case Sweep => SameStamps(s.nodes, Apply(s, a).nodes, name, b);
    case _ =>
  }

  lemma SameStamps(nodes: seq<NodeInfo>, after: seq<NodeInfo>, name: string, b: Option<real>)
    requires SeenLast(nodes, name, b) && |after| == |nodes|
    requires forall i :: 0 <= i < |nodes| ==> after[i].name == nodes[i].name && after[i].lastSeen == nodes[i].lastSeen
    ensures SeenLast(after, name, b)
  {
    if b.Some? {
      var n :| n in nodes && n.name == name;
      var i :| 0 <= i < |nodes| && nodes[i] == n;
      assert after[i] in after;
    }
    forall n | n in after && n.name == name ensures b == Some(n.lastSeen) {
      var i :| 0 <= i < |after| && after[i] == n;
      assert nodes[i] in nodes;
    }
  }

  lemma RegisterSeen(s: State, node: NodeInfo, name: string, b: Option<real>)
    requires NamesUnique(s.nodes) && SeenLast(s.nodes, name, b)
    ensures SeenLast(Upsert(s.nodes, node), name, if node.name == name then Some(node.lastSeen) else b)
  {
    var t := Upsert(s.nodes, node);
    var k := UpsertAt(s.nodes, node);
    assert t[k] == node && forall i :: 0 <= i < |t| && i != k ==> t[i] == s.nodes[i];
    forall n | n in t && n.name == name ensures n == node || (n in s.nodes && node.name != name) {
      var i :| 0 <= i < |t| && t[i] == n;
    }
    if node.name != name && b.Some? {
      var n :| n in s.nodes && n.name == name;
      var i :| 0 <= i < |s.nodes| && s.nodes[i] == n;
      assert t[i] == n;
    }
  }

  lemma {:induction false} RunSeen(s: State, actions: seq<Action>, name: string, b: Option<real>)
    requires Inv(s) && SeenLast(s.nodes, name, b)
    ensures SeenLast(Exec(s, actions).nodes, name, LastBeat(s, actions, name, b))
    decreases |actions|
  {
    if actions != [] {
      StepKeeps(s, actions[0]);
      StepSeen(s, actions[0], name, b);
      RunSeen(Apply(s, actions[0]), actions[1..], name, if Registers(s, actions[0], name) then Some(s.now) else b);
    }
  }

  /**
   Over every interleaving of registrations, probes and sweeps: while an agent never fails three times in a row, and
   each of its successful requests is a registration, a sweep leaves its node as it is.
   */
  lemma SweepSparesTheSteady(start: real, actions: seq<Action>, name: string,
                             attempts: seq<Attempt>, t0: real, p: nat, q: nat)
    requires FewFailures(attempts) && (forall a :: a in attempts ==> InTime(a))
    requires p < q < |attempts| && attempts[p].ok && attempts[q].ok
    requires var now := Exec(InitialState(start), actions).now;
      && SeenAt(attempts, t0, p) <= now <= SeenAt(attempts, t0, q)
      && var b := LastBeat(InitialState(start), actions, name, None); b.Some? && Heard(attempts, t0, now, b.value)
    ensures var s := Exec(InitialState(start), actions);
      && (exists n :: n in s.nodes && n.name == name)
      && forall i :: 0 <= i < |s.nodes| && s.nodes[i].name == name ==>
           !Stale(s.nodes[i], s.now) && Apply(s, Sweep).nodes[i] == s.nodes[i]
  {
    var s := Exec(InitialState(start), actions);
    var b := LastBeat(InitialState(start), actions, name, None);
    RunSeen(InitialState(start), actions, name, None);
    StaysFresh(attempts, t0, p, q, s.now, b.value);
    forall i | 0 <= i < |s.nodes| && s.nodes[i].name == name
      ensures !Stale(s.nodes[i], s.now) && Apply(s, Sweep).nodes[i] == s.nodes[i]
    {
      assert s.nodes[i] in s.nodes;
    }
  }
}
