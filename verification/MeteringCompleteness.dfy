/** The uninterrupted run against the interleaved steps, and what regular, successful runs add up to. */
module MeteringCompleteness {
  import opened Arithmetic
  import opened Metering
  import opened MeteringTheorems
  import opened Names
  import opened Prelude

  // ----- One gateway's run, step by step

  function CustomerSteps(g: nat, outcome: SendOutcome): seq<Action> {
    [Check(g), Read(g), Send(g, outcome), Insert(g)]
  }

  function StepsFor(g: nat, customers: seq<string>, outcome: string -> SendOutcome): seq<Action> {
    if customers == [] then [] else CustomerSteps(g, outcome(customers[0])) + StepsFor(g, customers[1..], outcome)
  }

  function RunSteps(g: nat, customers: seq<string>, outcome: string -> SendOutcome): seq<Action> {
    StepsFor(g, customers, outcome) + [Check(g)]
  }

  lemma {:induction false} ExecConcat(s: State, a: seq<Action>, b: seq<Action>)
    ensures Exec(s, a + b) == Exec(Exec(s, a), b)
    decreases |a|
  {
    if a == [] {
      assert a + b == b;
    } else {
      assert (a + b)[1..] == a[1..] + b;
      ExecConcat(Apply(s, a[0]), a[1..], b);
    }
  }

  lemma ExecFour(s: State, a: Action, b: Action, c: Action, d: Action)
    ensures Exec(s, [a, b, c, d]) == Apply(Apply(Apply(Apply(s, a), b), c), d)
  {
    ExecOne(s, a, [b, c, d]);
    ExecOne(Apply(s, a), b, [c, d]);
    ExecOne(Apply(Apply(s, a), b), c, [d]);
    ExecOne(Apply(Apply(Apply(s, a), b), c), d, []);
    assert [a] + [b, c, d] == [a, b, c, d] && [b] + [c, d] == [b, c, d] && [c] + [d] == [c, d] && [d] + [] == [d];
  }

  lemma ExecOne(s: State, a: Action, rest: seq<Action>)
    ensures Exec(s, [a] + rest) == Exec(Apply(s, a), rest)
  {
    assert ([a] + rest)[1..] == rest;
  }

  /** `s` with gateway `g` at `phase` and the given ledger. */
  function At(s: State, g: nat, phase: Phase, ledger: Ledger): State {
    State(s.now, ledger, s.gateways[g := phase])
  }

  /** One customer's steps, uninterrupted, do to the ledger what the reporter's loop body does. */
  lemma CustomerRefines(s: State, g: nat, start: int, todo: seq<string>, outcome: SendOutcome)
    requires todo != [] && PhaseOf(s, g) == Checking(start, todo)
    ensures Exec(s, CustomerSteps(g, outcome)) ==
      At(s, g, Checking(start, todo[1..]), ReportCustomer(s.ledger, start, todo[0], outcome))
  {
    var next := Checking(start, todo[1..]);
    ExecFour(s, Check(g), Read(g), Send(g, outcome), Insert(g));
    var s1 := Apply(s, Check(g));
    if (todo[0], start) in s.ledger.reports {
      assert s1 == At(s, g, next, s.ledger);
    } else {
      assert s1 == At(s, g, Reading(start, todo), s.ledger);
      AfterRead(s1, g, start, todo, outcome);
      var l := ReportCustomer(s.ledger, start, todo[0], outcome);
      assert s.gateways[g := Reading(start, todo)][g := next] == s.gateways[g := next];
      assert At(s1, g, next, l) == At(s, g, next, l);
    }
  }

  lemma AfterRead(s: State, g: nat, start: int, todo: seq<string>, outcome: SendOutcome)
    requires todo != [] && PhaseOf(s, g) == Reading(start, todo) && (todo[0], start) !in s.ledger.reports
    ensures Apply(Apply(Apply(s, Read(g)), Send(g, outcome)), Insert(g)) ==
      At(s, g, Checking(start, todo[1..]), ReportCustomer(s.ledger, start, todo[0], outcome))
  {
    var tin := TokensIn(s.ledger.rows, todo[0], start, start + HOUR);
    var tout := TokensOut(s.ledger.rows, todo[0], start, start + HOUR);
    var s2 := Apply(s, Read(g));
    if tin + 2 * tout > 0 {
      var p := Sending(start, todo, tin, tout);
      assert s2 == At(s, g, p, s.ledger);
      SendIs(s2, g, outcome);
      var s3 := Apply(s2, Send(g, outcome));
      assert s.gateways[g := p][g := AfterSend(p, outcome)] == s.gateways[g := AfterSend(p, outcome)];
      assert s3.gateways[g := Checking(start, todo[1..])] == s.gateways[g := Checking(start, todo[1..])];
    }
  }

  lemma {:induction false} ReportFirst(ledger: Ledger, start: int, customers: seq<string>, outcome: string -> SendOutcome)
    requires customers != []
    ensures ReportAll(ledger, start, customers, outcome) ==
      ReportAll(ReportCustomer(ledger, start, customers[0], outcome(customers[0])), start, customers[1..], outcome)
  {
    var last := |customers| - 1;
    if last == 0 {
      assert customers[..0] == [] && customers[1..] == [];
    } else {
      ReportFirst(ledger, start, customers[..last], outcome);
      assert customers[..last][1..] == customers[1..][..last - 1];
      assert customers[1..][last - 1] == customers[last];
    }
  }

  lemma {:induction false} StepsRefine(s: State, g: nat, start: int, customers: seq<string>, rest: seq<string>,
                                       outcome: string -> SendOutcome)
    requires PhaseOf(s, g) == Checking(start, customers + rest) && g in s.gateways
    ensures Exec(s, StepsFor(g, customers, outcome)) ==
      At(s, g, Checking(start, rest), ReportAll(s.ledger, start, customers, outcome))
    decreases |customers|
  {
    if customers == [] {
      assert [] + rest == rest;
      assert s.gateways[g := Checking(start, rest)] == s.gateways;
    } else {
      var steps := CustomerSteps(g, outcome(customers[0]));
      var todo, later := customers + rest, customers[1..] + rest;
      assert todo[1..] == later;
      ExecConcat(s, steps, StepsFor(g, customers[1..], outcome));
      CustomerRefines(s, g, start, todo, outcome(customers[0]));
      ReportFirst(s.ledger, start, customers, outcome);
      StepsRefine(Exec(s, steps), g, start, customers[1..], rest, outcome);
      assert s.gateways[g := Checking(start, later)][g := Checking(start, rest)] == s.gateways[g := Checking(start, rest)];
    }
  }

  /** A run up to the customers in `rest`, and whatever follows. */
  lemma StartAndSteps(s: State, g: nat, customers: seq<string>, rest: seq<string>, outcome: string -> SendOutcome, last: seq<Action>)
    requires PhaseOf(s, g).Idle?
    ensures var start := HourOf(s.now) - HOUR;
      Exec(s, [Start(g, customers + rest)] + (StepsFor(g, customers, outcome) + last)) ==
        Exec(At(s, g, Checking(start, rest), ReportAll(s.ledger, start, customers, outcome)), last)
  {
    var start := HourOf(s.now) - HOUR;
    var steps := StepsFor(g, customers, outcome);
    ExecOne(s, Start(g, customers + rest), steps + last);
    var t := Apply(s, Start(g, customers + rest));
    ExecConcat(t, steps, last);
    StepsRefine(t, g, start, customers, rest, outcome);
    assert s.gateways[g := Checking(start, customers + rest)][g := Checking(start, rest)] == s.gateways[g := Checking(start, rest)];
  }

  /** The steps of one uninterrupted run; a database fault ends them as a crash would. */
  function FaultySteps(ledger: Ledger, start: int, g: nat, customers: seq<string>, outcome: string -> SendOutcome, fault: Fault): seq<Action> {
    if !FaultStrikes(ledger, start, customers, outcome, fault) then RunSteps(g, customers, outcome)
    else
      StepsFor(g, customers[..fault.customer], outcome) +
      if fault.QueryFails? then [Crash(g)] else [Check(g), Read(g), Send(g, Accepted), Crash(g)]
  }

  /**
   With or without a database fault, an uninterrupted run of the steps changes the ledger exactly as one call of the
   reporter does, so everything proved of the interleavings holds of the reporter.
   */
  lemma ReporterIsOneInterleaving(s: State, g: nat, customers: seq<string>, outcome: string -> SendOutcome, fault: Fault)
    requires PhaseOf(s, g).Idle?
    ensures var start := HourOf(s.now) - HOUR;
      Exec(s, [Start(g, customers)] + FaultySteps(s.ledger, start, g, customers, outcome, fault)) ==
        At(s, g, Idle, ReportRun(s.ledger, start, customers, outcome, fault))
  {
    var start := HourOf(s.now) - HOUR;
    if !FaultStrikes(s.ledger, start, customers, outcome, fault) {
      FullRun(s, g, customers, outcome);
    } else {
      var done, rest := customers[..fault.customer], customers[fault.customer..];
      assert customers == done + rest;
      var ledger := ReportAll(s.ledger, start, done, outcome);
      if fault.QueryFails? {
        StartAndSteps(s, g, done, rest, outcome, [Crash(g)]);
        CrashAt(s, g, start, rest, ledger);
      } else {
        StartAndSteps(s, g, done, rest, outcome, [Check(g), Read(g), Send(g, Accepted), Crash(g)]);
        CrashAfterSend(s, g, start, rest, ledger);
      }
    }
  }

  lemma FullRun(s: State, g: nat, customers: seq<string>, outcome: string -> SendOutcome)
    requires PhaseOf(s, g).Idle?
    ensures Exec(s, [Start(g, customers)] + RunSteps(g, customers, outcome)) ==
      At(s, g, Idle, ReportAll(s.ledger, HourOf(s.now) - HOUR, customers, outcome))
  {
    var start := HourOf(s.now) - HOUR;
    assert customers + [] == customers;
    StartAndSteps(s, g, customers, [], outcome, [Check(g)]);
    var t := At(s, g, Checking(start, []), ReportAll(s.ledger, start, customers, outcome));
    ExecOne(t, Check(g), []);
    assert [Check(g)] + [] == [Check(g)];
    assert s.gateways[g := Checking(start, [])][g := Idle] == s.gateways[g := Idle];
  }

  lemma CrashAt(s: State, g: nat, start: int, rest: seq<string>, ledger: Ledger)
    ensures Exec(At(s, g, Checking(start, rest), ledger), [Crash(g)]) == At(s, g, Idle, ledger)
  {
    ExecOne(At(s, g, Checking(start, rest), ledger), Crash(g), []);
    assert [Crash(g)] + [] == [Crash(g)];
    assert s.gateways[g := Checking(start, rest)][g := Idle] == s.gateways[g := Idle];
  }

  /** A crash between the accepted report and the insert leaves what a lost answer leaves. */
  lemma CrashAfterSend(s: State, g: nat, start: int, rest: seq<string>, ledger: Ledger)
    requires rest != [] && Inserts(ledger, start, rest[0], Accepted)
    ensures Exec(At(s, g, Checking(start, rest), ledger), [Check(g), Read(g), Send(g, Accepted), Crash(g)]) ==
      At(s, g, Idle, ReportCustomer(ledger, start, rest[0], AcceptedUnanswered))
  {
    var t := At(s, g, Checking(start, rest), ledger);
    ExecFour(t, Check(g), Read(g), Send(g, Accepted), Crash(g));
    var tin := TokensIn(ledger.rows, rest[0], start, start + HOUR);
    var tout := TokensOut(ledger.rows, rest[0], start, start + HOUR);
    var u := Apply(Apply(t, Check(g)), Read(g));
    var p := Sending(start, rest, tin, tout);
    assert t.gateways[g := Reading(start, rest)][g := p] == s.gateways[g := p];
    assert u == At(s, g, p, ledger);
    SendIs(u, g, Accepted);
    assert u.gateways[g := AfterSend(p, Accepted)][g := Idle] == s.gateways[g := Idle];
  }

  // ----- Settled hours

  /** The hour of a key has been billed, if there was anything to bill. */
  predicate Settled(s: State, keyId: string, start: int) {
    Weighted(s.ledger.rows, keyId, start, start + HOUR) > 0 ==> MeterId(keyId, start) in s.ledger.events
  }

  lemma SettledStays(s: State, a: Action, keyId: string, start: int)
    requires Closed(start, s.now) && Settled(s, keyId, start)
    ensures Closed(start, Apply(s, a).now) && Settled(Apply(s, a), keyId, start)
  {
    if a.Use? {
      LateRow(s.ledger.rows, Row(a.keyId, a.tokensIn, a.tokensOut, s.now), keyId, start, start + HOUR);
    }
  }

  lemma {:induction false} SettledForGood(s: State, actions: seq<Action>, keyId: string, start: int)
    requires Closed(start, s.now) && Settled(s, keyId, start)
    ensures Closed(start, Exec(s, actions).now) && Settled(Exec(s, actions), keyId, start)
    decreases |actions|
  {
    if actions != [] {
      SettledStays(s, actions[0], keyId, start);
      SettledForGood(Apply(s, actions[0]), actions[1..], keyId, start);
    }
  }

  // ----- A run among others

  /** The hour is over, and either settled or on the list of a gateway that is working on it. */
  predicate InHand(s: State, g: nat, keyId: string, start: int) {
    && Closed(start, s.now)
    && (Settled(s, keyId, start) || OnList(PhaseOf(s, g), keyId, start))
  }

  predicate OnList(p: Phase, keyId: string, start: int) {
    !p.Idle? && p.start == start && keyId in p.todo
  }

  /** The action makes `g` give up the key: a crash, or a refused report for it. */
  predicate GivesUp(s: State, a: Action, g: nat, keyId: string) {
    var p := PhaseOf(s, g);
    a == Crash(g) || (a == Send(g, Refused) && p.Sending? && p.todo != [] && p.todo[0] == keyId)
  }

  /** Anything may happen in the run, by any gateway, but `g` does not give up the key. */
  predicate Undisturbed(s: State, actions: seq<Action>, g: nat, keyId: string)
    decreases |actions|
  {
    actions == [] || (!GivesUp(s, actions[0], g, keyId) && Undisturbed(Apply(s, actions[0]), actions[1..], g, keyId))
  }

  lemma CheckKeepsInHand(s: State, g: nat, keyId: string, start: int)
    requires Inv(s) && Closed(start, s.now) && OnList(PhaseOf(s, g), keyId, start)
    ensures InHand(Apply(s, Check(g)), g, keyId, start)
  {
    var p := PhaseOf(s, g);
    if p.Checking? && (p.todo[0], start) in s.ledger.reports && p.todo[0] == keyId {
      assert MeterId(keyId, start) in s.ledger.events;
    }
  }

  lemma ReadKeepsInHand(s: State, g: nat, keyId: string, start: int)
    requires Closed(start, s.now) && OnList(PhaseOf(s, g), keyId, start)
    ensures InHand(Apply(s, Read(g)), g, keyId, start)
  {
  }

  lemma SendKeepsInHand(s: State, g: nat, outcome: SendOutcome, keyId: string, start: int)
    requires Closed(start, s.now) && OnList(PhaseOf(s, g), keyId, start) && !GivesUp(s, Send(g, outcome), g, keyId)
    ensures InHand(Apply(s, Send(g, outcome)), g, keyId, start)
  {
    if PhaseOf(s, g).Sending? {
      SendIs(s, g, outcome);
    }
  }

  lemma InsertKeepsInHand(s: State, g: nat, keyId: string, start: int)
    requires Inv(s) && Closed(start, s.now) && OnList(PhaseOf(s, g), keyId, start)
    ensures InHand(Apply(s, Insert(g)), g, keyId, start)
  {
    var p := PhaseOf(s, g);
    PhaseFits(s, g);
    if p.Recording? && p.todo[0] == keyId {
      assert MeterId(keyId, start) in s.ledger.events;
    }
  }

  /** Who takes a step of a gateway's run. */
  predicate StepOf(a: Action, g: nat) {
    match a
    case Advance(_) => false
    case Use(_, _, _) => false
    case Start(h, _) => h == g
    case Check(h) => h == g
    case Read(h) => h == g
    case Send(h, _) => h == g
    case Insert(h) => h == g
    case Crash(h) => h == g
  }

  lemma OthersLeavePhase(s: State, a: Action, g: nat)
    requires !StepOf(a, g) || (a.Start? && !PhaseOf(s, g).Idle?)
    ensures PhaseOf(Apply(s, a), g) == PhaseOf(s, g)
  {
  }

  lemma StaysInHand(s: State, a: Action, g: nat, keyId: string, start: int)
    requires Inv(s) && InHand(s, g, keyId, start) && !GivesUp(s, a, g, keyId)
    ensures InHand(Apply(s, a), g, keyId, start)
  {
    if Settled(s, keyId, start) {
      SettledStays(s, a, keyId, start);
    } else if !StepOf(a, g) || a.Start? {
      OthersLeavePhase(s, a, g);
    } else {
      match a
      case Check(_) => CheckKeepsInHand(s, g, keyId, start);
      case Read(_) => ReadKeepsInHand(s, g, keyId, start);
      case Send(_, outcome) => SendKeepsInHand(s, g, outcome, keyId, start);
      case Insert(_) => InsertKeepsInHand(s, g, keyId, start);
    }
  }

  lemma {:induction false} RunStaysInHand(s: State, actions: seq<Action>, g: nat, keyId: string, start: int)
    requires Inv(s) && InHand(s, g, keyId, start) && Undisturbed(s, actions, g, keyId)
    ensures Inv(Exec(s, actions)) && InHand(Exec(s, actions), g, keyId, start)
    decreases |actions|
  {
    if actions != [] {
      StepKeeps(s, actions[0]);
      StaysInHand(s, actions[0], g, keyId, start);
      RunStaysInHand(Apply(s, actions[0]), actions[1..], g, keyId, start);
    }
  }

  /**
   A gateway that starts on an hour with the key among its customers, and is idle again without having crashed or
   been refused for that key, has settled the hour, whatever it and other gateways did meanwhile.
   */
  lemma FinishedRunSettles(s: State, g: nat, customers: seq<string>, during: seq<Action>, keyId: string)
    requires Inv(s) && PhaseOf(s, g).Idle? && keyId in customers
    requires Undisturbed(Apply(s, Start(g, customers)), during, g, keyId)
    requires PhaseOf(Exec(Apply(s, Start(g, customers)), during), g).Idle?
    ensures var t := Exec(Apply(s, Start(g, customers)), during);
      Inv(t) && Closed(HourOf(s.now) - HOUR, t.now) && Settled(t, keyId, HourOf(s.now) - HOUR)
  {
    HourIsClosed(s.now);
    StepKeeps(s, Start(g, customers));
    RunStaysInHand(Apply(s, Start(g, customers)), during, g, keyId, HourOf(s.now) - HOUR);
  }

  lemma {:induction false} UndisturbedConcat(s: State, a: seq<Action>, b: seq<Action>, g: nat, keyId: string)
    requires Undisturbed(s, a, g, keyId) && Undisturbed(Exec(s, a), b, g, keyId)
    ensures Undisturbed(s, a + b, g, keyId)
    decreases |a|
  {
    if a == [] {
      assert a + b == b;
    } else {
      assert (a + b)[1..] == a[1..] + b;
      UndisturbedConcat(Apply(s, a[0]), a[1..], b, g, keyId);
    }
  }

  lemma CustomerUndisturbed(s: State, g: nat, start: int, todo: seq<string>, outcome: SendOutcome, keyId: string)
    requires todo != [] && PhaseOf(s, g) == Checking(start, todo) && (todo[0] == keyId ==> outcome != Refused)
    ensures Undisturbed(s, CustomerSteps(g, outcome), g, keyId)
  {
    var s1 := Apply(s, Check(g));
    var s2 := Apply(s1, Read(g));
    var s3 := Apply(s2, Send(g, outcome));
    assert PhaseOf(s2, g).Sending? ==> PhaseOf(s2, g).todo == todo;
    assert [Insert(g)][1..] == [];
    assert Undisturbed(s3, [Insert(g)], g, keyId);
    assert [Send(g, outcome), Insert(g)][1..] == [Insert(g)];
    assert Undisturbed(s2, [Send(g, outcome), Insert(g)], g, keyId);
    assert [Read(g), Send(g, outcome), Insert(g)][1..] == [Send(g, outcome), Insert(g)];
    assert Undisturbed(s1, [Read(g), Send(g, outcome), Insert(g)], g, keyId);
    assert CustomerSteps(g, outcome)[1..] == [Read(g), Send(g, outcome), Insert(g)];
  }

  lemma {:induction false} StepsUndisturbed(s: State, g: nat, start: int, customers: seq<string>, outcome: string -> SendOutcome, keyId: string)
    requires PhaseOf(s, g) == Checking(start, customers) && outcome(keyId) != Refused
    ensures Undisturbed(s, StepsFor(g, customers, outcome), g, keyId)
    decreases |customers|
  {
    if customers != [] {
      var steps := CustomerSteps(g, outcome(customers[0]));
      CustomerUndisturbed(s, g, start, customers, outcome(customers[0]), keyId);
      CustomerRefines(s, g, start, customers, outcome(customers[0]));
      StepsUndisturbed(Exec(s, steps), g, start, customers[1..], outcome, keyId);
      UndisturbedConcat(s, steps, StepsFor(g, customers[1..], outcome), g, keyId);
    }
  }

  /** One uninterrupted run that is not refused for the key is such a run. */
  lemma UninterruptedRunFinishes(s: State, g: nat, customers: seq<string>, outcome: string -> SendOutcome, keyId: string)
    requires PhaseOf(s, g).Idle? && outcome(keyId) != Refused
    ensures var b := Apply(s, Start(g, customers));
      Undisturbed(b, RunSteps(g, customers, outcome), g, keyId) && PhaseOf(Exec(b, RunSteps(g, customers, outcome)), g).Idle?
  {
    var b := Apply(s, Start(g, customers));
    StepsUndisturbed(b, g, HourOf(s.now) - HOUR, customers, outcome, keyId);
    assert [Check(g)][1..] == [];
    UndisturbedConcat(b, StepsFor(g, customers, outcome), [Check(g)], g, keyId);
    FullRun(s, g, customers, outcome);
    ExecOne(s, Start(g, customers), RunSteps(g, customers, outcome));
  }

  // ----- Regular ticks

  function TickAt(t0: real, k: nat): real {
    t0 + (HOUR * k) as real
  }

  /** The hour reported by the `k`-th tick. */
  function ReportedHour(t0: real, k: nat): int {
    HourOf(t0) - HOUR + HOUR * k
  }

  /** Ticks exactly an hour apart report consecutive hours, without gap or overlap, wherever in the hour they fall. */
  lemma TicksReportConsecutiveHours(t0: real, k: nat)
    ensures HourOf(TickAt(t0, k)) - HOUR == ReportedHour(t0, k)
    ensures ReportedHour(t0, k + 1) == ReportedHour(t0, k) + HOUR
  {
    var h := t0.Floor / HOUR;
    assert TickAt(t0, k).Floor == t0.Floor + HOUR * k;
    DivUnique(t0.Floor + HOUR * k, HOUR, h + k);
  }

  /** One run of some gateway: what happens before it, its customers, and everything that happens until it is over. */
  datatype MeterRun = MeterRun(before: seq<Action>, gateway: nat, customers: seq<string>, during: seq<Action>)

  function AtStart(s: State, r: MeterRun): State {
    Exec(s, r.before)
  }

  function AfterStart(s: State, r: MeterRun): State {
    Apply(AtStart(s, r), Start(r.gateway, r.customers))
  }

  function AfterRun(s: State, r: MeterRun): State {
    Exec(AfterStart(s, r), r.during)
  }

  /** The run starts while `hour` is the last whole hour, and ends without having given up the key. */
  predicate Completes(s: State, r: MeterRun, keyId: string, hour: int) {
    && HourOf(AtStart(s, r).now) - HOUR == hour
    && PhaseOf(AtStart(s, r), r.gateway).Idle? && keyId in r.customers
    && Undisturbed(AfterStart(s, r), r.during, r.gateway, keyId)
    && PhaseOf(AfterRun(s, r), r.gateway).Idle?
  }

  function AfterRuns(s: State, runs: seq<MeterRun>, k: nat): State
    requires k <= |runs|
  {
    if k == 0 then s else AfterRun(AfterRuns(s, runs, k - 1), runs[k - 1])
  }

  /** Each of `k` consecutive hours, from the one due at `t0` on, has a run that completes it. */
  predicate EachHourCompleted(s: State, runs: seq<MeterRun>, keyId: string, t0: real, k: nat)
    requires k <= |runs|
  {
    k == 0 ||
    (EachHourCompleted(s, runs, keyId, t0, k - 1) &&
     Completes(AfterRuns(s, runs, k - 1), runs[k - 1], keyId, ReportedHour(t0, k - 1)))
  }

  predicate HourSettled(s: State, keyId: string, start: int) {
    Closed(start, s.now) && Settled(s, keyId, start)
  }

  lemma RunKeepsSettled(s: State, r: MeterRun, keyId: string, start: int)
    requires HourSettled(s, keyId, start)
    ensures HourSettled(AfterRun(s, r), keyId, start)
  {
    SettledForGood(s, r.before, keyId, start);
    SettledStays(AtStart(s, r), Start(r.gateway, r.customers), keyId, start);
    SettledForGood(AfterStart(s, r), r.during, keyId, start);
  }

  lemma RunSettles(s: State, r: MeterRun, keyId: string, hour: int)
    requires Inv(s) && Completes(s, r, keyId, hour)
    ensures Inv(AfterRun(s, r)) && HourSettled(AfterRun(s, r), keyId, hour)
  {
    RunKeeps(s, r.before);
    FinishedRunSettles(AtStart(s, r), r.gateway, r.customers, r.during, keyId);
  }

  lemma {:induction false} RunsSettle(s: State, runs: seq<MeterRun>, keyId: string, t0: real, k: nat)
    requires Inv(s) && k <= |runs| && EachHourCompleted(s, runs, keyId, t0, k)
    ensures var t := AfterRuns(s, runs, k);
      Inv(t) && forall i :: 0 <= i < k ==> HourSettled(t, keyId, ReportedHour(t0, i))
  {
    if k > 0 {
      RunsSettle(s, runs, keyId, t0, k - 1);
      var before := AfterRuns(s, runs, k - 1);
      RunSettles(before, runs[k - 1], keyId, ReportedHour(t0, k - 1));
      forall i | 0 <= i < k - 1 ensures HourSettled(AfterRuns(s, runs, k), keyId, ReportedHour(t0, i)) {
        RunKeepsSettled(before, runs[k - 1], keyId, ReportedHour(t0, i));
      }
    }
  }

  /** What has been accepted for a key, by hour. */
  function AcceptedFor(events: map<string, Event>, keyId: string): int -> int {
    (start: int) => if MeterId(keyId, start) in events then events[MeterId(keyId, start)].value else 0
  }

  function SumOfHours(f: int -> int, start: int, k: nat): int {
    if k == 0 then 0 else SumOfHours(f, start, k - 1) + f(start + HOUR * (k - 1))
  }

  lemma {:induction false} WeightedSplit(rows: seq<Row>, keyId: string, a: int, b: int, c: int)
    requires a <= b <= c
    ensures Weighted(rows, keyId, a, c) == Weighted(rows, keyId, a, b) + Weighted(rows, keyId, b, c)
  {
    if rows != [] {
      WeightedSplit(rows[..|rows| - 1], keyId, a, b, c);
    }
  }

  lemma {:induction false} EmptyWindow(rows: seq<Row>, keyId: string, a: int)
    ensures Weighted(rows, keyId, a, a) == 0
  {
    if rows != [] {
      EmptyWindow(rows[..|rows| - 1], keyId, a);
    }
  }

  /** What an hour is billed at when it is settled: nothing, if its usage nets negative. */
  function BillableIn(rows: seq<Row>, keyId: string): int -> int {
    (start: int) => Max(0, Weighted(rows, keyId, start, start + HOUR))
  }

  lemma SettledIsBilled(s: State, keyId: string, start: int)
    requires Inv(s) && HourSettled(s, keyId, start)
    ensures AcceptedFor(s.ledger.events, keyId)(start) == BillableIn(s.ledger.rows, keyId)(start)
  {
    var used := Weighted(s.ledger.rows, keyId, start, start + HOUR);
    assert BillableIn(s.ledger.rows, keyId)(start) == Max(0, used);
    if MeterId(keyId, start) in s.ledger.events {
      EventIsPositive(s, MeterId(keyId, start));
      RepeatIsHarmless(s, keyId, start);
      assert AcceptedFor(s.ledger.events, keyId)(start) == used;
    }
  }

  lemma EventIsPositive(s: State, id: string)
    requires Inv(s) && id in s.ledger.events
    ensures s.ledger.events[id].value > 0
  {
    assert EventOk(s.ledger.rows, s.now, id, s.ledger.events[id]);
  }

  lemma {:induction false} SameHours(f: int -> int, h: int -> int, t0: real, k: nat)
    requires forall i :: 0 <= i < k ==> f(ReportedHour(t0, i)) == h(ReportedHour(t0, i))
    ensures SumOfHours(f, ReportedHour(t0, 0), k) == SumOfHours(h, ReportedHour(t0, 0), k)
  {
    if k > 0 {
      SameHours(f, h, t0, k - 1);
      assert ReportedHour(t0, k - 1) == ReportedHour(t0, 0) + HOUR * (k - 1);
    }
  }

  /** No hour's usage nets negative. */
  predicate NoCredit(rows: seq<Row>, keyId: string, t0: real, k: nat) {
    forall i :: 0 <= i < k ==> Weighted(rows, keyId, ReportedHour(t0, i), ReportedHour(t0, i) + HOUR) >= 0
  }

  lemma {:induction false} HoursAddUp(rows: seq<Row>, keyId: string, t0: real, k: nat)
    ensures var start := ReportedHour(t0, 0);
      var billed, used := SumOfHours(BillableIn(rows, keyId), start, k), Weighted(rows, keyId, start, start + HOUR * k);
      billed >= used && (billed == used <==> NoCredit(rows, keyId, t0, k))
  {
    var start := ReportedHour(t0, 0);
    if k == 0 {
      EmptyWindow(rows, keyId, start);
    } else {
      HoursAddUp(rows, keyId, t0, k - 1);
      var last := ReportedHour(t0, k - 1);
      assert last == start + HOUR * (k - 1);
      WeightedSplit(rows, keyId, start, last, last + HOUR);
      assert BillableIn(rows, keyId)(last) == Max(0, Weighted(rows, keyId, last, last + HOUR));
    }
  }

  /**
   If each of `k` consecutive hours has a run, of whatever gateway and among whatever else happens, that completes
   the hour for a key, then the key is billed each hour's usage, once, except hours whose usage nets negative; so the
   total is the usage of the whole span exactly when no hour nets negative.
   */
  lemma MeteringIsComplete(s: State, runs: seq<MeterRun>, t0: real, keyId: string)
    requires Inv(s) && EachHourCompleted(s, runs, keyId, t0, |runs|)
    ensures var t, k, start := AfterRuns(s, runs, |runs|), |runs|, ReportedHour(t0, 0);
      var billed := SumOfHours(AcceptedFor(t.ledger.events, keyId), start, k);
      && billed == SumOfHours(BillableIn(t.ledger.rows, keyId), start, k)
      && (billed == Weighted(t.ledger.rows, keyId, start, start + HOUR * k) <==> NoCredit(t.ledger.rows, keyId, t0, k))
  {
    var t := AfterRuns(s, runs, |runs|);
    RunsSettle(s, runs, keyId, t0, |runs|);
    SettledSpan(t, keyId, t0, |runs|);
    HoursAddUp(t.ledger.rows, keyId, t0, |runs|);
  }

  /** Settled hours in a row are billed with what is billable in them. */
  lemma SettledSpan(s: State, keyId: string, t0: real, k: nat)
    requires Inv(s) && forall i :: 0 <= i < k ==> HourSettled(s, keyId, ReportedHour(t0, i))
    ensures SumOfHours(AcceptedFor(s.ledger.events, keyId), ReportedHour(t0, 0), k) ==
      SumOfHours(BillableIn(s.ledger.rows, keyId), ReportedHour(t0, 0), k)
  {
    forall i | 0 <= i < k
      ensures AcceptedFor(s.ledger.events, keyId)(ReportedHour(t0, i)) == BillableIn(s.ledger.rows, keyId)(ReportedHour(t0, i))
    {
      SettledIsBilled(s, keyId, ReportedHour(t0, i));
    }
    SameHours(AcceptedFor(s.ledger.events, keyId), BillableIn(s.ledger.rows, keyId), t0, k);
  }

  // ----- Single hours, by example

  /** A gateway's first run, two hours after `now` was an hour: `amount` input tokens were used in the hour reported. */
  function FirstHour(amount: int): State {
    Exec(InitialState(HOUR as real), [Use("k", amount, 0), Advance((2 * HOUR) as real)])
  }

  lemma FirstHourIs(amount: int)
    ensures var row := Row("k", amount, 0, HOUR as real);
      FirstHour(amount) == State((2 * HOUR) as real, Ledger([row], map[], map[]), map[])
    ensures Weighted(FirstHour(amount).ledger.rows, "k", HOUR, 2 * HOUR) == amount
    ensures HourOf((2 * HOUR) as real) - HOUR == HOUR
  {
    var s := InitialState(HOUR as real);
    ExecOne(s, Use("k", amount, 0), [Advance((2 * HOUR) as real)]);
    ExecOne(Apply(s, Use("k", amount, 0)), Advance((2 * HOUR) as real), []);
    assert [Advance((2 * HOUR) as real)] + [] == [Advance((2 * HOUR) as real)];
    assert [Use("k", amount, 0)] + [Advance((2 * HOUR) as real)] == [Use("k", amount, 0), Advance((2 * HOUR) as real)];
    var row := Row("k", amount, 0, HOUR as real);
    assert [row][..0] == [];
    assert TokensIn([row], "k", HOUR, 2 * HOUR) == amount && TokensOut([row], "k", HOUR, 2 * HOUR) == 0;
    assert ((2 * HOUR) as real).Floor == 2 * HOUR;
  }

  /** An hour whose usage nets negative is not billed, so a negative token count is never made up for. */
  lemma CreditIsNotBilled(amount: int, outcome: string -> SendOutcome)
    requires amount < 0
    ensures var s := FirstHour(amount);
      var t := Exec(s, [Start(0, ["k"])] + RunSteps(0, ["k"], outcome));
      t.ledger.events == map[] && Weighted(t.ledger.rows, "k", HOUR, 2 * HOUR) == amount
  {
    FirstHourIs(amount);
    var s := FirstHour(amount);
    FullRun(s, 0, ["k"], outcome);
    ReportFirst(s.ledger, HOUR, ["k"], outcome);
    assert ["k"][1..] == [];
  }

  // ----- A missed hour

  predicate PastHour(s: State, start: int) {
    s.now >= (start + 2 * HOUR) as real
  }

  /** No gateway is still working on the hour. */
  predicate Abandoned(s: State, start: int) {
    forall g :: g in s.gateways && !s.gateways[g].Idle? ==> s.gateways[g].start != start
  }

  /** No gateway starts on an hour that is past. */
  lemma StaysAbandoned(s: State, a: Action, start: int)
    requires start >= 0 && PastHour(s, start) && Abandoned(s, start)
    ensures PastHour(Apply(s, a), start) && Abandoned(Apply(s, a), start)
  {
    var t := Apply(s, a);
    HourIsClosed(s.now);
    forall g | g in t.gateways && !t.gateways[g].Idle? ensures t.gateways[g].start != start {
      if g in s.gateways {
        assert s.gateways[g].Idle? || s.gateways[g].start != start;
      }
    }
  }

  /** Only a gateway working on an hour bills it. */
  lemma StaysUnbilled(s: State, a: Action, keyId: string, start: int)
    requires Inv(s) && start >= 0 && Abandoned(s, start) && MeterId(keyId, start) !in s.ledger.events
    ensures MeterId(keyId, start) !in Apply(s, a).ledger.events
  {
    if a.Send? && PhaseOf(s, a.g).Sending? {
      var p := PhaseOf(s, a.g);
      PhaseFits(s, a.g);
      if MeterId(p.todo[0], p.start) == MeterId(keyId, start) {
        MeterIdInjective(p.todo[0], p.start, keyId, start);
      }
    }
  }

  lemma {:induction false} MissedHourIsLost(s: State, actions: seq<Action>, keyId: string, start: int)
    requires Inv(s) && start >= 0 && PastHour(s, start) && Abandoned(s, start) && MeterId(keyId, start) !in s.ledger.events
    ensures MeterId(keyId, start) !in Exec(s, actions).ledger.events
    decreases |actions|
  {
    if actions != [] {
      StepKeeps(s, actions[0]);
      StaysAbandoned(s, actions[0], start);
      StaysUnbilled(s, actions[0], keyId, start);
      MissedHourIsLost(Apply(s, actions[0]), actions[1..], keyId, start);
    }
  }

  /**
   An hour that is no longer the last whole hour, and on which no gateway is still working, is final: whatever
   happens later, it ends up billed exactly if it is billed already.
   */
  lemma PastHourIsFinal(s: State, actions: seq<Action>, keyId: string, start: int)
    requires Inv(s) && start >= 0 && PastHour(s, start) && Abandoned(s, start)
    ensures MeterId(keyId, start) in Exec(s, actions).ledger.events <==> MeterId(keyId, start) in s.ledger.events
  {
    if MeterId(keyId, start) in s.ledger.events {
      EventsStay(s, actions, MeterId(keyId, start));
    } else {
      MissedHourIsLost(s, actions, keyId, start);
    }
  }

  lemma {:induction false} RefusedIsUnbilled(ledger: Ledger, start: int, customers: seq<string>, outcome: string -> SendOutcome, keyId: string)
    requires start >= 0 && outcome(keyId) == Refused && MeterId(keyId, start) !in ledger.events
    ensures MeterId(keyId, start) !in ReportAll(ledger, start, customers, outcome).events
  {
    if customers != [] {
      var last := customers[|customers| - 1];
      RefusedIsUnbilled(ledger, start, customers[..|customers| - 1], outcome, keyId);
      if MeterId(last, start) == MeterId(keyId, start) {
        MeterIdInjective(last, start, keyId, start);
      }
    }
  }

  /**
   An hour whose one report is refused is lost: with no other gateway at work, it stays unbilled once the next hour
   is over, whatever is done then.
   */
  lemma RefusedHourIsLost(s: State, g: nat, customers: seq<string>, outcome: string -> SendOutcome, keyId: string,
                          to: real, later: seq<Action>)
    requires Inv(s) && (forall h :: h in s.gateways ==> s.gateways[h].Idle?)
    requires outcome(keyId) == Refused && MeterId(keyId, HourOf(s.now) - HOUR) !in s.ledger.events
    requires to >= (HourOf(s.now) + HOUR) as real
    ensures var run := [Start(g, customers)] + RunSteps(g, customers, outcome);
      MeterId(keyId, HourOf(s.now) - HOUR) !in Exec(Apply(Exec(s, run), Advance(to)), later).ledger.events
  {
    var start := HourOf(s.now) - HOUR;
    var run := [Start(g, customers)] + RunSteps(g, customers, outcome);
    FullRun(s, g, customers, outcome);
    RefusedIsUnbilled(s.ledger, start, customers, outcome, keyId);
    HourIsClosed(s.now);
    RunKeeps(s, run);
    StepKeeps(Exec(s, run), Advance(to));
    PastHourIsFinal(Apply(Exec(s, run), Advance(to)), later, keyId, start);
  }

  /** Five tokens whose only report was refused are never billed, whatever happens from the next hour on. */
  lemma FiveTokensLost(later: seq<Action>)
    ensures var s := FirstHour(5);
      var run := [Start(0, ["k"])] + RunSteps(0, ["k"], _ => Refused);
      && Weighted(s.ledger.rows, "k", HOUR, 2 * HOUR) == 5
      && MeterId("k", HOUR) !in Exec(Apply(Exec(s, run), Advance((3 * HOUR) as real)), later).ledger.events
  {
    FirstHourIs(5);
    RunKeeps(InitialState(HOUR as real), [Use("k", 5, 0), Advance((2 * HOUR) as real)]);
    RefusedHourIsLost(FirstHour(5), 0, ["k"], _ => Refused, "k", (3 * HOUR) as real, later);
  }
}
