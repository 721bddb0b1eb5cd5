/** Metering over every interleaving: nothing billed twice, nothing billed wrong, and when nothing is missed. */
module MeteringTheorems {
  import opened Arithmetic
  import opened Metering
  import opened Names
  import opened Prelude

  // ----- The invariant

  /** An aligned hour after the epoch that is over at `now`. */
  predicate Closed(start: int, now: real) {
    start % HOUR == 0 && start >= 0 && (start + HOUR) as real <= now
  }

  /** What a gateway has read for the customer it is working on is right, and worth reporting. */
  predicate ReadRight(ledger: Ledger, start: int, todo: seq<string>, tin: int, tout: int) {
    && todo != []
    && tin == TokensIn(ledger.rows, todo[0], start, start + HOUR)
    && tout == TokensOut(ledger.rows, todo[0], start, start + HOUR)
    && tin + 2 * tout > 0
  }

  predicate PhaseOk(ledger: Ledger, now: real, phase: Phase) {
    phase.Idle? ||
    (&& Closed(phase.start, now)
     && (phase.Sending? || phase.Recording? ==> ReadRight(ledger, phase.start, phase.todo, phase.tin, phase.tout))
     && (phase.Recording? ==> MeterId(phase.todo[0], phase.start) in ledger.events))
  }

  /** An event carries the exact weighted usage of its key in its closed hour, which is positive, under the right identifier. */
  predicate EventOk(rows: seq<Row>, now: real, id: string, e: Event) {
    && id == MeterId(e.keyId, e.start)
    && Closed(e.start, now)
    && e.value == Weighted(rows, e.keyId, e.start, e.start + HOUR)
    && e.value > 0
  }

  predicate RowsOk(rows: seq<Row>, now: real) {
    forall r :: r in rows ==> r.at <= now
  }

  predicate EventsOk(rows: seq<Row>, events: map<string, Event>, now: real) {
    forall id :: id in events ==> EventOk(rows, now, id, events[id])
  }

  /** A report row is only ever written for an accepted event. */
  predicate ReportsBacked(ledger: Ledger) {
    forall k :: k in ledger.reports ==> MeterId(k.0, k.1) in ledger.events
  }

  predicate PhasesOk(gateways: map<nat, Phase>, ledger: Ledger, now: real) {
    forall g :: g in gateways ==> PhaseOk(ledger, now, gateways[g])
  }

  predicate Inv(s: State) {
    && s.now >= HOUR as real
    && RowsOk(s.ledger.rows, s.now)
    && EventsOk(s.ledger.rows, s.ledger.events, s.now)
    && ReportsBacked(s.ledger)
    && PhasesOk(s.gateways, s.ledger, s.now)
  }

  lemma HourIsClosed(now: real)
    requires now >= HOUR as real
    ensures Closed(HourOf(now) - HOUR, now)
    ensures HourOf(now) as real <= now < (HourOf(now) + HOUR) as real
  {
    var h := now.Floor / HOUR;
    ModUnique(HourOf(now) - HOUR, HOUR, h - 1, 0);
  }

  /** The last whole hour, in seconds. */
  lemma HourLaw(now: real)
    ensures HourOf(now) % 3600 == 0 && HourOf(now) as real <= now < (HourOf(now) + 3600) as real
  {
    var h := now.Floor / HOUR;
    ModUnique(HourOf(now), HOUR, h, 0);
  }

  /** Usage stored after an hour is over does not change what was used in it. */
  lemma LateRow(rows: seq<Row>, row: Row, keyId: string, start: int, end: int)
    requires row.at >= end as real
    ensures TokensIn(rows + [row], keyId, start, end) == TokensIn(rows, keyId, start, end)
    ensures TokensOut(rows + [row], keyId, start, end) == TokensOut(rows, keyId, start, end)
  {
    assert (rows + [row])[..|rows|] == rows;
  }

  // ----- Every step keeps it

  lemma GotoKeeps(s: State, g: nat, phase: Phase)
    requires Inv(s) && PhaseOk(s.ledger, s.now, phase)
    ensures Inv(Goto(s, g, phase))
  {
    var gateways := s.gateways[g := phase];
    forall h | h in gateways ensures PhaseOk(s.ledger, s.now, gateways[h]) {
      assert h != g ==> h in s.gateways;
    }
  }

  lemma PhaseFits(s: State, g: nat)
    requires Inv(s)
    ensures PhaseOk(s.ledger, s.now, PhaseOf(s, g))
  {
  }

  lemma PhasesLater(gateways: map<nat, Phase>, ledger: Ledger, now: real, to: real)
    requires PhasesOk(gateways, ledger, now) && to >= now
    ensures PhasesOk(gateways, ledger, to)
  {
    forall g | g in gateways ensures PhaseOk(ledger, to, gateways[g]) {
      assert PhaseOk(ledger, now, gateways[g]);
    }
  }

  lemma EventsLater(rows: seq<Row>, events: map<string, Event>, now: real, to: real)
    requires EventsOk(rows, events, now) && to >= now
    ensures EventsOk(rows, events, to)
  {
    forall id | id in events ensures EventOk(rows, to, id, events[id]) {
      assert EventOk(rows, now, id, events[id]);
    }
  }

  lemma PhasesAfterUse(gateways: map<nat, Phase>, ledger: Ledger, row: Row)
    requires PhasesOk(gateways, ledger, row.at)
    ensures PhasesOk(gateways, ledger.(rows := ledger.rows + [row]), row.at)
  {
    forall g | g in gateways ensures PhaseOk(ledger.(rows := ledger.rows + [row]), row.at, gateways[g]) {
      var p := gateways[g];
      assert PhaseOk(ledger, row.at, p);
      if p.Sending? || p.Recording? {
        LateRow(ledger.rows, row, p.todo[0], p.start, p.start + HOUR);
      }
    }
  }

  lemma EventsAfterUse(rows: seq<Row>, events: map<string, Event>, row: Row)
    requires EventsOk(rows, events, row.at)
    ensures EventsOk(rows + [row], events, row.at)
  {
    forall id | id in events ensures EventOk(rows + [row], row.at, id, events[id]) {
      var e := events[id];
      assert EventOk(rows, row.at, id, e);
      LateRow(rows, row, e.keyId, e.start, e.start + HOUR);
    }
  }

  /** More events leave every gateway's phase right. */
  lemma PhasesAfterLedger(gateways: map<nat, Phase>, before: Ledger, after: Ledger, now: real)
    requires PhasesOk(gateways, before, now)
    requires after.rows == before.rows && before.events.Keys <= after.events.Keys
    ensures PhasesOk(gateways, after, now)
  {
    forall g | g in gateways ensures PhaseOk(after, now, gateways[g]) {
      assert PhaseOk(before, now, gateways[g]);
    }
  }

  lemma AcceptKeeps(ledger: Ledger, now: real, keyId: string, start: int, value: int)
    requires EventsOk(ledger.rows, ledger.events, now) && ReportsBacked(ledger) && Closed(start, now)
    requires value == Weighted(ledger.rows, keyId, start, start + HOUR) && value > 0
    ensures var after := Accept(ledger, keyId, start, value);
      && EventsOk(ledger.rows, after.events, now) && ReportsBacked(after)
      && after.rows == ledger.rows && ledger.events.Keys <= after.events.Keys
      && MeterId(keyId, start) in after.events
  {
    var after := Accept(ledger, keyId, start, value);
    forall id | id in after.events ensures EventOk(ledger.rows, now, id, after.events[id]) {
      if id in ledger.events {
        assert EventOk(ledger.rows, now, id, ledger.events[id]);
      }
    }
  }

  lemma RecordKeeps(ledger: Ledger, keyId: string, start: int, tin: int, tout: int)
    requires ReportsBacked(ledger) && MeterId(keyId, start) in ledger.events
    ensures ReportsBacked(Record(ledger, keyId, start, tin, tout))
  {
    var after := Record(ledger, keyId, start, tin, tout);
    forall k | k in after.reports ensures MeterId(k.0, k.1) in after.events {
      assert k in ledger.reports || k == (keyId, start);
    }
  }

  function AfterSend(p: Phase, outcome: SendOutcome): Phase
    requires p.Sending? && p.todo != []
  {
    if outcome.Accepted? then Recording(p.start, p.todo, p.tin, p.tout) else Checking(p.start, p.todo[1..])
  }

  lemma SendIs(s: State, g: nat, outcome: SendOutcome)
    requires PhaseOf(s, g).Sending? && PhaseOf(s, g).todo != []
    ensures var p := PhaseOf(s, g);
      Apply(s, Send(g, outcome)) ==
        Goto(if outcome.Refused? then s else s.(ledger := Accept(s.ledger, p.todo[0], p.start, p.tin + 2 * p.tout)),
             g, AfterSend(p, outcome))
  {
  }

  lemma SendKeeps(s: State, g: nat, outcome: SendOutcome)
    requires Inv(s) && PhaseOf(s, g).Sending?
    ensures Inv(Apply(s, Send(g, outcome)))
  {
    var p := PhaseOf(s, g);
    PhaseFits(s, g);
    SendIs(s, g, outcome);
    if outcome.Refused? {
      GotoKeeps(s, g, AfterSend(p, outcome));
    } else {
      AcceptKeeps(s.ledger, s.now, p.todo[0], p.start, p.tin + 2 * p.tout);
      var t := s.(ledger := Accept(s.ledger, p.todo[0], p.start, p.tin + 2 * p.tout));
      PhasesAfterLedger(s.gateways, s.ledger, t.ledger, s.now);
      GotoKeeps(t, g, AfterSend(p, outcome));
    }
  }

  lemma InsertKeeps(s: State, g: nat)
    requires Inv(s) && PhaseOf(s, g).Recording?
    ensures Inv(Apply(s, Insert(g)))
  {
    var p := PhaseOf(s, g);
    PhaseFits(s, g);
    var t := s.(ledger := Record(s.ledger, p.todo[0], p.start, p.tin, p.tout));
    RecordKeeps(s.ledger, p.todo[0], p.start, p.tin, p.tout);
    PhasesAfterLedger(s.gateways, s.ledger, t.ledger, s.now);
    GotoKeeps(t, g, Checking(p.start, p.todo[1..]));
  }

  lemma CheckKeeps(s: State, g: nat)
    requires Inv(s) && PhaseOf(s, g).Checking?
    ensures Inv(Apply(s, Check(g)))
  {
    var p := PhaseOf(s, g);
    PhaseFits(s, g);
    if p.todo == [] {
      GotoKeeps(s, g, Idle);
    } else if (p.todo[0], p.start) in s.ledger.reports {
      GotoKeeps(s, g, Checking(p.start, p.todo[1..]));
    } else {
      GotoKeeps(s, g, Reading(p.start, p.todo));
    }
  }

  lemma ReadKeeps(s: State, g: nat)
    requires Inv(s) && PhaseOf(s, g).Reading? && PhaseOf(s, g).todo != []
    ensures Inv(Apply(s, Read(g)))
  {
    var p := PhaseOf(s, g);
    PhaseFits(s, g);
    var tin := TokensIn(s.ledger.rows, p.todo[0], p.start, p.start + HOUR);
    var tout := TokensOut(s.ledger.rows, p.todo[0], p.start, p.start + HOUR);
    if tin + 2 * tout <= 0 {
      GotoKeeps(s, g, Checking(p.start, p.todo[1..]));
    } else {
      GotoKeeps(s, g, Sending(p.start, p.todo, tin, tout));
    }
  }

  lemma UseKeeps(s: State, row: Row)
    requires Inv(s) && row.at == s.now
    ensures Inv(s.(ledger := s.ledger.(rows := s.ledger.rows + [row])))
  {
    EventsAfterUse(s.ledger.rows, s.ledger.events, row);
    PhasesAfterUse(s.gateways, s.ledger, row);
  }

  lemma AdvanceKeeps(s: State, to: real)
    requires Inv(s) && to >= s.now
    ensures Inv(s.(now := to))
  {
    EventsLater(s.ledger.rows, s.ledger.events, s.now, to);
    PhasesLater(s.gateways, s.ledger, s.now, to);
  }

  lemma StepKeeps(s: State, a: Action)
    requires Inv(s)
    ensures Inv(Apply(s, a))
  {
    match a
    case Advance(to) => if to >= s.now { AdvanceKeeps(s, to); }
    case Use(keyId, tin, tout) => UseKeeps(s, Row(keyId, tin, tout, s.now));
    case Start(g, customers) =>
      HourIsClosed(s.now);
      GotoKeeps(s, g, Checking(HourOf(s.now) - HOUR, customers));
    case Check(g) => if PhaseOf(s, g).Checking? { CheckKeeps(s, g); }
    case Read(g) => if PhaseOf(s, g).Reading? && PhaseOf(s, g).todo != [] { ReadKeeps(s, g); }
    case Send(g, outcome) => if PhaseOf(s, g).Sending? { SendKeeps(s, g, outcome); }
    case Insert(g) => if PhaseOf(s, g).Recording? { InsertKeeps(s, g); }
    case Crash(g) => GotoKeeps(s, g, Idle);
  }

  lemma {:induction false} RunKeeps(s: State, actions: seq<Action>)
    requires Inv(s)
    ensures Inv(Exec(s, actions))
    decreases |actions|
  {
    if actions != [] {
      StepKeeps(s, actions[0]);
      RunKeeps(Apply(s, actions[0]), actions[1..]);
    }
  }

  // ----- Safety

  function InitialState(now: real): State {
    State(now, Ledger([], map[], map[]), map[])
  }

  /** Two aligned hours that share a moment are the same hour. */
  lemma AlignedHoursDisjoint(a: int, b: int, at: real)
    requires a % HOUR == 0 && b % HOUR == 0
    requires a as real <= at < (a + HOUR) as real && b as real <= at < (b + HOUR) as real
    ensures a == b
  {
    SameRemainder(Min(a, b), Max(a, b), HOUR);
  }

  /** The usage row is part of what the event bills. */
  predicate CountsIn(row: Row, e: Event) {
    row.keyId == e.keyId && e.start as real <= row.at < (e.start + 3600) as real
  }

  /**
   Over every interleaving of gateways, crashes, retries and usage: each accepted event carries the exact weighted
   usage of an aligned hour that is over, and each usage row counts in at most one accepted event.
   */
  lemma MeteringIsSafe(now: real, actions: seq<Action>)
    requires now >= HOUR as real
    ensures var s := Exec(InitialState(now), actions);
      forall id :: id in s.ledger.events ==>
        var e := s.ledger.events[id];
        && e.value == Weighted(s.ledger.rows, e.keyId, e.start, e.start + 3600) && e.value > 0
        && e.start % 3600 == 0 && (e.start + 3600) as real <= s.now
    ensures var events := Exec(InitialState(now), actions).ledger.events;
      forall row, id1, id2 :: id1 in events && id2 in events && CountsIn(row, events[id1]) && CountsIn(row, events[id2])
        ==> id1 == id2
  {
    var s := Exec(InitialState(now), actions);
    RunKeeps(InitialState(now), actions);
    var events := s.ledger.events;
    forall row, id1, id2 | id1 in events && id2 in events && CountsIn(row, events[id1]) && CountsIn(row, events[id2])
      ensures id1 == id2
    {
      assert EventOk(s.ledger.rows, s.now, id1, events[id1]) && EventOk(s.ledger.rows, s.now, id2, events[id2]);
      AlignedHoursDisjoint(events[id1].start, events[id2].start, row.at);
    }
  }

  // ----- The report rows

  /** Every report row holds the two sums of a key's closed hour, and its event their weighted sum. */
  predicate ReportsRight(ledger: Ledger, now: real) {
    forall k :: k in ledger.reports ==> ReportRight(ledger, now, k)
  }

  predicate ReportRight(ledger: Ledger, now: real, k: (string, int))
    requires k in ledger.reports
  {
    Closed(k.1, now)
    && ledger.reports[k] ==
         (TokensIn(ledger.rows, k.0, k.1, k.1 + HOUR), TokensOut(ledger.rows, k.0, k.1, k.1 + HOUR))
  }

  lemma SameReportsRight(before: Ledger, after: Ledger, now: real, to: real)
    requires ReportsRight(before, now) && now <= to && after.rows == before.rows && after.reports == before.reports
    ensures ReportsRight(after, to)
  {
    forall k | k in after.reports ensures ReportRight(after, to, k) {
      assert ReportRight(before, now, k);
    }
  }

  lemma UseKeepsReports(ledger: Ledger, row: Row)
    requires ReportsRight(ledger, row.at)
    ensures ReportsRight(ledger.(rows := ledger.rows + [row]), row.at)
  {
    var after := ledger.(rows := ledger.rows + [row]);
    forall k | k in after.reports ensures ReportRight(after, row.at, k) {
      assert ReportRight(ledger, row.at, k);
      LateRow(ledger.rows, row, k.0, k.1, k.1 + HOUR);
    }
  }

  lemma RecordKeepsReports(ledger: Ledger, now: real, keyId: string, start: int)
    requires ReportsRight(ledger, now) && Closed(start, now)
    ensures ReportsRight(Record(ledger, keyId, start, TokensIn(ledger.rows, keyId, start, start + HOUR),
                                TokensOut(ledger.rows, keyId, start, start + HOUR)), now)
  {
    var after := Record(ledger, keyId, start, TokensIn(ledger.rows, keyId, start, start + HOUR),
                        TokensOut(ledger.rows, keyId, start, start + HOUR));
    forall k | k in after.reports ensures ReportRight(after, now, k) {
      if k in ledger.reports {
        assert ReportRight(ledger, now, k);
      }
    }
  }

  lemma InsertKeepsReports(s: State, g: nat)
    requires Inv(s) && ReportsRight(s.ledger, s.now) && PhaseOf(s, g).Recording?
    ensures ReportsRight(Apply(s, Insert(g)).ledger, s.now)
  {
    PhaseFits(s, g);
    RecordKeepsReports(s.ledger, s.now, PhaseOf(s, g).todo[0], PhaseOf(s, g).start);
  }

  lemma OthersLeaveReports(s: State, a: Action)
    requires !a.Use? && !(a.Insert? && PhaseOf(s, a.g).Recording?)
    ensures var t := Apply(s, a);
      s.now <= t.now && t.ledger.rows == s.ledger.rows && t.ledger.reports == s.ledger.reports
  {
  }

  lemma StepKeepsReports(s: State, a: Action)
    requires Inv(s) && ReportsRight(s.ledger, s.now)
    ensures ReportsRight(Apply(s, a).ledger, Apply(s, a).now)
  {
    if a.Use? {
      UseKeepsReports(s.ledger, Row(a.keyId, a.tokensIn, a.tokensOut, s.now));
    } else if a.Insert? && PhaseOf(s, a.g).Recording? {
      InsertKeepsReports(s, a.g);
    } else {
      OthersLeaveReports(s, a);
      SameReportsRight(s.ledger, Apply(s, a).ledger, s.now, Apply(s, a).now);
    }
  }

  lemma {:induction false} RunKeepsReports(s: State, actions: seq<Action>)
    requires Inv(s) && ReportsRight(s.ledger, s.now)
    ensures ReportsRight(Exec(s, actions).ledger, Exec(s, actions).now)
    decreases |actions|
  {
    if actions != [] {
      StepKeeps(s, actions[0]);
      StepKeepsReports(s, actions[0]);
      RunKeepsReports(Apply(s, actions[0]), actions[1..]);
    }
  }

  /**
   Over every interleaving, a report row holds the input and the output tokens of its key in its hour, in this order,
   and its event was accepted with the one plus twice the other.
   */
  lemma ReportRowsAre(now: real, actions: seq<Action>, keyId: string, start: int)
    requires now >= HOUR as real && (keyId, start) in Exec(InitialState(now), actions).ledger.reports
    ensures var l := Exec(InitialState(now), actions).ledger;
      && l.reports[(keyId, start)].0 == TokensIn(l.rows, keyId, start, start + 3600)
      && l.reports[(keyId, start)].1 == TokensOut(l.rows, keyId, start, start + 3600)
      && MeterId(keyId, start) in l.events
      && l.events[MeterId(keyId, start)].value == l.reports[(keyId, start)].0 + 2 * l.reports[(keyId, start)].1
  {
    var s := Exec(InitialState(now), actions);
    RunKeeps(InitialState(now), actions);
    RunKeepsReports(InitialState(now), actions);
    ReportHolds(s.ledger, s.now, keyId, start);
    ReportIsBilled(s, keyId, start);
  }

  lemma ReportIsBilled(s: State, keyId: string, start: int)
    requires Inv(s) && (keyId, start) in s.ledger.reports && start >= 0
    ensures MeterId(keyId, start) in s.ledger.events
    ensures s.ledger.events[MeterId(keyId, start)].value == Weighted(s.ledger.rows, keyId, start, start + HOUR)
  {
    ReportIsBacked(s.ledger, keyId, start);
    RepeatIsHarmless(s, keyId, start);
  }

  lemma ReportIsBacked(ledger: Ledger, keyId: string, start: int)
    requires ReportsBacked(ledger) && (keyId, start) in ledger.reports
    ensures MeterId(keyId, start) in ledger.events
  {
    var k := (keyId, start);
    assert k in ledger.reports;
  }

  lemma ReportHolds(ledger: Ledger, now: real, keyId: string, start: int)
    requires ReportsRight(ledger, now) && (keyId, start) in ledger.reports
    ensures start >= 0 && ledger.reports[(keyId, start)] ==
      (TokensIn(ledger.rows, keyId, start, start + HOUR), TokensOut(ledger.rows, keyId, start, start + HOUR))
  {
    assert ReportRight(ledger, now, (keyId, start));
  }

  /** An identifier already used stands for the same key, hour and amount as the event that would repeat it. */
  lemma RepeatIsHarmless(s: State, keyId: string, start: int)
    requires Inv(s) && start >= 0 && MeterId(keyId, start) in s.ledger.events
    ensures s.ledger.events[MeterId(keyId, start)] ==
      Event(keyId, start, Weighted(s.ledger.rows, keyId, start, start + HOUR))
  {
    var e := s.ledger.events[MeterId(keyId, start)];
    assert EventOk(s.ledger.rows, s.now, MeterId(keyId, start), e);
    MeterIdInjective(keyId, start, e.keyId, e.start);
  }

  /** Accepted events are never changed or withdrawn. */
  lemma {:induction false} EventsStay(s: State, actions: seq<Action>, id: string)
    requires id in s.ledger.events
    ensures var t := Exec(s, actions); id in t.ledger.events && t.ledger.events[id] == s.ledger.events[id]
    decreases |actions|
  {
    if actions != [] {
      EventsStay(Apply(s, actions[0]), actions[1..], id);
    }
  }
}
