/**
 Hourly usage metering: several gateways, each of which may crash between any two steps, report closed
 hours to a service that keeps one event per identifier.  `MeteringTheorems.dfy` proves what is billed.
 */
module Metering {
  import opened Names
  import opened Prelude

  const HOUR := 3600

  /** A usage record; `at` is the time at which it was stored. */
  datatype Row = Row(keyId: string, tokensIn: int, tokensOut: int, at: real)

  /** An accepted meter event. */
  datatype Event = Event(keyId: string, start: int, value: int)

  /** The two tables and the events accepted by the billing service, by identifier. */
  datatype Ledger = Ledger(rows: seq<Row>, reports: map<(string, int), (int, int)>, events: map<string, Event>)

  // ----- Usage of an hour

  predicate InWindow(row: Row, keyId: string, start: int, end: int) {
    row.keyId == keyId && start as real <= row.at < end as real
  }

  function TokensIn(rows: seq<Row>, keyId: string, start: int, end: int): int {
    if rows == [] then 0
    else
      var last := rows[|rows| - 1];
      TokensIn(rows[..|rows| - 1], keyId, start, end) + if InWindow(last, keyId, start, end) then last.tokensIn else 0
  }

  function TokensOut(rows: seq<Row>, keyId: string, start: int, end: int): int {
    if rows == [] then 0
    else
      var last := rows[|rows| - 1];
      TokensOut(rows[..|rows| - 1], keyId, start, end) + if InWindow(last, keyId, start, end) then last.tokensOut else 0
  }

  /** Output tokens count twice. */
  function Weighted(rows: seq<Row>, keyId: string, start: int, end: int): int {
    TokensIn(rows, keyId, start, end) + 2 * TokensOut(rows, keyId, start, end)
  }

  /** One more row counts exactly if it is of the key and was stored in the half-open window; output tokens count twice. */
  lemma UsageLaw(rows: seq<Row>, row: Row, keyId: string, start: int, end: int)
    ensures TokensIn([], keyId, start, end) == 0 && TokensOut([], keyId, start, end) == 0
    ensures Weighted([], keyId, start, end) == 0
    ensures var counts := row.keyId == keyId && start as real <= row.at < end as real;
      && TokensIn(rows + [row], keyId, start, end) == TokensIn(rows, keyId, start, end) + (if counts then row.tokensIn else 0)
      && TokensOut(rows + [row], keyId, start, end) == TokensOut(rows, keyId, start, end) + (if counts then row.tokensOut else 0)
      && Weighted(rows + [row], keyId, start, end) ==
           Weighted(rows, keyId, start, end) + (if counts then row.tokensIn + 2 * row.tokensOut else 0)
  {
    assert (rows + [row])[..|rows|] == rows;
  }

  /** The most recent whole hour. */
  function HourOf(now: real): int {
    (now.Floor / HOUR) * HOUR
  }

  // ----- Steps on the ledger

  /** A call to the billing service can be accepted, refused, or accepted without the caller learning of it. */
  datatype SendOutcome = Accepted | Refused | AcceptedUnanswered

  /** A repeated identifier is not counted again. */
  function Accept(ledger: Ledger, keyId: string, start: int, value: int): Ledger {
    var id := MeterId(keyId, start);
    if id in ledger.events then ledger else ledger.(events := ledger.events[id := Event(keyId, start, value)])
  }

  /** `ON CONFLICT DO NOTHING`. */
  function Record(ledger: Ledger, keyId: string, start: int, tin: int, tout: int): Ledger {
    if (keyId, start) in ledger.reports then ledger
    else ledger.(reports := ledger.reports[(keyId, start) := (tin, tout)])
  }

  /** One customer, without interruption. */
  function ReportCustomer(ledger: Ledger, start: int, keyId: string, outcome: SendOutcome): Ledger {
    var tin := TokensIn(ledger.rows, keyId, start, start + HOUR);
    var tout := TokensOut(ledger.rows, keyId, start, start + HOUR);
    if (keyId, start) in ledger.reports || tin + 2 * tout <= 0 then ledger
    else
      match outcome
      case Refused => ledger
      case AcceptedUnanswered => Accept(ledger, keyId, start, tin + 2 * tout)
      case Accepted => Record(Accept(ledger, keyId, start, tin + 2 * tout), keyId, start, tin, tout)
  }

  function ReportAll(ledger: Ledger, start: int, customers: seq<string>, outcome: string -> SendOutcome): Ledger {
    if customers == [] then ledger
    else
      var keyId := customers[|customers| - 1];
      ReportCustomer(ReportAll(ledger, start, customers[..|customers| - 1], outcome), start, keyId, outcome(keyId))
  }

  /** Whether a report row is to be inserted for the customer. */
  predicate Inserts(ledger: Ledger, start: int, keyId: string, outcome: SendOutcome) {
    (keyId, start) !in ledger.reports && Weighted(ledger.rows, keyId, start, start + HOUR) > 0 && outcome == Accepted
  }

  /** What can go wrong with the database in one run: a query, or the insert of a report row, for one customer. */
  datatype Fault = NoFault | QueryFails(customer: nat) | InsertFails(customer: nat)

  /** Whether the run gets as far as its fault; a failing insert needs a row to insert. */
  predicate FaultStrikes(ledger: Ledger, start: int, customers: seq<string>, outcome: string -> SendOutcome, fault: Fault) {
    match fault
    case NoFault => false
    case QueryFails(i) => i < |customers|
    case InsertFails(i) =>
      i < |customers| &&
      Inserts(ReportAll(ledger, start, customers[..i], outcome), start, customers[i], outcome(customers[i]))
  }

  /** The ledger after one run, which ends early at its fault. */
  function ReportRun(ledger: Ledger, start: int, customers: seq<string>, outcome: string -> SendOutcome, fault: Fault): Ledger {
    if !FaultStrikes(ledger, start, customers, outcome, fault) then ReportAll(ledger, start, customers, outcome)
    else
      var before := ReportAll(ledger, start, customers[..fault.customer], outcome);
      if fault.QueryFails? then before
      else ReportCustomer(before, start, customers[fault.customer], AcceptedUnanswered)
  }

  lemma ReportOneMore(ledger: Ledger, start: int, customers: seq<string>, outcome: string -> SendOutcome, i: nat)
    requires i < |customers|
    ensures ReportAll(ledger, start, customers[..i + 1], outcome) ==
      ReportCustomer(ReportAll(ledger, start, customers[..i], outcome), start, customers[i], outcome(customers[i]))
  {
    var c := customers[..i + 1];
    assert c[..|c| - 1] == customers[..i];
  }

  // ----- The reporter

  class MeterReporter {
    var ledger: Ledger

    constructor (rows: seq<Row>)
      ensures ledger == Ledger(rows, map[], map[])
    {
      ledger := Ledger(rows, map[], map[]);
    }

    /** `SELECT SUM(...)` over one window of one key. */
    method SumUsage(keyId: string, start: int, end: int) returns (tin: int, tout: int)
      ensures tin == TokensIn(ledger.rows, keyId, start, end) && tout == TokensOut(ledger.rows, keyId, start, end)
    {
      tin, tout := 0, 0;
      for i := 0 to |ledger.rows|
        invariant tin == TokensIn(ledger.rows[..i], keyId, start, end)
        invariant tout == TokensOut(ledger.rows[..i], keyId, start, end)
      {
        var row := ledger.rows[i];
        assert ledger.rows[..i + 1][..i] == ledger.rows[..i];
        if InWindow(row, keyId, start, end) {
          tin, tout := tin + row.tokensIn, tout + row.tokensOut;
        }
      }
      assert ledger.rows[..|ledger.rows|] == ledger.rows;
    }

    /** The body of the loop over customers; `ok` is false when the insert of the report row was due and failed. */
    method ReportOne(keyId: string, periodStart: int, periodEnd: int, outcome: SendOutcome, insertFails: bool)
      returns (ok: bool)
      requires periodEnd == periodStart + HOUR
      modifies this
      ensures ok <==> !(insertFails && Inserts(old(ledger), periodStart, keyId, outcome))
      ensures ledger == ReportCustomer(old(ledger), periodStart, keyId, if ok then outcome else AcceptedUnanswered)
    {
      if (keyId, periodStart) in ledger.reports {
        return true;
      }
      var tin, tout := SumUsage(keyId, periodStart, periodEnd);
      var weightedTotal := tin + tout * 2;
      if weightedTotal <= 0 {
        return true;
      }
      if outcome != Refused {
        ledger := Accept(ledger, keyId, periodStart, weightedTotal);
      }
      if outcome == Accepted {
        if insertFails {
          return false;
        }
        ledger := Record(ledger, keyId, periodStart, tin, tout);
      }
      return true;
    }

    /**
     `report_meter_usage` at time `now`.  A database fault ends the run with an error; the customers before it
     have then been dealt with, and its customer's event may have been accepted without a report row.
     */
    method ReportMeterUsage(now: real, customers: seq<string>, outcome: string -> SendOutcome, fault: Fault)
      returns (ok: bool)
      modifies this
      ensures ok <==> !FaultStrikes(old(ledger), HourOf(now) - HOUR, customers, outcome, fault)
      ensures ledger == ReportRun(old(ledger), HourOf(now) - HOUR, customers, outcome, fault)
      ensures fault.NoFault? ==> ok
      ensures fault.QueryFails? ==> (ok <==> fault.customer >= |customers|)
      ensures fault.InsertFails? && !ok ==> fault.customer < |customers| && outcome(customers[fault.customer]) == Accepted
    {
      var periodEnd := (now.Floor / HOUR) * HOUR;
      var periodStart := periodEnd - HOUR;
      for i := 0 to |customers|
        invariant fault.QueryFails? ==> i <= fault.customer
        invariant fault.InsertFails? && fault.customer < i ==>
          !FaultStrikes(old(ledger), periodStart, customers, outcome, fault)
        invariant ledger == ReportAll(old(ledger), periodStart, customers[..i], outcome)
      {
        if fault == QueryFails(i) {
          return false;
        }
        ReportOneMore(old(ledger), periodStart, customers, outcome, i);
        var reported := ReportOne(customers[i], periodStart, periodEnd, outcome(customers[i]), fault == InsertFails(i));
        if !reported {
          return false;
        }
      }
      assert customers[..|customers|] == customers;
      return true;
    }
  }

  // ----- Several gateways

  /** Where a gateway is in its run over `todo`, for the hour that begins at `start`. */
  datatype Phase =
    | Idle
    | Checking(start: int, todo: seq<string>)
    | Reading(start: int, todo: seq<string>)
    | Sending(start: int, todo: seq<string>, tin: int, tout: int)
    | Recording(start: int, todo: seq<string>, tin: int, tout: int)

  datatype State = State(now: real, ledger: Ledger, gateways: map<nat, Phase>)

  datatype Action =
    | Advance(to: real)
    | Use(keyId: string, tokensIn: int, tokensOut: int)
    | Start(g: nat, customers: seq<string>)
    | Check(g: nat)
    | Read(g: nat)
    | Send(g: nat, outcome: SendOutcome)
    | Insert(g: nat)
    | Crash(g: nat)

  function PhaseOf(s: State, g: nat): Phase {
    if g in s.gateways then s.gateways[g] else Idle
  }

  function Goto(s: State, g: nat, phase: Phase): State {
    s.(gateways := s.gateways[g := phase])
  }

  /** One step; an action that does not apply changes nothing. */
  function Apply(s: State, a: Action): State {
    match a
    case Advance(to) => if to >= s.now then s.(now := to) else s
    case Use(keyId, tin, tout) => s.(ledger := s.ledger.(rows := s.ledger.rows + [Row(keyId, tin, tout, s.now)]))
    case Start(g, customers) =>
      if PhaseOf(s, g).Idle? then Goto(s, g, Checking(HourOf(s.now) - HOUR, customers)) else s
    case Check(g) => (
      match PhaseOf(s, g)
      case Checking(start, todo) =>
        if todo == [] then Goto(s, g, Idle)
        else if (todo[0], start) in s.ledger.reports then Goto(s, g, Checking(start, todo[1..]))
        else Goto(s, g, Reading(start, todo))
      case _ => s)
    case Read(g) => (
      match PhaseOf(s, g)
      case Reading(start, todo) =>
        if todo == [] then s
        else
          var tin := TokensIn(s.ledger.rows, todo[0], start, start + HOUR);
          var tout := TokensOut(s.ledger.rows, todo[0], start, start + HOUR);
          if tin + 2 * tout <= 0 then Goto(s, g, Checking(start, todo[1..]))
          else Goto(s, g, Sending(start, todo, tin, tout))
      case _ => s)
    case Send(g, outcome) => (
      match PhaseOf(s, g)
      case Sending(start, todo, tin, tout) =>
        if todo == [] then s
        else
          var next := if outcome.Accepted? then Recording(start, todo, tin, tout) else Checking(start, todo[1..]);
          var ledger := if outcome.Refused? then s.ledger else Accept(s.ledger, todo[0], start, tin + 2 * tout);
          Goto(s, g, next).(ledger := ledger)
      case _ => s)
    case Insert(g) => (
      match PhaseOf(s, g)
      case Recording(start, todo, tin, tout) =>
        if todo == [] then s
        else Goto(s, g, Checking(start, todo[1..])).(ledger := Record(s.ledger, todo[0], start, tin, tout))
      case _ => s)
    case Crash(g) => Goto(s, g, Idle)
  }

  function Exec(s: State, actions: seq<Action>): State
    decreases |actions|
  {
    if actions == [] then s else Exec(Apply(s, actions[0]), actions[1..])
  }
}
