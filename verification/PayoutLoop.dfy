/**
 The five-minute loop that decides when payouts run, and how the windows they pay for fit together.  The calendar's
 day-of-year is a parameter.
 */
module PayoutLoop {
  import opened Arithmetic
  import opened Metering
  import opened Payout
  import opened Prelude

  function DayOf(t: int): int { t / DAY }

  function SecondOf(t: int): int { t % DAY }

  function HourOfDay(t: int): int { SecondOf(t) / HOUR }

  /** One tick: the remembered day-of-year afterwards, and whether a payout succeeded. */
  function OnTick(last: Option<int>, ordinal: int -> int, now: int, ok: bool): (Option<int>, bool) {
    var today := ordinal(DayOf(now));
    if HourOfDay(now) == PAYOUT_HOUR && last != Some(today) && ok then (Some(today), true) else (last, false)
  }

  class PayoutClock {
    var lastPayoutDay: Option<int>
    const processor: PayoutProcessor

    constructor (processor: PayoutProcessor)
      ensures lastPayoutDay == None && this.processor == processor
    {
      lastPayoutDay := None;
      this.processor := processor;
    }

    /** One tick of the loop, with what the payout processor finds if it is called. */
    method Tick(ordinal: int -> int, now: int, rows: seq<Row>, accounts: seq<string>, ratePer1k: real, commission: real,
                goesThrough: string -> bool, dbOk: bool) returns (paid: bool)
      modifies this, processor
      ensures (lastPayoutDay, paid) == OnTick(old(lastPayoutDay), ordinal, now, dbOk)
      ensures processor.transfers == old(processor.transfers) +
        if paid then PayoutTransfers(rows, now, accounts, ratePer1k, commission, goesThrough) else []
    {
      paid := false;
      if (now % DAY) / HOUR == PAYOUT_HOUR {
        var today := ordinal(now / DAY);
        if lastPayoutDay != Some(today) {
          paid := processor.ProcessPayouts(rows, now, accounts, ratePer1k, commission, goesThrough, dbOk);
          if paid {
            lastPayoutDay := Some(today);
          }
        }
      }
    }
  }

  datatype LoopState = LoopState(now: int, last: Option<int>, paid: seq<int>)

  /** A tick and the wait for the next; `ok` says at which times a payout would succeed. */
  function Ticked(ordinal: int -> int, ok: int -> bool, s: LoopState): LoopState {
    var (last, paid) := OnTick(s.last, ordinal, s.now, ok(s.now));
    LoopState(s.now + TICK, last, if paid then s.paid + [s.now] else s.paid)
  }

  /** The loop after `k` ticks, 300 seconds apart from `t0` on. */
  function LoopAfter(ordinal: int -> int, ok: int -> bool, t0: int, k: nat): (s: LoopState)
    ensures s.now == t0 + TICK * k
  {
    if k == 0 then LoopState(t0, None, []) else Ticked(ordinal, ok, LoopAfter(ordinal, ok, t0, k - 1))
  }

  function LastPaid(paid: seq<int>): int
    requires paid != []
  {
    paid[|paid| - 1]
  }

  // ----- Days and ticks

  lemma DayBounds(t: int)
    ensures DayOf(t) * DAY <= t < DayOf(t) * DAY + DAY && SecondOf(t) == t - DayOf(t) * DAY
  {
  }

  lemma DayIs(t: int, day: int)
    requires day * DAY <= t < day * DAY + DAY
    ensures DayOf(t) == day
  {
    DivUnique(t, DAY, day);
  }

  lemma DaysInOrder(a: int, b: int)
    requires a <= b
    ensures DayOf(a) <= DayOf(b)
  {
    DayBounds(a);
    DayBounds(b);
  }

  /** Hour 2 of a day, in seconds. */
  lemma PayoutHourIs(t: int)
    ensures HourOfDay(t) == PAYOUT_HOUR <==> DayOf(t) * DAY + 24 * TICK <= t < DayOf(t) * DAY + 36 * TICK
  {
    DayBounds(t);
  }

  /** Where in each five minutes the ticks fall. */
  function Offset(t0: int): int { t0 % TICK }

  /** The first tick in hour 2 of a day. */
  function DueOn(t0: int, day: int): int {
    day * DAY + PAYOUT_HOUR * HOUR + Offset(t0)
  }

  lemma DayOfDue(t0: int, day: int)
    ensures DayOf(DueOn(t0, day)) == day && HourOfDay(DueOn(t0, day)) == PAYOUT_HOUR
  {
    DayIs(DueOn(t0, day), day);
    PayoutHourIs(DueOn(t0, day));
  }

  /** Ticks and first ticks of hour 2 are whole ticks apart. */
  lemma TicksApart(t0: int, k: nat, day: int) returns (z: int)
    ensures DueOn(t0, day) - (t0 + TICK * k) == TICK * z
  {
    var q := t0 / TICK;
    assert t0 == TICK * q + Offset(t0);
    z := day * 288 + 24 - q - k;
  }

  lemma TickBeforeDue(t0: int, k: nat, day: int)
    requires t0 + TICK * k < DueOn(t0, day)
    ensures t0 + TICK * k + TICK <= DueOn(t0, day)
  {
    var z := TicksApart(t0, k, day);
  }

  /** A tick in hour 2 is not before the first tick of that hour. */
  lemma TickInHour(t0: int, k: nat)
    requires HourOfDay(t0 + TICK * k) == PAYOUT_HOUR
    ensures t0 + TICK * k >= DueOn(t0, DayOf(t0 + TICK * k))
  {
    PayoutHourIs(t0 + TICK * k);
    var z := TicksApart(t0, k, DayOf(t0 + TICK * k));
  }

  lemma TickBeforeNextDay(t0: int, k: nat)
    ensures t0 + TICK * k + TICK <= DueOn(t0, DayOf(t0 + TICK * k) + 1)
  {
    DayBounds(t0 + TICK * k);
    TickBeforeDue(t0, k, DayOf(t0 + TICK * k) + 1);
  }

  /** When a tick pays, with times taken apart into days and seconds: from 02:00 on and before 03:00, UTC. */
  lemma TickIs(last: Option<int>, ordinal: int -> int, day: int, second: int, ok: bool)
    requires 0 <= second < 86400
    ensures OnTick(last, ordinal, day * 86400 + second, ok) ==
      if 7200 <= second < 10800 && last != Some(ordinal(day)) && ok then (Some(ordinal(day)), true) else (last, false)
  {
    var now := day * 86400 + second;
    DayIs(now, day);
    PayoutHourIs(now);
  }

  // ----- Any run

  /** What the loop remembers is the day of its last payout; payouts fall in hour 2, each on a later day than the one before. */
  predicate Orderly(ordinal: int -> int, s: LoopState) {
    && s.last == (if s.paid == [] then None else Some(ordinal(DayOf(LastPaid(s.paid)))))
    && (forall i :: 0 <= i < |s.paid| ==> s.paid[i] < s.now && HourOfDay(s.paid[i]) == PAYOUT_HOUR)
    && (forall i, j :: 0 <= i < j < |s.paid| ==> DayOf(s.paid[i]) < DayOf(s.paid[j]))
  }

  lemma {:induction false} LoopIsOrderly(ordinal: int -> int, ok: int -> bool, t0: int, k: nat)
    ensures Orderly(ordinal, LoopAfter(ordinal, ok, t0, k))
  {
    if k > 0 {
      LoopIsOrderly(ordinal, ok, t0, k - 1);
      StaysOrderly(ordinal, ok, LoopAfter(ordinal, ok, t0, k - 1));
    }
  }

  lemma StaysOrderly(ordinal: int -> int, ok: int -> bool, s: LoopState)
    requires Orderly(ordinal, s)
    ensures Orderly(ordinal, Ticked(ordinal, ok, s))
  {
    if s.paid != [] {
      DaysInOrder(LastPaid(s.paid), s.now);
    }
  }

  /**
   Whatever fails, a payout happens at most once a day, and where two successive payouts are `d` days apart, the
   later window begins less than an hour before or after `d - 1` days past the end of the earlier one: on
   consecutive days the windows overlap or leave a gap of less than an hour.
   */
  lemma GapsAreBounded(ordinal: int -> int, ok: int -> bool, t0: int, k: nat, i: nat)
    requires 0 < i < |LoopAfter(ordinal, ok, t0, k).paid|
    ensures var paid := LoopAfter(ordinal, ok, t0, k).paid;
      var d := DayOf(paid[i]) - DayOf(paid[i - 1]);
      d >= 1 && (d - 1) * DAY - HOUR < (paid[i] - DAY) - paid[i - 1] < (d - 1) * DAY + HOUR
  {
    LoopIsOrderly(ordinal, ok, t0, k);
    var paid := LoopAfter(ordinal, ok, t0, k).paid;
    PayoutHourIs(paid[i]);
    PayoutHourIs(paid[i - 1]);
  }

  // ----- Runs in which payouts succeed when they are due

  /** The first day whose first tick of hour 2 the loop does not miss. */
  function FirstDay(t0: int): int {
    if t0 <= DueOn(t0, DayOf(t0)) then DayOf(t0) else DayOf(t0) + 1
  }

  function FirstSure(t0: int): int {
    DueOn(t0, FirstDay(t0))
  }

  function NextDay(t0: int, paid: seq<int>): int {
    if paid == [] then FirstDay(t0) else DayOf(LastPaid(paid)) + 1
  }

  function NextSure(t0: int, paid: seq<int>): int {
    DueOn(t0, NextDay(t0, paid))
  }

  lemma FirstSureIs(t0: int)
    ensures t0 <= FirstSure(t0)
    ensures forall day :: DueOn(t0, day) >= t0 ==> FirstSure(t0) <= DueOn(t0, day)
  {
    DayBounds(t0);
    forall day | DueOn(t0, day) >= t0 ensures FirstSure(t0) <= DueOn(t0, day) {
      DayOfDue(t0, day);
      DaysInOrder(t0, DueOn(t0, day));
    }
  }

  /** Successive days have different days of the year. */
  ghost predicate DaysDiffer(ordinal: int -> int) {
    forall d, e :: e == d + 1 ==> ordinal(d) != ordinal(e)
  }

  /** A payout at the first tick of hour 2 of any day before `end` would succeed; others may fail. */
  ghost predicate Punctual(ok: int -> bool, t0: int, end: int) {
    forall day :: t0 <= DueOn(t0, day) < end ==> ok(DueOn(t0, day))
  }

  /**
   No first tick of hour 2 has passed without that day's payout, and all payouts but perhaps the first happened then.
   */
  ghost predicate UpToDate(t0: int, s: LoopState) {
    && s.now <= NextSure(t0, s.paid)
    && (s.paid != [] ==> t0 <= s.paid[0] <= FirstSure(t0))
    && (forall i, j :: 0 <= i < j < |s.paid| && j == i + 1 ==> s.paid[j] == DueOn(t0, DayOf(s.paid[i]) + 1))
  }

  lemma {:induction false} LoopIsUpToDate(ordinal: int -> int, ok: int -> bool, t0: int, k: nat)
    requires DaysDiffer(ordinal) && Punctual(ok, t0, t0 + TICK * k)
    ensures UpToDate(t0, LoopAfter(ordinal, ok, t0, k))
  {
    if k > 0 {
      LoopIsUpToDate(ordinal, ok, t0, k - 1);
      LoopIsOrderly(ordinal, ok, t0, k - 1);
      StaysUpToDate(ordinal, ok, t0, k - 1, LoopAfter(ordinal, ok, t0, k - 1));
    } else {
      FirstSureIs(t0);
    }
  }

  lemma StaysUpToDate(ordinal: int -> int, ok: int -> bool, t0: int, k: nat, s: LoopState)
    requires DaysDiffer(ordinal) && Punctual(ok, t0, s.now + TICK)
    requires s.now == t0 + TICK * k && Orderly(ordinal, s) && UpToDate(t0, s)
    ensures UpToDate(t0, Ticked(ordinal, ok, s))
  {
    TickBeforeNextDay(t0, k);
    if s.now == NextSure(t0, s.paid) {
      DuePays(ordinal, ok, t0, s);
    } else {
      TickBeforeDue(t0, k, NextDay(t0, s.paid));
      if s.paid != [] {
        NoEarlyPayout(ordinal, ok, t0, k, s);
      }
    }
    TickKeeps(t0, s, Ticked(ordinal, ok, s));
  }

  lemma TickKeeps(t0: int, s: LoopState, t: LoopState)
    requires UpToDate(t0, s) && t0 <= s.now && t.now == s.now + TICK
    requires t.paid == s.paid ==> t.now <= NextSure(t0, s.paid)
    requires t.paid == s.paid ||
      (&& t.paid == s.paid + [s.now] && t.now <= DueOn(t0, DayOf(s.now) + 1)
       && (s.paid != [] ==> s.now == NextSure(t0, s.paid)))
    ensures UpToDate(t0, t)
  {
  }

  /** At the next due tick the payout happens. */
  lemma DuePays(ordinal: int -> int, ok: int -> bool, t0: int, s: LoopState)
    requires DaysDiffer(ordinal) && Punctual(ok, t0, s.now + TICK) && t0 <= s.now
    requires Orderly(ordinal, s) && s.now == NextSure(t0, s.paid)
    ensures OnTick(s.last, ordinal, s.now, ok(s.now)).1
  {
    var day := NextDay(t0, s.paid);
    DayOfDue(t0, day);
    assert ok(DueOn(t0, day));
    assert ordinal(day - 1) != ordinal(day);
  }

  /** After a payout, none happens before the first tick of hour 2 of the next day. */
  lemma NoEarlyPayout(ordinal: int -> int, ok: int -> bool, t0: int, k: nat, s: LoopState)
    requires s.now == t0 + TICK * k && Orderly(ordinal, s) && s.paid != [] && s.now < NextSure(t0, s.paid)
    ensures !OnTick(s.last, ordinal, s.now, ok(s.now)).1
  {
    var day := DayOf(LastPaid(s.paid));
    DaysInOrder(LastPaid(s.paid), s.now);
    DaysInOrder(s.now, DueOn(t0, day + 1));
    DayOfDue(t0, day + 1);
    if HourOfDay(s.now) == PAYOUT_HOUR {
      TickInHour(t0, k);
    }
  }

  /** The first payout: at once if the loop starts in hour 2, else at the next first tick in hour 2. */
  function FirstDue(t0: int): int {
    if HourOfDay(t0) == PAYOUT_HOUR then t0 else FirstSure(t0)
  }

  /** If also a payout at the very start would succeed, the first payout is as early as it can be. */
  lemma {:induction false} FirstPayoutIs(ordinal: int -> int, ok: int -> bool, t0: int, k: nat)
    requires DaysDiffer(ordinal) && Punctual(ok, t0, t0 + TICK * k) && ok(t0)
    ensures var s := LoopAfter(ordinal, ok, t0, k);
      if s.paid == [] then s.now <= FirstDue(t0) else s.paid[0] == FirstDue(t0)
  {
    if k == 0 {
      FirstSureIs(t0);
    } else {
      FirstPayoutIs(ordinal, ok, t0, k - 1);
      LoopIsUpToDate(ordinal, ok, t0, k);
      LoopIsOrderly(ordinal, ok, t0, k - 1);
      var s := LoopAfter(ordinal, ok, t0, k - 1);
      if s.paid == [] {
        if HourOfDay(t0) != PAYOUT_HOUR {
          FirstPaysWhenDue(ordinal, ok, t0, k - 1, s);
        } else {
          assert s.now == t0;
        }
      }
    }
  }

  lemma FirstPaysWhenDue(ordinal: int -> int, ok: int -> bool, t0: int, k: nat, s: LoopState)
    requires HourOfDay(t0) != PAYOUT_HOUR && s.now == t0 + TICK * k && s.now <= FirstSure(t0)
    ensures OnTick(s.last, ordinal, s.now, ok(s.now)).1 ==> s.now == FirstSure(t0)
  {
    if HourOfDay(s.now) == PAYOUT_HOUR {
      TickInHour(t0, k);
      StartsBeforeHour(t0, s.now);
      FirstSureIs(t0);
    }
  }

  /** A loop that starts outside hour 2 sees the first tick of an hour 2 that it is in. */
  lemma StartsBeforeHour(t0: int, now: int)
    requires t0 <= now && HourOfDay(now) == PAYOUT_HOUR && HourOfDay(t0) != PAYOUT_HOUR
    ensures DueOn(t0, DayOf(now)) >= t0
  {
    PayoutHourIs(t0);
    PayoutHourIs(now);
    DayBounds(t0);
    DaysInOrder(t0, now);
  }

  /**
   If payouts succeed at first ticks of hour 2, then from the second on payouts are exactly a day apart, so their
   windows tile time; the first window meets the second exactly when the loop's first payout was a first tick of hour 2.
   */
  lemma WindowsTile(ordinal: int -> int, ok: int -> bool, t0: int, k: nat, i: nat)
    requires DaysDiffer(ordinal) && Punctual(ok, t0, t0 + TICK * k)
    requires 0 < i < |LoopAfter(ordinal, ok, t0, k).paid|
    ensures var paid := LoopAfter(ordinal, ok, t0, k).paid;
      && (i >= 2 ==> paid[i] - DAY == paid[i - 1])
      && (paid[i] - DAY == paid[i - 1] <==> i >= 2 || paid[0] == DueOn(t0, DayOf(paid[0])))
  {
    LoopIsUpToDate(ordinal, ok, t0, k);
    var paid := LoopAfter(ordinal, ok, t0, k).paid;
    assert paid[i] == DueOn(t0, DayOf(paid[i - 1]) + 1);
    if i >= 2 {
      assert paid[i - 1] == DueOn(t0, DayOf(paid[i - 2]) + 1);
      DayOfDue(t0, DayOf(paid[i - 2]) + 1);
    }
  }

  // ----- Usage over the windows

  lemma {:induction false} UsageSplits(rows: seq<Row>, a: int, b: int, c: int)
    requires a <= b <= c
    ensures Usage(rows, a, b) + Usage(rows, b, c) == Usage(rows, a, c)
  {
    if rows != [] {
      UsageSplits(rows[..|rows| - 1], a, b, c);
    }
  }

  /** The usage paid for by payouts `1` to `n`. */
  function UsagePaid(rows: seq<Row>, paid: seq<int>, n: nat): int
    requires n < |paid|
  {
    if n == 0 then 0 else UsagePaid(rows, paid, n - 1) + Usage(rows, paid[n] - DAY, paid[n])
  }

  lemma {:induction false} TiledUsage(rows: seq<Row>, paid: seq<int>, n: nat)
    requires 0 < n < |paid| && forall i :: 2 <= i <= n ==> paid[i] - DAY == paid[i - 1]
    ensures paid[1] - DAY <= paid[n]
    ensures UsagePaid(rows, paid, n) == Usage(rows, paid[1] - DAY, paid[n])
  {
    if n > 1 {
      TiledUsage(rows, paid, n - 1);
      UsageSplits(rows, paid[1] - DAY, paid[n - 1], paid[n]);
    } else {
      assert UsagePaid(rows, paid, 0) == 0;
    }
  }

  /** If payouts succeed at first ticks of hour 2, all usage between the start of the second window and the last payout is paid for once. */
  lemma UsageIsPaidOnce(rows: seq<Row>, ordinal: int -> int, ok: int -> bool, t0: int, k: nat)
    requires DaysDiffer(ordinal) && Punctual(ok, t0, t0 + TICK * k)
    requires |LoopAfter(ordinal, ok, t0, k).paid| > 1
    ensures var paid := LoopAfter(ordinal, ok, t0, k).paid;
      UsagePaid(rows, paid, |paid| - 1) == Usage(rows, paid[1] - DAY, LastPaid(paid))
  {
    var paid := LoopAfter(ordinal, ok, t0, k).paid;
    forall i | 2 <= i <= |paid| - 1 ensures paid[i] - DAY == paid[i - 1] {
      WindowsTile(ordinal, ok, t0, k, i);
    }
    TiledUsage(rows, paid, |paid| - 1);
  }
}
