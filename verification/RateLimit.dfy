/**
 The fixed-window rate limiter over a store whose entries expire.  Times are seconds on one clock;
 requests of several gateways interleave, so a command lands some time after the clock was read.
 */
module RateLimit {
  import opened Names
  import opened Prelude

  const WINDOW := 60
  const TTL := 120.0

  /** How long after the clock read an increment may land for the window to be safe. */
  const PROMPT := 60.0

  // ----- The store

  datatype Entry = Entry(count: int, expires: Option<real>)

  type Store = map<string, Entry>

  predicate Live(store: Store, name: string, at: real) {
    name in store && (store[name].expires == None || at < store[name].expires.value)
  }

  function Incr(store: Store, name: string, at: real): Store {
    store[name := if Live(store, name, at) then store[name].(count := store[name].count + 1) else Entry(1, None)]
  }

  function Expire(store: Store, name: string, at: real): Store {
    if Live(store, name, at) then store[name := store[name].(expires := Some(at + TTL))] else store
  }

  /** The aligned minute of a time after the epoch. */
  function Minute(clock: real): int {
    clock.Floor / WINDOW
  }

  // ----- The limiter

  /** What can go wrong between the limiter and the store. */
  datatype Fault = NoFault | IncrLost | IncrUnanswered | ExpireLost

  function Counted(store: Store, keyId: string, clock: real, incrAt: real): Store {
    Incr(store, RateKey(keyId, Minute(clock)), incrAt)
  }

  function CountOf(store: Store, keyId: string, clock: real, incrAt: real): int {
    Counted(store, keyId, clock, incrAt)[RateKey(keyId, Minute(clock))].count
  }

  /** The store after one call. */
  function StoreAfter(store: Store, keyId: string, clock: real, incrAt: real, expireAt: real, fault: Fault): Store {
    if fault == IncrLost then store
    else if CountOf(store, keyId, clock, incrAt) == 1 && fault == NoFault then
      Expire(Counted(store, keyId, clock, incrAt), RateKey(keyId, Minute(clock)), expireAt)
    else Counted(store, keyId, clock, incrAt)
  }

  /** The first request of a minute starts its count at one, to be kept until 120 seconds after the expiry was set. */
  lemma FirstCallIs(store: Store, keyId: string, clock: real, incrAt: real, expireAt: real, fault: Fault)
    requires RateKey(keyId, Minute(clock)) !in store && fault != IncrLost
    ensures StoreAfter(store, keyId, clock, incrAt, expireAt, fault) ==
      store[RateKey(keyId, Minute(clock)) := Entry(1, if fault == NoFault then Some(expireAt + 120.0) else None)]
  {
    var name := RateKey(keyId, Minute(clock));
    assert Counted(store, keyId, clock, incrAt) == store[name := Entry(1, None)];
    assert store[name := Entry(1, None)][name := Entry(1, Some(expireAt + TTL))] == store[name := Entry(1, Some(expireAt + TTL))];
  }

  /** Any later one, while the count is kept, adds one and leaves its expiry alone; nothing else in the store changes. */
  lemma LaterCallIs(store: Store, keyId: string, clock: real, incrAt: real, expireAt: real, fault: Fault)
    requires var name := RateKey(keyId, Minute(clock));
      name in store && store[name].count >= 1 && (store[name].expires.Some? ==> incrAt < store[name].expires.value)
    requires fault != IncrLost
    ensures var name := RateKey(keyId, Minute(clock));
      StoreAfter(store, keyId, clock, incrAt, expireAt, fault) == store[name := Entry(store[name].count + 1, store[name].expires)]
  {
  }

  class RateLimiter {
    var store: Store

    constructor ()
      ensures store == map[]
    {
      store := map[];
    }

    /** The clock reads `clock`; the increment lands at `incrAt` and the expiry, if any, at `expireAt`. */
    method CheckAndIncrement(keyId: string, rpm: int, clock: real, incrAt: real, expireAt: real, fault: Fault)
      returns (r: Result<bool, string>)
      requires 0.0 <= clock <= incrAt <= expireAt
      modifies this
      ensures store == StoreAfter(old(store), keyId, clock, incrAt, expireAt, fault)
      ensures var count := CountOf(old(store), keyId, clock, incrAt);
        r == if fault == IncrLost || fault == IncrUnanswered then Err("INCR failed")
             else if count == 1 && fault == ExpireLost then Err("EXPIRE failed")
             else Ok(count <= rpm)
    {
      var minute := clock.Floor / WINDOW;
      var redisKey := RateKey(keyId, minute);
      if fault == IncrLost {
        return Err("INCR failed");
      }
      store := Incr(store, redisKey, incrAt);
      if fault == IncrUnanswered {
        return Err("INCR failed");
      }
      var count := store[redisKey].count;
      if count == 1 {
        if fault == ExpireLost {
          return Err("EXPIRE failed");
        }
        store := Expire(store, redisKey, expireAt);
      }
      return Ok(count <= rpm);
    }
  }

  // ----- Interleavings

  /** The commands of all gateways in the order in which the store executes them. */
  datatype Op =
    | IncrOp(keyId: string, clock: real, at: real)
    | ExpireOp(keyId: string, minute: int, at: real)

  function Apply(store: Store, op: Op): Store {
    match op
    case IncrOp(keyId, clock, at) => Incr(store, RateKey(keyId, Minute(clock)), at)
    case ExpireOp(keyId, minute, at) => Expire(store, RateKey(keyId, minute), at)
  }

  function Run(trace: seq<Op>): Store {
    if trace == [] then map[] else Apply(Run(trace[..|trace| - 1]), trace[|trace| - 1])
  }

  predicate Counts(op: Op, keyId: string, minute: int) {
    op.IncrOp? && op.keyId == keyId && Minute(op.clock) == minute
  }

  /** The unbounded per-minute counter: how many requests of a key read the clock in a minute. */
  function Requests(trace: seq<Op>, keyId: string, minute: int): nat {
    if trace == [] then 0
    else Requests(trace[..|trace| - 1], keyId, minute) + if Counts(trace[|trace| - 1], keyId, minute) then 1 else 0
  }

  function LastAt(trace: seq<Op>): real {
    if trace == [] then 0.0 else trace[|trace| - 1].at
  }

  /**
   Commands execute in time order; increments land after the clock read, and at most `delay` after it;
   an expiry is only ever set on a window that has been incremented.
   */
  predicate Delayed(trace: seq<Op>, delay: real) {
    trace == [] ||
    var before, op := trace[..|trace| - 1], trace[|trace| - 1];
    && Delayed(before, delay)
    && LastAt(before) <= op.at
    && match op
       case IncrOp(_, clock, at) => 0.0 <= clock <= at <= clock + delay
       case ExpireOp(keyId, minute, _) => Requests(before, keyId, minute) > 0
  }

  predicate Prompt(trace: seq<Op>) {
    Delayed(trace, PROMPT)
  }

  /** Whether the last command is a request that is let through. */
  function LetThrough(trace: seq<Op>, keyId: string, minute: int, rpm: int): nat
    requires trace != []
  {
    var op, name := trace[|trace| - 1], RateKey(keyId, minute);
    if Counts(op, keyId, minute) && Run(trace)[name].count <= rpm then 1 else 0
  }

  function Admitted(trace: seq<Op>, keyId: string, minute: int, rpm: int): nat {
    if trace == [] then 0
    else Admitted(trace[..|trace| - 1], keyId, minute, rpm) + LetThrough(trace, keyId, minute, rpm)
  }

  /** The commands of one call that reach a store, when no other gateway's come between them. */
  function CallOps(store: Store, keyId: string, clock: real, incrAt: real, expireAt: real, fault: Fault): seq<Op> {
    if fault == IncrLost then []
    else if CountOf(store, keyId, clock, incrAt) == 1 && fault == NoFault then
      [IncrOp(keyId, clock, incrAt), ExpireOp(keyId, Minute(clock), expireAt)]
    else [IncrOp(keyId, clock, incrAt)]
  }

  lemma RunOneMore(trace: seq<Op>, op: Op)
    ensures Run(trace + [op]) == Apply(Run(trace), op)
  {
    assert (trace + [op])[..|trace|] == trace;
  }

  lemma PromptIncr(trace: seq<Op>, op: Op)
    requires Prompt(trace) && LastAt(trace) <= op.at && op.IncrOp? && 0.0 <= op.clock <= op.at <= op.clock + PROMPT
    ensures Prompt(trace + [op]) && LastAt(trace + [op]) == op.at
  {
    var longer := trace + [op];
    assert longer[..|longer| - 1] == trace && longer[|longer| - 1] == op;
  }

  lemma IncrIsRequest(trace: seq<Op>, op: Op)
    requires op.IncrOp?
    ensures Requests(trace + [op], op.keyId, Minute(op.clock)) > 0
  {
    var longer := trace + [op];
    assert longer[..|longer| - 1] == trace && longer[|longer| - 1] == op;
  }

  lemma PromptExpire(trace: seq<Op>, op: Op)
    requires Prompt(trace) && LastAt(trace) <= op.at && op.ExpireOp? && Requests(trace, op.keyId, op.minute) > 0
    ensures Prompt(trace + [op])
  {
    var longer := trace + [op];
    assert longer[..|longer| - 1] == trace && longer[|longer| - 1] == op;
  }

  lemma IncrIsCounted(trace: seq<Op>, keyId: string, clock: real, incrAt: real)
    ensures Run(trace + [IncrOp(keyId, clock, incrAt)]) == Counted(Run(trace), keyId, clock, incrAt)
  {
    RunOneMore(trace, IncrOp(keyId, clock, incrAt));
  }

  lemma CallStore(trace: seq<Op>, keyId: string, clock: real, incrAt: real, expireAt: real, fault: Fault)
    ensures Run(trace + CallOps(Run(trace), keyId, clock, incrAt, expireAt, fault)) ==
      StoreAfter(Run(trace), keyId, clock, incrAt, expireAt, fault)
  {
    var incr, expire := IncrOp(keyId, clock, incrAt), ExpireOp(keyId, Minute(clock), expireAt);
    var ops := CallOps(Run(trace), keyId, clock, incrAt, expireAt, fault);
    IncrIsCounted(trace, keyId, clock, incrAt);
    if ops == [] {
      assert trace + ops == trace;
    } else if |ops| == 2 {
      RunOneMore(trace + [incr], expire);
      assert trace + ops == (trace + [incr]) + [expire];
    }
  }

  lemma CallIsPrompt(trace: seq<Op>, store: Store, keyId: string, clock: real, incrAt: real, expireAt: real, fault: Fault)
    requires Prompt(trace) && LastAt(trace) <= incrAt && 0.0 <= clock <= incrAt <= expireAt && incrAt <= clock + PROMPT
    ensures Prompt(trace + CallOps(store, keyId, clock, incrAt, expireAt, fault))
  {
    var incr, expire := IncrOp(keyId, clock, incrAt), ExpireOp(keyId, Minute(clock), expireAt);
    var ops := CallOps(store, keyId, clock, incrAt, expireAt, fault);
    PromptIncr(trace, incr);
    if ops == [] {
      assert trace + ops == trace;
    } else if |ops| == 2 {
      IncrIsRequest(trace, incr);
      PromptExpire(trace + [incr], expire);
      assert trace + ops == (trace + [incr]) + [expire];
    }
  }

  /**
   A call does to the store what its commands do at the end of a trace, which they keep prompt; and it lets the
   request through exactly if the trace does.
   */
  lemma CallIsTrace(trace: seq<Op>, keyId: string, rpm: int, clock: real, incrAt: real, expireAt: real, fault: Fault)
    requires Prompt(trace) && LastAt(trace) <= incrAt && 0.0 <= clock <= incrAt <= expireAt && incrAt <= clock + PROMPT
    ensures var longer := trace + CallOps(Run(trace), keyId, clock, incrAt, expireAt, fault);
      Prompt(longer) && Run(longer) == StoreAfter(Run(trace), keyId, clock, incrAt, expireAt, fault)
    ensures CountOf(Run(trace), keyId, clock, incrAt) <= rpm <==>
      LetThrough(trace + [IncrOp(keyId, clock, incrAt)], keyId, Minute(clock), rpm) == 1
  {
    CallStore(trace, keyId, clock, incrAt, expireAt, fault);
    CallIsPrompt(trace, Run(trace), keyId, clock, incrAt, expireAt, fault);
    IncrIsCounted(trace, keyId, clock, incrAt);
  }

  // ----- Refinement

  lemma MinuteBounds(clock: real, minute: int)
    requires Minute(clock) == minute
    ensures (60 * minute) as real <= clock < (60 * minute + 60) as real
  {
  }

  /**
   In every prompt interleaving the stored counter is the unbounded per-minute counter, and its entry
   outlives every increment that can still reach it.
   */
  lemma {:induction false} CounterRefines(trace: seq<Op>, keyId: string, minute: int)
    requires Prompt(trace)
    ensures var n, name, store := Requests(trace, keyId, minute), RateKey(keyId, minute), Run(trace);
      && (n == 0 ==> name !in store)
      && (n > 0 ==>
            && name in store && store[name].count == n
            && LastAt(trace) >= (60 * minute) as real
            && (store[name].expires == None || store[name].expires.value >= (60 * minute + 120) as real))
  {
    if trace != [] {
      var before, op := trace[..|trace| - 1], trace[|trace| - 1];
      CounterRefines(before, keyId, minute);
      var other := if op.IncrOp? then Minute(op.clock) else op.minute;
      if RateKey(op.keyId, other) == RateKey(keyId, minute) {
        RateKeyInjective(op.keyId, other, keyId, minute);
        if op.IncrOp? {
          MinuteBounds(op.clock, minute);
        }
      }
    }
  }

  /** Without store errors, exactly `min(requests, rpm)` requests of a key are admitted per aligned minute. */
  lemma {:induction false} AdmittedIs(trace: seq<Op>, keyId: string, minute: int, rpm: int)
    requires Prompt(trace)
    ensures Admitted(trace, keyId, minute, rpm) == Max(0, Min(Requests(trace, keyId, minute), rpm))
  {
    if trace != [] {
      AdmittedIs(trace[..|trace| - 1], keyId, minute, rpm);
      CounterRefines(trace, keyId, minute);
    }
  }

  // ----- Any interval

  /** Requests of a key let through that read the clock in `[from, to)`. */
  function AdmittedBetween(trace: seq<Op>, keyId: string, rpm: int, from: real, to: real): nat {
    if trace == [] then 0
    else
      var op := trace[|trace| - 1];
      AdmittedBetween(trace[..|trace| - 1], keyId, rpm, from, to) +
      if op.IncrOp? && from <= op.clock < to then LetThrough(trace, keyId, Minute(op.clock), rpm) else 0
  }

  function AdmittedInMinutes(trace: seq<Op>, keyId: string, rpm: int, first: int, n: nat): nat {
    if n == 0 then 0
    else AdmittedInMinutes(trace, keyId, rpm, first, n - 1) + Admitted(trace, keyId, first + n - 1, rpm)
  }

  lemma {:induction false} MinutesNeverShrink(trace: seq<Op>, keyId: string, rpm: int, first: int, n: nat)
    requires trace != []
    ensures AdmittedInMinutes(trace, keyId, rpm, first, n) >= AdmittedInMinutes(trace[..|trace| - 1], keyId, rpm, first, n)
  {
    if n > 0 {
      MinutesNeverShrink(trace, keyId, rpm, first, n - 1);
    }
  }

  /** One more command adds what it lets through to the minute it counts in. */
  lemma {:induction false} MinutesGrow(trace: seq<Op>, keyId: string, rpm: int, first: int, n: nat, minute: int)
    requires trace != [] && first <= minute < first + n
    ensures AdmittedInMinutes(trace, keyId, rpm, first, n) >=
      AdmittedInMinutes(trace[..|trace| - 1], keyId, rpm, first, n) + LetThrough(trace, keyId, minute, rpm)
  {
    if minute == first + n - 1 {
      MinutesNeverShrink(trace, keyId, rpm, first, n - 1);
    } else {
      MinutesGrow(trace, keyId, rpm, first, n - 1, minute);
    }
  }

  lemma {:induction false} BetweenWithinMinutes(trace: seq<Op>, keyId: string, rpm: int, from: real, to: real, first: int, n: nat)
    requires (60 * first) as real <= from && to <= (60 * (first + n)) as real
    ensures AdmittedBetween(trace, keyId, rpm, from, to) <= AdmittedInMinutes(trace, keyId, rpm, first, n)
  {
    if trace != [] {
      var op := trace[|trace| - 1];
      BetweenWithinMinutes(trace[..|trace| - 1], keyId, rpm, from, to, first, n);
      MinutesNeverShrink(trace, keyId, rpm, first, n);
      if op.IncrOp? && from <= op.clock < to {
        MinuteBounds(op.clock, Minute(op.clock));
        MinutesGrow(trace, keyId, rpm, first, n, Minute(op.clock));
      }
    }
  }

  lemma {:induction false} MinutesBounded(trace: seq<Op>, keyId: string, rpm: nat, first: int, n: nat)
    requires Prompt(trace)
    ensures AdmittedInMinutes(trace, keyId, rpm, first, n) <= n * rpm
  {
    if n > 0 {
      MinutesBounded(trace, keyId, rpm, first, n - 1);
      AdmittedIs(trace, keyId, first + n - 1, rpm);
      assert n * rpm == (n - 1) * rpm + rpm;
    }
  }

  /** In any `minutes` minutes, wherever they begin, at most `minutes + 1` times the limit is admitted. */
  lemma IntervalBound(trace: seq<Op>, keyId: string, rpm: nat, from: real, minutes: nat)
    requires Prompt(trace)
    ensures AdmittedBetween(trace, keyId, rpm, from, from + (60 * minutes) as real) <= (minutes + 1) * rpm
  {
    var first := Minute(from);
    MinuteBounds(from, first);
    BetweenWithinMinutes(trace, keyId, rpm, from, from + (60 * minutes) as real, first, minutes + 1);
    MinutesBounded(trace, keyId, rpm, first, minutes + 1);
  }

  // ----- The bounds are reached

  function Burst(trace: seq<Op>, keyId: string, at: real, n: nat): seq<Op> {
    if n == 0 then trace else Burst(trace, keyId, at, n - 1) + [IncrOp(keyId, at, at)]
  }

  lemma {:induction false} BurstIsPrompt(trace: seq<Op>, keyId: string, at: real, n: nat)
    requires Prompt(trace) && LastAt(trace) <= at && 0.0 <= at
    ensures Prompt(Burst(trace, keyId, at, n)) && LastAt(Burst(trace, keyId, at, n)) <= at
  {
    if n > 0 {
      BurstIsPrompt(trace, keyId, at, n - 1);
      var t := Burst(trace, keyId, at, n);
      assert t[..|t| - 1] == Burst(trace, keyId, at, n - 1);
    }
  }

  lemma {:induction false} BurstCounts(trace: seq<Op>, keyId: string, at: real, n: nat, minute: int)
    ensures Requests(Burst(trace, keyId, at, n), keyId, minute) ==
      Requests(trace, keyId, minute) + if minute == Minute(at) then n else 0
  {
    if n > 0 {
      BurstCounts(trace, keyId, at, n - 1, minute);
      var t := Burst(trace, keyId, at, n);
      assert t[..|t| - 1] == Burst(trace, keyId, at, n - 1);
    }
  }

  lemma WithinLimit(trace: seq<Op>, keyId: string, minute: int, rpm: int)
    requires Prompt(trace) && trace != [] && Counts(trace[|trace| - 1], keyId, minute)
    requires Requests(trace, keyId, minute) <= rpm
    ensures LetThrough(trace, keyId, minute, rpm) == 1
  {
    CounterRefines(trace, keyId, minute);
  }

  lemma {:induction false} BurstAdmits(trace: seq<Op>, keyId: string, at: real, n: nat, rpm: int, from: real, to: real)
    requires Prompt(trace) && LastAt(trace) <= at && 0.0 <= at && from <= at < to
    requires Requests(trace, keyId, Minute(at)) == 0 && n <= rpm
    ensures AdmittedBetween(Burst(trace, keyId, at, n), keyId, rpm, from, to) == AdmittedBetween(trace, keyId, rpm, from, to) + n
  {
    if n > 0 {
      BurstAdmits(trace, keyId, at, n - 1, rpm, from, to);
      BurstIsPrompt(trace, keyId, at, n);
      BurstCounts(trace, keyId, at, n, Minute(at));
      var t := Burst(trace, keyId, at, n);
      assert t[..|t| - 1] == Burst(trace, keyId, at, n - 1);
      WithinLimit(t, keyId, Minute(at), rpm);
    }
  }

  /** Twice the limit can get through within one second, across the turn of a minute. */
  lemma TwiceTheLimit(keyId: string, rpm: nat) returns (trace: seq<Op>)
    ensures Prompt(trace) && LastAt(trace) <= 60.0
    ensures AdmittedBetween(trace, keyId, rpm, 59.0, 119.0) == 2 * rpm
  {
    var early := Burst([], keyId, 59.0, rpm);
    BurstIsPrompt([], keyId, 59.0, rpm);
    BurstCounts([], keyId, 59.0, rpm, 1);
    BurstAdmits([], keyId, 59.0, rpm, rpm, 59.0, 119.0);
    assert Minute(59.0) == 0 && Minute(60.0) == 1;
    trace := Burst(early, keyId, 60.0, rpm);
    BurstIsPrompt(early, keyId, 60.0, rpm);
    BurstAdmits(early, keyId, 60.0, rpm, rpm, 59.0, 119.0);
  }

  /** Promptness is needed: with any longer delay allowed, an increment can find its window expired. */
  lemma LateIncrementForgets(keyId: string, delay: real) returns (trace: seq<Op>)
    requires delay > PROMPT
    ensures Delayed(trace, delay) && Requests(trace, keyId, 0) == 2
    ensures RateKey(keyId, 0) in Run(trace) && Run(trace)[RateKey(keyId, 0)].count == 1
  {
    var clock := if delay >= 120.0 then 0.0 else 120.0 - delay;
    var a, b, c := IncrOp(keyId, 0.0, 0.0), ExpireOp(keyId, 0, 0.0), IncrOp(keyId, clock, clock + delay);
    assert Minute(0.0) == 0 && Minute(clock) == 0;
    assert [a][..0] == [] && [a, b][..1] == [a] && [a, b, c][..2] == [a, b];
    assert Requests([a], keyId, 0) == 1 && Requests([a, b], keyId, 0) == 1;
    assert Delayed([], delay) && LastAt([]) == 0.0;
    assert Delayed([a], delay) && Delayed([a, b], delay);
    var name := RateKey(keyId, 0);
    assert Run([a])[name] == Entry(1, None);
    assert Run([a, b])[name] == Entry(1, Some(120.0));
    trace := [a, b, c];
  }
}
