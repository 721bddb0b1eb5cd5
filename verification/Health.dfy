/** Counting consecutive probe failures, once in memory and once from the database, and what they amount to. */
module Health {
  import opened Nodes
  import opened Prelude

  const DEGRADED_AFTER := 3
  const OFFLINE_AFTER := 10

  /** How many probes are read back from the database. */
  const PROBES_READ := 10

  function Classify(consecutive: nat): NodeStatus {
    if consecutive >= OFFLINE_AFTER then Offline
    else if consecutive >= DEGRADED_AFTER then Degraded
    else Online
  }

  /** The run of failures at the end of a probe history, oldest probe first. */
  function TrailingFailures(history: seq<bool>): nat {
    if history == [] || history[|history| - 1] then 0
    else 1 + TrailingFailures(history[..|history| - 1])
  }

  /** The thresholds: three failures in a row degrade a node, ten take it offline. */
  lemma ClassifyIs(consecutive: nat)
    ensures Classify(consecutive) ==
      if consecutive < 3 then Online else if consecutive < 10 then Degraded else Offline
  {
  }

  /** The run reaches back to the last success, or to the first probe. */
  lemma {:induction false} TrailingFailuresIs(history: seq<bool>)
    ensures var n := TrailingFailures(history);
      && n <= |history| && (forall i :: |history| - n <= i < |history| ==> !history[i])
      && (n < |history| ==> history[|history| - n - 1])
  {
    if history != [] && !history[|history| - 1] {
      TrailingFailuresIs(history[..|history| - 1]);
    }
  }

  // ----- In memory

  type FailureCounts = map<string, nat>

  /** A success forgets the counter; a failure starts or bumps it. */
  function CountProbe(counts: FailureCounts, id: string, success: bool): FailureCounts {
    if success then counts - {id}
    else if id in counts then counts[id := counts[id] + 1]
    else counts[id := 1]
  }

  function Counter(counts: FailureCounts, id: string): nat {
    if id in counts then counts[id] else 0
  }

  /** The counters after the probes of one node. */
  function CountAll(counts: FailureCounts, id: string, history: seq<bool>): FailureCounts {
    if history == [] then counts
    else CountProbe(CountAll(counts, id, history[..|history| - 1]), id, history[|history| - 1])
  }

  // ----- From the database

  /** The latest `n` probes, latest first, as `ORDER BY checked_at DESC LIMIT n` returns them. */
  function Latest(history: seq<bool>, n: nat): seq<bool> {
    if n == 0 || history == [] then []
    else [history[|history| - 1]] + Latest(history[..|history| - 1], n - 1)
  }

  /** The latest probe comes first. */
  lemma {:induction false} LatestIs(history: seq<bool>, n: nat)
    ensures |Latest(history, n)| == Min(|history|, n)
    ensures forall i :: 0 <= i < |Latest(history, n)| ==> Latest(history, n)[i] == history[|history| - 1 - i]
  {
    if n > 0 && history != [] {
      LatestIs(history[..|history| - 1], n - 1);
    }
  }

  function LeadingFailures(rows: seq<bool>): nat {
    if rows == [] || rows[0] then 0 else 1 + LeadingFailures(rows[1..])
  }

  /** `count_consecutive_failures`; `None` stands for a query that failed. */
  method CountConsecutiveFailures(rows: Option<seq<bool>>) returns (count: nat)
    ensures count == match rows case None => 0 case Some(found) => LeadingFailures(found)
    ensures match rows
      case None => count == 0
      case Some(found) =>
        && count <= |found| && (forall i :: 0 <= i < count ==> !found[i])
        && (count < |found| ==> found[count])
  {
    if rows == None {
      return 0;
    }
    count := 0;
    var found := rows.value;
    var i := 0;
    while i < |found|
      invariant 0 <= i <= |found| && count == i
      invariant forall j :: 0 <= j < i ==> !found[j]
      invariant count + LeadingFailures(found[i..]) == LeadingFailures(found)
    {
      assert found[i..][1..] == found[i + 1..];
      if !found[i] {
        count := count + 1;
      } else {
        break;
      }
      i := i + 1;
    }
  }

  // ----- Agreement

  lemma {:induction false} MemoryCountsTheRun(id: string, history: seq<bool>)
    ensures var counts := CountAll(map[], id, history);
      && Counter(counts, id) == TrailingFailures(history)
      && (id in counts <==> TrailingFailures(history) > 0)
  {
    if history != [] {
      MemoryCountsTheRun(id, history[..|history| - 1]);
    }
  }

  lemma {:induction false} DatabaseCountsTheRun(history: seq<bool>, n: nat)
    ensures LeadingFailures(Latest(history, n)) == Min(TrailingFailures(history), n)
  {
    if n > 0 && history != [] {
      DatabaseCountsTheRun(history[..|history| - 1], n - 1);
      assert Latest(history, n)[1..] == Latest(history[..|history| - 1], n - 1);
    }
  }

  /**
   For every probe history the in-memory counter is the trailing run of failures, the count from the database is
   that run cut off at ten, and both lead to the same status.
   */
  lemma CountersAgree(id: string, history: seq<bool>)
    ensures Counter(CountAll(map[], id, history), id) == TrailingFailures(history)
    ensures LeadingFailures(Latest(history, PROBES_READ)) == Min(TrailingFailures(history), PROBES_READ)
    ensures Classify(Counter(CountAll(map[], id, history), id)) == Classify(LeadingFailures(Latest(history, PROBES_READ)))
  {
    MemoryCountsTheRun(id, history);
    DatabaseCountsTheRun(history, PROBES_READ);
  }

  /** Reading back `n` probes classifies every history correctly exactly when `n` is at least the offline threshold. */
  lemma EnoughProbesRead(n: nat)
    ensures n >= OFFLINE_AFTER <==>
      forall history :: Classify(LeadingFailures(Latest(history, n))) == Classify(TrailingFailures(history))
  {
    if n >= OFFLINE_AFTER {
      forall history ensures Classify(LeadingFailures(Latest(history, n))) == Classify(TrailingFailures(history)) {
        DatabaseCountsTheRun(history, n);
      }
    } else {
      var history := Failures(OFFLINE_AFTER);
      FailuresTrail(OFFLINE_AFTER);
      DatabaseCountsTheRun(history, n);
      assert Classify(LeadingFailures(Latest(history, n))) != Classify(TrailingFailures(history));
    }
  }

  function Failures(n: nat): seq<bool> {
    if n == 0 then [] else Failures(n - 1) + [false]
  }

  lemma {:induction false} FailuresTrail(n: nat)
    ensures TrailingFailures(Failures(n)) == n
  {
    if n > 0 {
      FailuresTrail(n - 1);
      assert Failures(n)[..|Failures(n)| - 1] == Failures(n - 1);
    }
  }
}
