/**
 Round-robin fairness.  The first part is about the arithmetic of turns; the second says what it means for the
 candidates that a series of calls to the coordinator returns.
 */
module Fairness {
  import opened Arithmetic
  import opened Collections
  import opened Coordinator
  import opened CoordinatorTheorems
  import opened Nodes
  import opened Planner
  import opened Prelude
  import opened Registry
  import opened Sorting

  // ----- Turns

  /** The counter seen by the `t`-th of a series of calls; it wraps like a 64-bit integer. */
  function CounterAt(start: nat, t: nat): nat {
    (start + t) % USIZE_LIMIT
  }

  /** In the `t`-th call, position `k` of `n` is taken by the node that is `j`-th in sorted order. */
  predicate Occupies(start: nat, n: nat, t: nat, k: nat, j: nat)
    requires n > 0
  {
    (k + CounterAt(start, t) % n) % n == j
  }

  /** What `Occupies` says about the sequences the coordinator builds. */
  lemma OccupiesIsPosition(spec: ModelSpec, nodes: seq<NodeInfo>, stats: Stats, start: nat, t: nat, k: nat)
    requires SoloNodes(spec, nodes) != [] && k < |SoloNodes(spec, nodes)|
    ensures var n, sorted := |SoloNodes(spec, nodes)|, StableSort(SoloOrder(stats), SoloNodes(spec, nodes));
      var s := SoloSequence(spec, nodes, stats, CounterAt(start, t));
      |sorted| == n == |s| && forall j :: 0 <= j < n && Occupies(start, n, t, k, j) ==> s[k] == sorted[j]
  {
    var sorted := StableSort(SoloOrder(stats), SoloNodes(spec, nodes));
    SoloSequenceIs(spec, nodes, stats, CounterAt(start, t));
    RotateIs(sorted, CounterAt(start, t) % |sorted|);
  }

  ghost predicate TakesTurn(start: nat, n: nat, k: nat, j: nat)
    requires n > 0
  {
    && (exists t :: 0 <= t < n && Occupies(start, n, t, k, j))
    && (forall t, u :: 0 <= t < n && 0 <= u < n && Occupies(start, n, t, k, j) && Occupies(start, n, u, k, j) ==> t == u)
  }

  /** Over `n` consecutive calls, each node takes each position in exactly one call. */
  ghost predicate Fair(start: nat, n: nat)
    requires n > 0
  {
    forall k, j :: 0 <= k < n && 0 <= j < n ==> TakesTurn(start, n, k, j)
  }

  lemma SmoothCounter(start: nat, n: nat, t: nat)
    requires 0 < n && t < n && start < USIZE_LIMIT
    requires start + n <= USIZE_LIMIT || USIZE_LIMIT % n == 0
    ensures CounterAt(start, t) % n == (start + t) % n
  {
    if start + n <= USIZE_LIMIT {
      ModUnique(start + t, USIZE_LIMIT, 0, start + t);
    } else {
      ModOfMod(start + t, USIZE_LIMIT, n);
    }
  }

  lemma SmoothPosition(start: nat, n: nat, t: nat, k: nat)
    requires 0 < n && t < n && start < USIZE_LIMIT
    requires start + n <= USIZE_LIMIT || USIZE_LIMIT % n == 0
    ensures (k + CounterAt(start, t) % n) % n == (k + start + t) % n
  {
    SmoothCounter(start, n, t);
    ModOfSum(k, start + t, n);
  }

  lemma SomeTurn(start: nat, n: nat, k: nat, j: nat) returns (t: nat)
    requires 0 < n && start < USIZE_LIMIT && k < n && j < n
    requires start + n <= USIZE_LIMIT || USIZE_LIMIT % n == 0
    ensures t < n && Occupies(start, n, t, k, j)
  {
    var a := j - k - start;
    t := a % n;
    SmoothPosition(start, n, t, k);
    ModOfSum(k + start, a, n);
    ModUnique(j, n, 0, j);
  }

  lemma OneTurn(start: nat, n: nat, k: nat, t: nat, u: nat)
    requires 0 < n && start < USIZE_LIMIT && t <= u < n
    requires start + n <= USIZE_LIMIT || USIZE_LIMIT % n == 0
    requires (k + CounterAt(start, t) % n) % n == (k + CounterAt(start, u) % n) % n
    ensures t == u
  {
    SmoothPosition(start, n, t, k);
    SmoothPosition(start, n, u, k);
    SameRemainder(k + start + t, k + start + u, n);
  }

  lemma SmoothIsFair(start: nat, n: nat)
    requires 0 < n && start < USIZE_LIMIT
    requires start + n <= USIZE_LIMIT || USIZE_LIMIT % n == 0
    ensures Fair(start, n)
  {
    forall k, j | 0 <= k < n && 0 <= j < n ensures TakesTurn(start, n, k, j) {
      var t0 := SomeTurn(start, n, k, j);
      forall t, u | 0 <= t < n && 0 <= u < n && Occupies(start, n, t, k, j) && Occupies(start, n, u, k, j)
        ensures t == u
      {
        if t <= u {
          OneTurn(start, n, k, t, u);
        } else {
          OneTurn(start, n, k, u, t);
        }
      }
    }
  }

  /** Two calls of the window that turn the list by the same amount. */
  lemma WrapRepeats(start: nat, n: nat) returns (t: nat, u: nat)
    requires 0 < n <= USIZE_LIMIT && start < USIZE_LIMIT
    requires start + n > USIZE_LIMIT && USIZE_LIMIT % n != 0
    ensures t < n && u < n && t != u && CounterAt(start, t) % n == CounterAt(start, u) % n
  {
    var s, first := USIZE_LIMIT % n, USIZE_LIMIT - start;
    if s <= first {
      t, u := first - s, first;
      RepeatAtZero(start, n, USIZE_LIMIT / n, s);
    } else {
      t, u := 0, s;
      RepeatAtStart(start, n, USIZE_LIMIT / n, s);
    }
  }

  lemma RepeatAtZero(start: nat, n: nat, q: nat, s: nat)
    requires 0 < n && start < USIZE_LIMIT && USIZE_LIMIT == q * n + s && 0 < s < n && s <= USIZE_LIMIT - start
    ensures CounterAt(start, USIZE_LIMIT - start - s) % n == 0 && CounterAt(start, USIZE_LIMIT - start) % n == 0
  {
    ModUnique(USIZE_LIMIT - s, USIZE_LIMIT, 0, USIZE_LIMIT - s);
    ModUnique(USIZE_LIMIT - s, n, q, 0);
    ModUnique(0, n, 0, 0);
  }

  lemma RepeatAtStart(start: nat, n: nat, q: nat, s: nat)
    requires start < USIZE_LIMIT && USIZE_LIMIT == q * n + s && 0 < s < n && s > USIZE_LIMIT - start
    ensures CounterAt(start, 0) % n == CounterAt(start, s) % n
  {
    var r := s - (USIZE_LIMIT - start);
    ModUnique(start, USIZE_LIMIT, 0, start);
    ModUnique(start, n, q, r);
    ModUnique(start + s, USIZE_LIMIT, 1, r);
    ModUnique(r, n, 0, r);
  }

  /**
   The rotation is fair over every window of `n` calls that does not cross the wrap of the counter,
   and over one that does exactly when `n` divides the counter's range.
   */
  lemma FairIff(start: nat, n: nat)
    requires 0 < n <= USIZE_LIMIT && start < USIZE_LIMIT
    ensures Fair(start, n) <==> start + n <= USIZE_LIMIT || USIZE_LIMIT % n == 0
  {
    if start + n <= USIZE_LIMIT || USIZE_LIMIT % n == 0 {
      SmoothIsFair(start, n);
    } else {
      var t, u := WrapRepeats(start, n);
      var j := CounterAt(start, t) % n;
      ModUnique(j, n, 0, j);
      assert Occupies(start, n, t, 0, j) && Occupies(start, n, u, 0, j);
      assert !TakesTurn(start, n, 0, j);
    }
  }

  /** How many of `m` calls the node that is `j`-th in sorted order leads. */
  function Leads(start: nat, m: nat, n: nat, j: nat): nat
    requires n > 0
  {
    if m == 0 then 0 else Leads(start, m - 1, n, j) + if Occupies(start, n, m - 1, 0, j) then 1 else 0
  }

  /** How many numbers below `x` leave remainder `j` by `n`. */
  function Hits(x: nat, n: nat, j: nat): nat
    requires j < n
  {
    (x + n - 1 - j) / n
  }

  lemma HitsOf(q: nat, r: nat, n: nat, j: nat)
    requires j < n && r <= n
    ensures Hits(q * n + r, n, j) == q + if r > j then 1 else 0
  {
    Distribute(q, 1, n);
    DivUnique(q * n + r + n - 1 - j, n, q + if r > j then 1 else 0);
  }

  lemma HitsStep(q: nat, r: nat, n: nat, j: nat, x: nat)
    requires j < n && r < n && x == q * n + r
    ensures Hits(x + 1, n, j) == Hits(x, n, j) + if r == j then 1 else 0
  {
    HitsOf(q, r, n, j);
    HitsOf(q, r + 1, n, j);
  }

  lemma LeadStep(start: nat, t: nat, n: nat, j: nat)
    requires j < n && start + t < USIZE_LIMIT
    ensures Hits(start + t + 1, n, j) == Hits(start + t, n, j) + if Occupies(start, n, t, 0, j) then 1 else 0
  {
    var c := start + t;
    ModUnique(c, USIZE_LIMIT, 0, c);
    ModUnique(c % n, n, 0, c % n);
    HitsStep(c / n, c % n, n, j, c);
  }

  lemma {:induction false} LeadsAreHits(start: nat, m: nat, n: nat, j: nat, before: nat)
    requires j < n && start + m <= USIZE_LIMIT && before == Hits(start, n, j)
    ensures before + Leads(start, m, n, j) == Hits(start + m, n, j)
  {
    if m > 0 {
      LeadsAreHits(start, m - 1, n, j, before);
      LeadStep(start, m - 1, n, j);
    }
  }

  /** Over `m` calls without a wrap, each node leads either floor(m/n) or ceil(m/n) times. */
  lemma LeadsAreEven(start: nat, m: nat, n: nat, j: nat)
    requires j < n && start + m <= USIZE_LIMIT
    ensures m / n <= Leads(start, m, n, j) <= (m + n - 1) / n
  {
    LeadsAreHits(start, m, n, j, Hits(start, n, j));
    AnyQuotientGrowth(start + n - 1 - j, m, n);
  }

  lemma AnyQuotientGrowth(a: nat, m: nat, n: nat)
    requires n > 0
    ensures m / n <= (a + m) / n - a / n <= (m + n - 1) / n
  {
    var p, q := a / n, m / n;
    DivBounds(a, n);
    DivBounds(m, n);
    QuotientGrowth(a, p, a - p * n, m, q, m - q * n, n);
  }

  lemma QuotientGrowth(a: nat, p: nat, s: nat, m: nat, q: nat, r: nat, n: nat)
    requires s < n && r < n && a == p * n + s && m == q * n + r
    ensures q <= (a + m) / n - p <= (m + n - 1) / n
  {
    Distribute(p, q, n);
    Distribute(p + q, 1, n);
    Distribute(q, 1, n);
    DivUnique(a + m, n, p + q + if r + s < n then 0 else 1);
    DivUnique(m + n - 1, n, q + if r == 0 then 0 else 1);
  }

  // ----- Calls and nodes

  /** The coordinator's counter after `t` calls with the same nodes. */
  function CounterAfter(spec: ModelSpec, nodes: seq<NodeInfo>, start: nat, t: nat): nat {
    if t == 0 then start else NextCounter(spec, nodes, CounterAfter(spec, nodes, start, t - 1))
  }

  lemma {:induction false} CounterAfterIs(spec: ModelSpec, nodes: seq<NodeInfo>, start: nat, t: nat)
    requires SoloNodes(spec, nodes) != [] && start < USIZE_LIMIT
    ensures CounterAfter(spec, nodes, start, t) == CounterAt(start, t)
  {
    if t == 0 {
      ModUnique(start, USIZE_LIMIT, 0, start);
    } else {
      CounterAfterIs(spec, nodes, start, t - 1);
      ModOfSum(1, start + t - 1, USIZE_LIMIT);
    }
  }

  /** What call number `t` of a series returns. */
  function CandidatesOf(spec: ModelSpec, nodes: seq<NodeInfo>, stats: Stats, start: nat, t: nat): seq<ShardPlan>
    requires spec.perLayerMb > 0
  {
    Candidates(spec, nodes, stats, CounterAfter(spec, nodes, start, t))
  }

  /** In call number `t`, the candidate at position `k` runs the model on `x`. */
  predicate RunsAt(spec: ModelSpec, nodes: seq<NodeInfo>, stats: Stats, start: nat, t: nat, k: nat, x: NodeInfo)
    requires spec.perLayerMb > 0
  {
    var c := CandidatesOf(spec, nodes, stats, start, t);
    k < |c| && c[k] == WholeModelOn(spec, x)
  }

  /** What the theorems assume of nodes and calls: the planner's needs, unique ids, and some node that can serve alone. */
  ghost predicate Balanced(spec: ModelSpec, nodes: seq<NodeInfo>, start: nat) {
    && Plannable(spec) && Untruncated(spec, nodes) && Distinct(Keys(NodeId(), nodes))
    && 0 < |SoloNodes(spec, nodes)| <= USIZE_LIMIT && start < USIZE_LIMIT
  }

  function Sorted(spec: ModelSpec, nodes: seq<NodeInfo>, stats: Stats): seq<NodeInfo> {
    StableSort(SoloOrder(stats), SoloNodes(spec, nodes))
  }

  /** The sorted solo nodes are the solo nodes, each once. */
  lemma SortedIs(spec: ModelSpec, nodes: seq<NodeInfo>, stats: Stats)
    requires Distinct(Keys(NodeId(), nodes))
    ensures var sorted := Sorted(spec, nodes, stats);
      && |sorted| == |SoloNodes(spec, nodes)|
      && (forall n :: n in sorted <==> n in SoloNodes(spec, nodes))
      && (forall i, j :: 0 <= i < |sorted| && 0 <= j < |sorted| && sorted[i].id == sorted[j].id ==> i == j)
  {
    var solo, sorted := SoloNodes(spec, nodes), Sorted(spec, nodes, stats);
    SoloOrderIsOrder(stats);
    SortCorrect(SoloOrder(stats), solo);
    OnlineNodesAre(nodes);
    AtLeastDrawn(OnlineNodes(nodes), spec.TotalMb());
    DrawnDistinct(NodeId(), sorted, nodes);
    KeysAt(NodeId(), sorted);
    forall n ensures n in sorted <==> n in solo {
      assert n in sorted <==> n in multiset(sorted);
      assert n in solo <==> n in multiset(solo);
    }
    forall i, j | 0 <= i < |sorted| && 0 <= j < |sorted| && sorted[i].id == sorted[j].id ensures i == j {
      assert Keys(NodeId(), sorted)[i] == Keys(NodeId(), sorted)[j];
    }
  }

  lemma PlaceOf(spec: ModelSpec, nodes: seq<NodeInfo>, stats: Stats, x: NodeInfo) returns (j: nat)
    requires Distinct(Keys(NodeId(), nodes)) && x in SoloNodes(spec, nodes)
    ensures j < |Sorted(spec, nodes, stats)| == |SoloNodes(spec, nodes)| && Sorted(spec, nodes, stats)[j] == x
  {
    SortedIs(spec, nodes, stats);
    assert x in Sorted(spec, nodes, stats);
    j :| j < |Sorted(spec, nodes, stats)| && Sorted(spec, nodes, stats)[j] == x;
  }

  /** A node is tried at a position exactly when it is its turn there. */
  lemma RunsAtIs(spec: ModelSpec, nodes: seq<NodeInfo>, stats: Stats, start: nat, t: nat, k: nat, j: nat)
    requires Balanced(spec, nodes, start) && k < |SoloNodes(spec, nodes)| && j < |Sorted(spec, nodes, stats)|
    ensures RunsAt(spec, nodes, stats, start, t, k, Sorted(spec, nodes, stats)[j]) <==>
      Occupies(start, |SoloNodes(spec, nodes)|, t, k, j)
  {
    var n, sorted := |SoloNodes(spec, nodes)|, Sorted(spec, nodes, stats);
    CounterAfterIs(spec, nodes, start, t);
    SoloCandidates(spec, nodes, stats, CounterAt(start, t));
    SortedIs(spec, nodes, stats);
    OccupiesIsPosition(spec, nodes, stats, start, t, k);
    var s := SoloSequence(spec, nodes, stats, CounterAt(start, t));
    var turn := (k + CounterAt(start, t) % n) % n;
    assert Occupies(start, n, t, k, turn);
    assert s[k] == sorted[turn];
    if WholeModelOn(spec, sorted[turn]) == WholeModelOn(spec, sorted[j]) {
      SamePlanSameNode(spec, sorted[turn], sorted[j]);
    }
  }

  lemma SamePlanSameNode(spec: ModelSpec, a: NodeInfo, b: NodeInfo)
    requires WholeModelOn(spec, a) == WholeModelOn(spec, b)
    ensures a.id == b.id
  {
    assert WholeModelOn(spec, a).assignments[0].nodeId == a.id;
    assert WholeModelOn(spec, b).assignments[0].nodeId == b.id;
  }

  /** Of `n` consecutive calls, exactly one tries `x` at position `k`. */
  ghost predicate HasOneTurn(spec: ModelSpec, nodes: seq<NodeInfo>, stats: Stats, start: nat, k: nat, x: NodeInfo)
    requires spec.perLayerMb > 0
  {
    var n := |SoloNodes(spec, nodes)|;
    && (exists t :: 0 <= t < n && RunsAt(spec, nodes, stats, start, t, k, x))
    && (forall t, u :: 0 <= t < n && 0 <= u < n ==>
          (RunsAt(spec, nodes, stats, start, t, k, x) && RunsAt(spec, nodes, stats, start, u, k, x) ==> t == u))
  }

  ghost predicate FairToNodes(spec: ModelSpec, nodes: seq<NodeInfo>, stats: Stats, start: nat)
    requires spec.perLayerMb > 0
  {
    forall k, x :: 0 <= k < |SoloNodes(spec, nodes)| && x in SoloNodes(spec, nodes) ==>
      HasOneTurn(spec, nodes, stats, start, k, x)
  }

  lemma OneTurnIs(spec: ModelSpec, nodes: seq<NodeInfo>, stats: Stats, start: nat, k: nat, j: nat)
    requires Balanced(spec, nodes, start) && k < |SoloNodes(spec, nodes)| && j < |Sorted(spec, nodes, stats)|
    ensures HasOneTurn(spec, nodes, stats, start, k, Sorted(spec, nodes, stats)[j]) <==>
      TakesTurn(start, |SoloNodes(spec, nodes)|, k, j)
  {
    var n, x := |SoloNodes(spec, nodes)|, Sorted(spec, nodes, stats)[j];
    forall t | 0 <= t < n ensures RunsAt(spec, nodes, stats, start, t, k, x) <==> Occupies(start, n, t, k, j) {
      RunsAtIs(spec, nodes, stats, start, t, k, j);
    }
  }

  /**
   Over as many consecutive calls as there are solo nodes, every solo node is tried at every position exactly once --
   if the counter does not wrap within them, and if it does, exactly when the number of nodes divides its range.
   */
  lemma FairToNodesIff(spec: ModelSpec, nodes: seq<NodeInfo>, stats: Stats, start: nat)
    requires Balanced(spec, nodes, start)
    ensures var n := |SoloNodes(spec, nodes)|;
      FairToNodes(spec, nodes, stats, start) <==> start + n <= USIZE_LIMIT || USIZE_LIMIT % n == 0
  {
    var n, sorted := |SoloNodes(spec, nodes)|, Sorted(spec, nodes, stats);
    SortedIs(spec, nodes, stats);
    FairIff(start, n);
    if Fair(start, n) {
      forall k, x | 0 <= k < n && x in SoloNodes(spec, nodes) ensures HasOneTurn(spec, nodes, stats, start, k, x) {
        var j := PlaceOf(spec, nodes, stats, x);
        OneTurnIs(spec, nodes, stats, start, k, j);
      }
    }
    if FairToNodes(spec, nodes, stats, start) {
      forall k, j | 0 <= k < n && 0 <= j < n ensures TakesTurn(start, n, k, j) {
        assert sorted[j] in sorted;
        OneTurnIs(spec, nodes, stats, start, k, j);
      }
    }
  }

  /** How many of the first `m` calls try `x` first. */
  function LeadsOf(spec: ModelSpec, nodes: seq<NodeInfo>, stats: Stats, start: nat, m: nat, x: NodeInfo): nat
    requires spec.perLayerMb > 0
  {
    if m == 0 then 0
    else LeadsOf(spec, nodes, stats, start, m - 1, x) + if RunsAt(spec, nodes, stats, start, m - 1, 0, x) then 1 else 0
  }

  lemma {:induction false} LeadsOfIs(spec: ModelSpec, nodes: seq<NodeInfo>, stats: Stats, start: nat, m: nat, j: nat)
    requires Balanced(spec, nodes, start) && j < |Sorted(spec, nodes, stats)|
    ensures LeadsOf(spec, nodes, stats, start, m, Sorted(spec, nodes, stats)[j]) == Leads(start, m, |SoloNodes(spec, nodes)|, j)
  {
    if m > 0 {
      LeadsOfIs(spec, nodes, stats, start, m - 1, j);
      RunsAtIs(spec, nodes, stats, start, m - 1, 0, j);
    }
  }

  /** Over `m` calls without a wrap, each of `n` solo nodes is tried first in floor(m/n) or ceil(m/n) of them. */
  lemma NodesLeadEvenly(spec: ModelSpec, nodes: seq<NodeInfo>, stats: Stats, start: nat, m: nat, x: NodeInfo)
    requires Balanced(spec, nodes, start) && start + m <= USIZE_LIMIT && x in SoloNodes(spec, nodes)
    ensures var n := |SoloNodes(spec, nodes)|;
      m / n <= LeadsOf(spec, nodes, stats, start, m, x) <= (m + n - 1) / n
  {
    var j := NodeLeads(spec, nodes, stats, start, m, x);
    LeadsAreEven(start, m, |SoloNodes(spec, nodes)|, j);
  }

  lemma NodeLeads(spec: ModelSpec, nodes: seq<NodeInfo>, stats: Stats, start: nat, m: nat, x: NodeInfo) returns (j: nat)
    requires Balanced(spec, nodes, start) && x in SoloNodes(spec, nodes)
    ensures j < |SoloNodes(spec, nodes)|
    ensures LeadsOf(spec, nodes, stats, start, m, x) == Leads(start, m, |SoloNodes(spec, nodes)|, j)
  {
    j := PlaceOf(spec, nodes, stats, x);
    LeadsOfIs(spec, nodes, stats, start, m, j);
  }
}
