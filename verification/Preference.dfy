/**
 Which node is preferred to which, said of the latency table and the order of registration: the order of the candidates
 for a request, and the choice of a fallback plan's controller.
 */
module Preference {
  import opened Arithmetic
  import opened Collections
  import opened Coordinator
  import opened CoordinatorTheorems
  import opened Nodes
  import opened NodeSums
  import opened Planner
  import opened PlannerTheorems
  import opened Prelude
  import opened Registry
  import opened Sorting

  // ----- Order of occurrence

  ghost predicate Before<T>(s: seq<T>, x: T, y: T) {
    exists i, j :: 0 <= i < j < |s| && s[i] == x && s[j] == y
  }

  lemma BeforeLater<T>(first: T, s: seq<T>, x: T, y: T)
    requires Before(s, x, y)
    ensures Before([first] + s, x, y)
  {
    var i, j :| 0 <= i < j < |s| && s[i] == x && s[j] == y;
    var longer := [first] + s;
    assert longer[i + 1] == x && longer[j + 1] == y;
  }

  lemma BeforeFirst<T>(first: T, s: seq<T>, y: T)
    requires y in s
    ensures Before([first] + s, first, y)
  {
    var j :| 0 <= j < |s| && s[j] == y;
    var longer := [first] + s;
    assert longer[0] == first && longer[j + 1] == y;
  }

  /** Either `x` comes first and `y` later, or both come later in this order. */
  lemma BeforeSplit<T>(s: seq<T>, x: T, y: T)
    requires Before(s, x, y)
    ensures s != [] && ((s[0] == x && y in s[1..]) || Before(s[1..], x, y))
  {
    var i, j :| 0 <= i < j < |s| && s[i] == x && s[j] == y;
    var rest := s[1..];
    if i == 0 {
      assert rest[j - 1] == y;
    } else {
      assert rest[i - 1] == x && rest[j - 1] == y;
    }
  }

  lemma InSomeOrder<T>(s: seq<T>, x: T, y: T)
    requires x in s && y in s && x != y
    ensures Before(s, x, y) || Before(s, y, x)
  {
    var i :| 0 <= i < |s| && s[i] == x;
    var j :| 0 <= j < |s| && s[j] == y;
  }

  lemma PlaceIsUnique<T, K>(key: T -> K, s: seq<T>, p: nat, q: nat)
    requires Distinct(Keys(key, s)) && p < |s| && q < |s| && s[p] == s[q]
    ensures p == q
  {
    KeysAt(key, s);
    var keys := Keys(key, s);
    assert keys[p] == keys[q];
  }

  lemma OneOrder<T, K>(key: T -> K, s: seq<T>, x: T, y: T)
    requires Distinct(Keys(key, s)) && Before(s, x, y)
    ensures x != y && !Before(s, y, x)
  {
    var i, j :| 0 <= i < j < |s| && s[i] == x && s[j] == y;
    if x == y {
      PlaceIsUnique(key, s, i, j);
    }
    forall p, q | 0 <= p < q < |s| && s[p] == y ensures s[q] != x {
      PlaceIsUnique(key, s, p, j);
      if s[q] == x {
        PlaceIsUnique(key, s, q, i);
      }
    }
  }

  lemma {:induction false} TiesKeepOrder<T(!new)>(le: (T, T) -> bool, z: T, s: seq<T>, x: T, y: T)
    requires Before(s, x, y) && le(z, x) && le(x, z) && le(z, y) && le(y, z)
    ensures Before(Ties(le, z, s), x, y)
  {
    BeforeSplit(s, x, y);
    var rest := Ties(le, z, s[1..]);
    if s[0] == x && y in s[1..] {
      TiesHave(le, z, s[1..], y);
      BeforeFirst(x, rest, y);
    } else {
      TiesKeepOrder(le, z, s[1..], x, y);
      BeforeLater(s[0], rest, x, y);
      assert [] + rest == rest;
    }
  }

  lemma {:induction false} TiesHave<T(!new)>(le: (T, T) -> bool, z: T, s: seq<T>, y: T)
    requires y in s && le(z, y) && le(y, z)
    ensures y in Ties(le, z, s)
  {
    if s[0] != y {
      TiesHave(le, z, s[1..], y);
    }
  }

  lemma {:induction false} TiesDrawn<T(!new)>(le: (T, T) -> bool, z: T, s: seq<T>)
    ensures multiset(Ties(le, z, s)) <= multiset(s)
  {
    if s != [] {
      TiesDrawn(le, z, s[1..]);
      assert s == [s[0]] + s[1..];
    }
  }

  /** Of two items, a stable sort puts the one first that is preferred, or else the one that came first. */
  lemma SortedOrder<T(!new), K>(le: (T, T) -> bool, key: T -> K, s: seq<T>, x: T, y: T)
    requires TotalPreorder(le) && Distinct(Keys(key, s)) && Before(s, x, y)
    ensures var r := StableSort(le, s); if le(x, y) then Before(r, x, y) else Before(r, y, x)
  {
    var r := StableSort(le, s);
    SortCorrect(le, s);
    OneOrder(key, s, x, y);
    assert x in multiset(s) && y in multiset(s);
    assert x in multiset(r) && y in multiset(r);
    InSomeOrder(r, x, y);
    if le(x, y) && Before(r, y, x) {
      var i, j :| 0 <= i < j < |r| && r[i] == y && r[j] == x;
      assert le(y, x);
      TiesKeepOrder(le, x, r, y, x);
      TiesKeepOrder(le, x, s, x, y);
      TiesDrawn(le, x, s);
      DrawnDistinct(key, Ties(le, x, s), s);
      OneOrder(key, Ties(le, x, s), x, y);
    }
  }

  lemma {:induction false} OnlineKeepsOrder(nodes: seq<NodeInfo>, x: NodeInfo, y: NodeInfo)
    requires Before(nodes, x, y) && x.status == Online && y.status == Online
    ensures Before(OnlineNodes(nodes), x, y)
  {
    BeforeSplit(nodes, x, y);
    var rest := OnlineNodes(nodes[1..]);
    if nodes[0] == x && y in nodes[1..] {
      OnlineNodesAre(nodes[1..]);
      BeforeFirst(x, rest, y);
    } else {
      OnlineKeepsOrder(nodes[1..], x, y);
      BeforeLater(nodes[0], rest, x, y);
      assert [] + rest == rest;
    }
  }

  lemma {:induction false} AtLeastKeepsOrder(nodes: seq<NodeInfo>, neededMb: nat, x: NodeInfo, y: NodeInfo)
    requires Before(nodes, x, y) && x.vramMb >= neededMb && y.vramMb >= neededMb
    ensures Before(AtLeast(nodes, neededMb), x, y)
  {
    BeforeSplit(nodes, x, y);
    var rest := AtLeast(nodes[1..], neededMb);
    if nodes[0] == x && y in nodes[1..] {
      AtLeastAre(nodes[1..], neededMb);
      BeforeFirst(x, rest, y);
    } else {
      AtLeastKeepsOrder(nodes[1..], neededMb, x, y);
      BeforeLater(nodes[0], rest, x, y);
      assert [] + rest == rest;
    }
  }

  // ----- Preferences

  /** `x` has been measured, and `y` was slower or has not been measured. */
  predicate Faster(stats: map<string, real>, x: NodeInfo, y: NodeInfo) {
    x.id in stats && (y.id in stats ==> stats[x.id] < stats[y.id])
  }

  /** For a request that one node can serve: the faster node, or the larger of two equally fast ones. */
  predicate ServesRather(stats: map<string, real>, x: NodeInfo, y: NodeInfo) {
    Faster(stats, x, y) || (!Faster(stats, y, x) && x.vramMb > y.vramMb)
  }

  /** For a plan over all nodes: the larger node, or the faster of two equally large ones. */
  predicate PlannedRather(stats: map<string, real>, x: NodeInfo, y: NodeInfo) {
    x.vramMb > y.vramMb || (x.vramMb == y.vramMb && Faster(stats, x, y))
  }

  lemma OrdersAre(stats: Stats, x: NodeInfo, y: NodeInfo)
    ensures SoloOrder(stats)(x, y) <==> !ServesRather(stats, y, x)
    ensures PlanOrder(stats)(x, y) <==> !PlannedRather(stats, y, x)
  {
  }

  // ----- The order of the candidates

  lemma SoloAreDistinct(spec: ModelSpec, nodes: seq<NodeInfo>)
    requires Distinct(Keys(NodeId(), nodes))
    ensures Distinct(Keys(NodeId(), OnlineNodes(nodes))) && Distinct(Keys(NodeId(), SoloNodes(spec, nodes)))
  {
    OnlineNodesAre(nodes);
    DrawnDistinct(NodeId(), OnlineNodes(nodes), nodes);
    AtLeastDrawn(OnlineNodes(nodes), spec.TotalMb());
    DrawnDistinct(NodeId(), SoloNodes(spec, nodes), OnlineNodes(nodes));
  }

  lemma FirstSequence(spec: ModelSpec, nodes: seq<NodeInfo>, stats: Stats)
    requires SoloNodes(spec, nodes) != []
    ensures SoloSequence(spec, nodes, stats, 0) == StableSort(SoloOrder(stats), SoloNodes(spec, nodes))
  {
    var sorted := StableSort(SoloOrder(stats), SoloNodes(spec, nodes));
    SoloSequenceIs(spec, nodes, stats, 0);
    ModUnique(0, |sorted|, 0, 0);
    assert sorted[0..] + sorted[..0] == sorted;
  }

  /**
   Of two nodes that can serve a request, the first call's candidates have the faster first; of equally fast ones the
   larger; and of equally large ones the one registered earlier, `nodes[a]`.
   */
  lemma CandidateOrder(spec: ModelSpec, nodes: seq<NodeInfo>, stats: Stats, a: nat, b: nat) returns (i: nat, j: nat)
    requires Plannable(spec) && Untruncated(spec, nodes) && Distinct(Keys(NodeId(), nodes))
    requires a < b < |nodes| && CanServe(spec, nodes[a]) && CanServe(spec, nodes[b])
    ensures var c := Candidates(spec, nodes, stats, 0);
      && i < |c| && j < |c| && RunsAllOn(spec, c[i], nodes[a]) && RunsAllOn(spec, c[j], nodes[b])
      && (if ServesRather(stats, nodes[b], nodes[a]) then j < i else i < j)
  {
    var x, y := nodes[a], nodes[b];
    assert Before(nodes, x, y);
    OnlineKeepsOrder(nodes, x, y);
    AtLeastKeepsOrder(OnlineNodes(nodes), spec.TotalMb(), x, y);
    SoloAreDistinct(spec, nodes);
    SoloOrderIsOrder(stats);
    SortedOrder(SoloOrder(stats), NodeId(), SoloNodes(spec, nodes), x, y);
    OrdersAre(stats, x, y);
    FirstSequence(spec, nodes, stats);
    SoloCandidates(spec, nodes, stats, 0);
    var s := SoloSequence(spec, nodes, stats, 0);
    if ServesRather(stats, y, x) {
      j, i :| 0 <= j < i < |s| && s[j] == y && s[i] == x;
    } else {
      i, j :| 0 <= i < j < |s| && s[i] == x && s[j] == y;
    }
  }

  lemma SequenceTurns(spec: ModelSpec, nodes: seq<NodeInfo>, stats: Stats, counter: nat, k: nat)
    requires k < |SoloNodes(spec, nodes)|
    ensures var s, first, n := SoloSequence(spec, nodes, stats, counter), SoloSequence(spec, nodes, stats, 0), |SoloNodes(spec, nodes)|;
      |s| == |first| == n && 0 <= (k + counter) % n < n && s[k] == first[(k + counter) % n]
  {
    var sorted := StableSort(SoloOrder(stats), SoloNodes(spec, nodes));
    FirstSequence(spec, nodes, stats);
    SoloSequenceIs(spec, nodes, stats, counter);
    TurnedTwice(sorted, counter, k);
  }

  lemma TurnedTwice<T>(s: seq<T>, counter: nat, k: nat)
    requires k < |s|
    ensures |Rotate(s, counter % |s|)| == |s| && 0 <= (k + counter) % |s| < |s|
    ensures Rotate(s, counter % |s|)[k] == s[(k + counter) % |s|]
  {
    RotateIs(s, counter % |s|);
    ModOfSum(k, counter, |s|);
  }

  /** Later calls turn that list: what is tried at position `k` stands `counter` places further on in it. */
  lemma CandidatesTurn(spec: ModelSpec, nodes: seq<NodeInfo>, stats: Stats, counter: nat, k: nat)
    requires Plannable(spec) && Untruncated(spec, nodes) && k < |SoloNodes(spec, nodes)|
    ensures var c, first, n := Candidates(spec, nodes, stats, counter), Candidates(spec, nodes, stats, 0), |SoloNodes(spec, nodes)|;
      |c| == |first| == n && c[k] == first[(k + counter) % n]
  {
    var n := |SoloNodes(spec, nodes)|;
    SequenceTurns(spec, nodes, stats, counter, k);
    SoloCandidates(spec, nodes, stats, counter);
    SoloCandidates(spec, nodes, stats, 0);
  }

  // ----- The controller

  /** `nodes[c]` is an online node and every other one is less preferred, or equally so and registered later. */
  ghost predicate IsPreferred(nodes: seq<NodeInfo>, stats: map<string, real>, c: nat) {
    && c < |nodes| && nodes[c].status == Online
    && forall b :: 0 <= b < |nodes| && b != c && nodes[b].status == Online ==>
         PlannedRather(stats, nodes[c], nodes[b]) || (!PlannedRather(stats, nodes[b], nodes[c]) && c < b)
  }

  lemma HeadIsPreferred(nodes: seq<NodeInfo>, stats: Stats, c: nat, b: nat)
    requires Distinct(Keys(NodeId(), nodes)) && Distinct(Keys(NodeId(), OnlineNodes(nodes)))
    requires c < |nodes| && b < |nodes| && b != c && nodes[c].status == Online && nodes[b].status == Online
    requires var s := StableSort(PlanOrder(stats), OnlineNodes(nodes)); s != [] && s[0] == nodes[c]
    ensures PlannedRather(stats, nodes[c], nodes[b]) || (!PlannedRather(stats, nodes[b], nodes[c]) && c < b)
  {
    var x, y, le := nodes[c], nodes[b], PlanOrder(stats);
    var online, s := OnlineNodes(nodes), StableSort(PlanOrder(stats), OnlineNodes(nodes));
    PlanOrderIsOrder(stats);
    OrdersAre(stats, x, y);
    OrdersAre(stats, y, x);
    HeadIsBefore(nodes, stats, c, b);
    if c < b {
      OnlineKeepsOrder(nodes, x, y);
      SortedOrder(le, NodeId(), online, x, y);
    } else {
      OnlineKeepsOrder(nodes, y, x);
      SortedOrder(le, NodeId(), online, y, x);
    }
  }

  /** No online node comes before the head of the sorted list. */
  lemma HeadIsBefore(nodes: seq<NodeInfo>, stats: Stats, c: nat, b: nat)
    requires Distinct(Keys(NodeId(), nodes)) && Distinct(Keys(NodeId(), OnlineNodes(nodes)))
    requires c < |nodes| && b < |nodes| && b != c && nodes[c].status == Online && nodes[b].status == Online
    requires var s := StableSort(PlanOrder(stats), OnlineNodes(nodes)); s != [] && s[0] == nodes[c]
    ensures Before(nodes, nodes[c], nodes[b]) || Before(nodes, nodes[b], nodes[c])
    ensures !Before(StableSort(PlanOrder(stats), OnlineNodes(nodes)), nodes[b], nodes[c])
  {
    var s := StableSort(PlanOrder(stats), OnlineNodes(nodes));
    PlanOrderIsOrder(stats);
    SortCorrect(PlanOrder(stats), OnlineNodes(nodes));
    DrawnDistinct(NodeId(), s, OnlineNodes(nodes));
    HeadComesOnce(NodeId(), s, nodes[b]);
  }

  lemma HeadComesOnce<T, K>(key: T -> K, s: seq<T>, y: T)
    requires s != [] && Distinct(Keys(key, s))
    ensures !Before(s, y, s[0])
  {
    forall j | 0 < j < |s| ensures s[j] != s[0] {
      if s[j] == s[0] {
        PlaceIsUnique(key, s, 0, j);
      }
    }
  }

  /**
   If some online node holds the context and one layer, the fallback plan's controller is the largest online node, of
   several the fastest, and of several of these the one registered first.
   */
  lemma ControllerIsPreferred(spec: ModelSpec, nodes: seq<NodeInfo>, stats: Stats, big: NodeInfo) returns (c: nat)
    requires Plannable(spec) && Untruncated(spec, nodes) && Distinct(Keys(NodeId(), nodes))
    requires FallbackPlan(spec, nodes, stats).Some?
    requires big in nodes && big.status == Online && big.vramMb >= spec.contextMb + spec.perLayerMb
    ensures IsPreferred(nodes, stats, c)
    ensures var a := FallbackPlan(spec, nodes, stats).value.assignments; a != [] && PlacedOn(a[0], nodes[c])
  {
    PlannerInputIs(nodes, stats);
    var input, s := PlannerInput(nodes, stats), StableSort(PlanOrder(stats), OnlineNodes(nodes));
    var k :| 0 <= k < |s| && s[k] == big;
    assert input[k].vramMb >= spec.contextMb + spec.perLayerMb;
    MaxVramIs(input);
    var controller := FallbackController(spec, nodes, stats);
    c :| 0 <= c < |nodes| && nodes[c] == controller;
    SoloAreDistinct(spec, nodes);
    PlanOrderIsOrder(stats);
    forall b | 0 <= b < |nodes| && b != c && nodes[b].status == Online
      ensures PlannedRather(stats, nodes[c], nodes[b]) || (!PlannedRather(stats, nodes[b], nodes[c]) && c < b)
    {
      HeadIsPreferred(nodes, stats, c, b);
    }
  }
}
