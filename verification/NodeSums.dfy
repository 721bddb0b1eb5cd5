/** Sums over collections of nodes that do not depend on their order, and the exchange argument. */
module NodeSums {
  import opened Collections
  import opened Prelude
  import opened Sorting
  import opened Planner

  function MaxVram(nodes: seq<NodeCapacity>): nat {
    if nodes == [] then 0 else Max(nodes[0].vramMb, MaxVram(nodes[1..]))
  }

  function SumOver(f: nat -> nat, nodes: seq<NodeCapacity>): nat {
    if nodes == [] then 0 else f(nodes[0].vramMb) + SumOver(f, nodes[1..])
  }

  ghost predicate Monotone(f: nat -> nat) {
    forall x: nat, y: nat :: x <= y ==> f(x) <= f(y)
  }

  lemma LargerFirstIsOrder()
    ensures TotalPreorder(LargerFirst)
  {
  }

  lemma {:induction false} SumOverConcat(f: nat -> nat, a: seq<NodeCapacity>, b: seq<NodeCapacity>)
    ensures SumOver(f, a + b) == SumOver(f, a) + SumOver(f, b)
  {
    if a == [] {
      assert a + b == b;
    } else {
      assert (a + b)[1..] == a[1..] + b;
      SumOverConcat(f, a[1..], b);
    }
  }

  lemma SumOverRemove(f: nat -> nat, s: seq<NodeCapacity>, k: nat)
    requires k < |s|
    ensures SumOver(f, s) == f(s[k].vramMb) + SumOver(f, s[..k] + s[k + 1..])
  {
    assert s == s[..k] + ([s[k]] + s[k + 1..]);
    SumOverConcat(f, s[..k], [s[k]] + s[k + 1..]);
    SumOverConcat(f, s[..k], s[k + 1..]);
    assert ([s[k]] + s[k + 1..])[1..] == s[k + 1..];
  }

  /** Sliding a window along a sorted list to smaller nodes cannot gain layers. */
  lemma {:induction false} PrefixShift(f: nat -> nat, d: seq<NodeCapacity>, m: nat)
    requires Monotone(f)
    requires m < |d| && SortedBy(LargerFirst, d)
    ensures SumOver(f, d[1..][..m]) <= SumOver(f, d[..m])
  {
    if m > 0 {
      PrefixShift(f, d[1..], m - 1);
      assert d[1..][..m][1..] == d[1..][1..][..m - 1];
      assert d[..m][1..] == d[1..][..m - 1];
      assert LargerFirst(d[0], d[1]);
    }
  }

  /** `team` with the largest node of `d` taken out of it, if it has it, is drawn from the rest of `d`. */
  lemma WithoutHead(d: seq<NodeCapacity>, team: seq<NodeCapacity>) returns (k: nat, without: seq<NodeCapacity>)
    requires team != [] && multiset(team) <= multiset(d)
    ensures d != []
    ensures k <= |team| && without == if k < |team| then team[..k] + team[k + 1..] else team
    ensures k < |team| ==> team[k] == d[0]
    ensures multiset(without) <= multiset(d[1..])
  {
    assert team[0] in multiset(team);
    assert team[0] in multiset(d);
    assert d == [d[0]] + d[1..];
    assert multiset(d) == multiset{d[0]} + multiset(d[1..]);
    if d[0] in multiset(team) {
      k := Remove(team, d[0]);
      without := team[..k] + team[k + 1..];
    } else {
      k, without := |team|, team;
    }
  }

  lemma TakingTheLargest(f: nat -> nat, d: seq<NodeCapacity>, team: seq<NodeCapacity>, k: nat)
    requires 0 < |team| <= |d| && k < |team| && team[k] == d[0]
    requires SumOver(f, team[..k] + team[k + 1..]) <= SumOver(f, d[1..][..|team| - 1])
    ensures SumOver(f, team) <= SumOver(f, d[..|team|])
  {
    SumOverRemove(f, team, k);
    assert d[..|team|][1..] == d[1..][..|team| - 1];
  }

  /** The exchange argument: no team drawn from `d` beats the `|team|` largest nodes of `d`. */
  lemma {:induction false} LargestAreBest(f: nat -> nat, d: seq<NodeCapacity>, team: seq<NodeCapacity>)
    requires Monotone(f)
    requires SortedBy(LargerFirst, d)
    requires multiset(team) <= multiset(d)
    ensures |team| <= |d|
    ensures SumOver(f, team) <= SumOver(f, d[..|team|])
  {
    if team != [] {
      var k, without := WithoutHead(d, team);
      LargestAreBest(f, d[1..], without);
      if k < |team| {
        TakingTheLargest(f, d, team, k);
      } else {
        PrefixShift(f, d, |team|);
      }
    }
  }

  lemma {:induction false} SumOverPermute(f: nat -> nat, a: seq<NodeCapacity>, b: seq<NodeCapacity>)
    requires multiset(a) == multiset(b)
    ensures SumOver(f, a) == SumOver(f, b)
  {
    assert |multiset(a)| == |multiset(b)|;
    if a != [] {
      assert a == [a[0]] + a[1..];
      var k := Remove(b, a[0]);
      SumOverPermute(f, a[1..], b[..k] + b[k + 1..]);
      SumOverRemove(f, b, k);
    }
  }

  lemma {:induction false} MaxVramIs(nodes: seq<NodeCapacity>)
    ensures forall n :: n in nodes ==> n.vramMb <= MaxVram(nodes)
    ensures nodes != [] ==> exists n :: n in nodes && n.vramMb == MaxVram(nodes)
  {
    if nodes != [] {
      MaxVramIs(nodes[1..]);
      assert nodes == [nodes[0]] + nodes[1..];
      if nodes[1..] == [] || nodes[0].vramMb >= MaxVram(nodes[1..]) {
        assert nodes[0] in nodes && nodes[0].vramMb == MaxVram(nodes);
      } else {
        var n :| n in nodes[1..] && n.vramMb == MaxVram(nodes[1..]);
        assert n in nodes;
      }
    }
  }

  /** The sorted list holds the same nodes, largest first. */
  lemma SortedNodes(nodes: seq<NodeCapacity>)
    ensures var s := SortByVram(nodes);
      && SortedBy(LargerFirst, s)
      && multiset(s) == multiset(nodes)
      && |s| == |nodes|
      && (forall n :: n in s <==> n in nodes)
      && (nodes != [] ==> s[0].vramMb == MaxVram(nodes))
  {
    var s := SortByVram(nodes);
    LargerFirstIsOrder();
    SortCorrect(LargerFirst, nodes);
    assert forall n :: n in s <==> n in multiset(s);
    assert forall n :: n in nodes <==> n in multiset(nodes);
    if nodes != [] {
      MaxVramIs(nodes);
      var n :| n in nodes && n.vramMb == MaxVram(nodes);
      var i :| 0 <= i < |s| && s[i] == n;
      assert s[0] in s;
    }
  }

  function Megabytes(): nat -> nat {
    (vramMb: nat) => vramMb
  }

  lemma {:induction false} TotalVramIsSum(nodes: seq<NodeCapacity>)
    ensures TotalVram(nodes) == SumOver(Megabytes(), nodes)
  {
    if nodes != [] {
      TotalVramIsSum(nodes[1..]);
    }
  }

  lemma TotalVramSorted(nodes: seq<NodeCapacity>)
    ensures TotalVram(SortByVram(nodes)) == TotalVram(nodes)
  {
    SortedNodes(nodes);
    TotalVramIsSum(nodes);
    TotalVramIsSum(SortByVram(nodes));
    SumOverPermute(Megabytes(), SortByVram(nodes), nodes);
  }
}
