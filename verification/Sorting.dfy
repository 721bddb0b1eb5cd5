/**
 The standard library's stable sort, as a function.  `SortIsUnique` shows that the choice of
 algorithm does not matter: being sorted and keeping the order of ties determines the result.
 */
module Sorting {

  ghost predicate TotalPreorder<T(!new)>(le: (T, T) -> bool) {
    && (forall x, y :: le(x, y) || le(y, x))
    && (forall x, y, z :: le(x, y) && le(y, z) ==> le(x, z))
  }

  ghost predicate SortedBy<T>(le: (T, T) -> bool, s: seq<T>) {
    forall i, j :: 0 <= i < j < |s| ==> le(s[i], s[j])
  }

  function InsertFirst<T>(le: (T, T) -> bool, x: T, s: seq<T>): seq<T> {
    if s == [] then [x]
    else if le(x, s[0]) then [x] + s
    else [s[0]] + InsertFirst(le, x, s[1..])
  }

  function StableSort<T>(le: (T, T) -> bool, s: seq<T>): seq<T> {
    if s == [] then [] else InsertFirst(le, s[0], StableSort(le, s[1..]))
  }

  /** The elements of `s` that tie with `x`, in the order in which they occur. */
  function Ties<T>(le: (T, T) -> bool, x: T, s: seq<T>): seq<T> {
    if s == [] then []
    else (if le(x, s[0]) && le(s[0], x) then [s[0]] else []) + Ties(le, x, s[1..])
  }

  lemma {:induction false} InsertFirstMultiset<T>(le: (T, T) -> bool, x: T, s: seq<T>)
    ensures multiset(InsertFirst(le, x, s)) == multiset{x} + multiset(s)
  {
    if s != [] {
      assert s == [s[0]] + s[1..];
      InsertFirstMultiset(le, x, s[1..]);
    }
  }

  lemma {:induction false} InsertFirstSorted<T(!new)>(le: (T, T) -> bool, x: T, s: seq<T>)
    requires TotalPreorder(le) && SortedBy(le, s)
    ensures SortedBy(le, InsertFirst(le, x, s))
  {
    if s != [] && !le(x, s[0]) {
      var r := InsertFirst(le, x, s[1..]);
      InsertFirstSorted(le, x, s[1..]);
      InsertFirstMultiset(le, x, s[1..]);
      forall k | 0 <= k < |r| ensures le(s[0], r[k]) {
        assert r[k] in multiset(r);
        assert r[k] == x || r[k] in s[1..];
      }
    } else if s != [] {
      assert forall k :: 0 <= k < |s| ==> le(x, s[k]);
    }
  }

  lemma {:induction false} InsertFirstKeepsTies<T(!new)>(le: (T, T) -> bool, x: T, s: seq<T>, y: T)
    requires TotalPreorder(le) && SortedBy(le, s)
    ensures Ties(le, y, InsertFirst(le, x, s)) == Ties(le, y, [x] + s)
  {
    assert ([x] + s)[1..] == s;
    if s != [] && !le(x, s[0]) {
      InsertFirstKeepsTies(le, x, s[1..], y);
      assert ([x] + s[1..])[1..] == s[1..];
      assert InsertFirst(le, x, s)[1..] == InsertFirst(le, x, s[1..]);
      var first := s[0];
      assert le(x, y) && le(y, first) ==> le(x, first);
    }
  }

  /** The result is sorted, is a permutation, and keeps ties in input order. */
  lemma {:induction false} SortCorrect<T(!new)>(le: (T, T) -> bool, s: seq<T>)
    requires TotalPreorder(le)
    ensures SortedBy(le, StableSort(le, s))
    ensures multiset(StableSort(le, s)) == multiset(s)
    ensures |StableSort(le, s)| == |s|
    ensures forall y :: Ties(le, y, StableSort(le, s)) == Ties(le, y, s)
  {
    if s != [] {
      var t := StableSort(le, s[1..]);
      SortCorrect(le, s[1..]);
      InsertFirstSorted(le, s[0], t);
      InsertFirstMultiset(le, s[0], t);
      assert s == [s[0]] + s[1..];
      assert |multiset(StableSort(le, s))| == |multiset(s)|;
      forall y ensures Ties(le, y, StableSort(le, s)) == Ties(le, y, s) {
        InsertFirstKeepsTies(le, s[0], t, y);
        assert ([s[0]] + t)[1..] == t;
      }
    }
  }

  lemma TiesCons<T(!new)>(le: (T, T) -> bool, x: T, s: seq<T>)
    requires s != []
    ensures Ties(le, x, s[1..]) == if le(x, s[0]) && le(s[0], x) then Ties(le, x, s)[1..] else Ties(le, x, s)
  {
  }

  lemma {:induction false} TieMember<T(!new)>(le: (T, T) -> bool, x: T, s: seq<T>)
    requires Ties(le, x, s) != []
    ensures exists i :: 0 <= i < |s| && le(x, s[i]) && le(s[i], x)
  {
    if !(le(x, s[0]) && le(s[0], x)) {
      TieMember(le, x, s[1..]);
      var i :| 0 <= i < |s[1..]| && le(x, s[1..][i]) && le(s[1..][i], x);
      assert s[i + 1] == s[1..][i];
    }
  }

  lemma HeadTies<T(!new)>(le: (T, T) -> bool, a: seq<T>)
    requires TotalPreorder(le) && a != []
    ensures Ties(le, a[0], a) != [] && Ties(le, a[0], a)[0] == a[0]
  {
    assert le(a[0], a[0]);
  }

  lemma EmptyTies<T(!new)>(le: (T, T) -> bool, a: seq<T>)
    requires TotalPreorder(le) && a != []
    ensures exists x :: Ties(le, x, a) != Ties(le, x, [])
  {
    HeadTies(le, a);
    assert Ties(le, a[0], a) != Ties(le, a[0], []);
  }

  lemma {:induction false} SortedTiesDetermine<T(!new)>(le: (T, T) -> bool, a: seq<T>, b: seq<T>)
    requires TotalPreorder(le) && SortedBy(le, a) && SortedBy(le, b)
    requires forall x :: Ties(le, x, a) == Ties(le, x, b)
    ensures a == b
  {
    if a == [] || b == [] {
      // An element on one side would tie with itself there and with nothing on the other side.
      if a != [] { EmptyTies(le, a); }
      if b != [] { EmptyTies(le, b); }
    } else {
      assert le(a[0], a[0]) && le(b[0], b[0]);
      assert Ties(le, a[0], a) == Ties(le, a[0], b);
      assert Ties(le, b[0], a) == Ties(le, b[0], b);
      TieMember(le, a[0], b);
      TieMember(le, b[0], a);
      assert le(b[0], a[0]) && le(a[0], b[0]);
      assert Ties(le, a[0], a)[0] == a[0] && Ties(le, a[0], b)[0] == b[0];
      forall x ensures Ties(le, x, a[1..]) == Ties(le, x, b[1..]) {
        assert Ties(le, x, a) == Ties(le, x, b);
        TiesCons(le, x, a);
        TiesCons(le, x, b);
      }
      SortedTiesDetermine(le, a[1..], b[1..]);
    }
  }

  /** Any sorted arrangement that keeps ties in input order is the one `StableSort` computes. */
  lemma SortIsUnique<T(!new)>(le: (T, T) -> bool, s: seq<T>, t: seq<T>)
    requires TotalPreorder(le) && SortedBy(le, t)
    requires forall x :: Ties(le, x, t) == Ties(le, x, s)
    ensures t == StableSort(le, s)
  {
    SortCorrect(le, s);
    forall x ensures Ties(le, x, t) == Ties(le, x, StableSort(le, s)) {
      assert Ties(le, x, t) == Ties(le, x, s);
    }
    SortedTiesDetermine(le, t, StableSort(le, s));
  }
}
