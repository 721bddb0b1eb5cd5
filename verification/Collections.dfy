/** Taking items out of sequences, and keys that stay distinct under selection and reordering. */
module Collections {

  /** Taking one occurrence of `x` out of `s`. */
  lemma Remove<T>(s: seq<T>, x: T) returns (k: nat)
    requires x in multiset(s)
    ensures k < |s| && s[k] == x
    ensures multiset(s[..k] + s[k + 1..]) == multiset(s) - multiset{x}
  {
    k :| k < |s| && s[k] == x;
    assert s == s[..k] + [x] + s[k + 1..];
  }

  lemma UpdateTail<T>(s: seq<T>, k: nat, x: T)
    requires s != [] && k < |s| - 1
    ensures [s[0]] + s[1..][k := x] == s[k + 1 := x]
  {
  }

  function Keys<T, K>(key: T -> K, items: seq<T>): seq<K> {
    if items == [] then [] else [key(items[0])] + Keys(key, items[1..])
  }

  lemma {:induction false} KeysAt<T, K>(key: T -> K, items: seq<T>)
    ensures |Keys(key, items)| == |items|
    ensures forall i :: 0 <= i < |items| ==> Keys(key, items)[i] == key(items[i])
  {
    if items != [] {
      KeysAt(key, items[1..]);
    }
  }

  ghost predicate Distinct<K>(keys: seq<K>) {
    forall i, j :: 0 <= i < j < |keys| ==> keys[i] != keys[j]
  }

  lemma {:induction false} KeysConcat<T, K>(key: T -> K, a: seq<T>, b: seq<T>)
    ensures Keys(key, a + b) == Keys(key, a) + Keys(key, b)
  {
    if a == [] {
      assert a + b == b;
    } else {
      assert (a + b)[1..] == a[1..] + b;
      KeysConcat(key, a[1..], b);
    }
  }

  lemma KeysRemove<T, K>(key: T -> K, items: seq<T>, k: nat)
    requires k < |items|
    ensures multiset(Keys(key, items)) == multiset{key(items[k])} + multiset(Keys(key, items[..k] + items[k + 1..]))
  {
    var before, after := items[..k], items[k + 1..];
    KeysConcat(key, before, after);
    KeysSplit(key, items, k);
    var a, b := Keys(key, before), Keys(key, after);
    assert multiset(a + [key(items[k])] + b) == multiset(a) + multiset{key(items[k])} + multiset(b);
  }

  lemma KeysSplit<T, K>(key: T -> K, items: seq<T>, k: nat)
    requires k < |items|
    ensures Keys(key, items) == Keys(key, items[..k]) + [key(items[k])] + Keys(key, items[k + 1..])
  {
    var before, after := items[..k], items[k + 1..];
    assert items == before + ([items[k]] + after);
    KeysConcat(key, before, [items[k]] + after);
    KeysCons(key, items[k], after);
    Associate(Keys(key, before), [key(items[k])], Keys(key, after));
  }

  lemma Associate<T>(a: seq<T>, b: seq<T>, c: seq<T>)
    ensures a + (b + c) == a + b + c
  {
  }

  lemma KeysCons<T, K>(key: T -> K, first: T, rest: seq<T>)
    ensures Keys(key, [first] + rest) == [key(first)] + Keys(key, rest)
  {
    assert ([first] + rest)[1..] == rest;
  }

  lemma {:induction false} KeysDrawn<T, K>(key: T -> K, team: seq<T>, items: seq<T>)
    requires multiset(team) <= multiset(items)
    ensures multiset(Keys(key, team)) <= multiset(Keys(key, items))
    decreases |team|
  {
    if team != [] {
      assert team == [team[0]] + team[1..];
      assert team[0] in multiset(team);
      var k := Remove(items, team[0]);
      KeysDrawn(key, team[1..], items[..k] + items[k + 1..]);
      KeysRemove(key, items, k);
    }
  }

  lemma {:induction false} DistinctIsMultiplicity<K>(keys: seq<K>)
    ensures Distinct(keys) <==> forall x :: multiset(keys)[x] <= 1
  {
    if keys != [] {
      var rest := keys[1..];
      assert keys == [keys[0]] + rest;
      DistinctIsMultiplicity(rest);
      if Distinct(keys) {
        assert Distinct(rest);
        assert keys[0] !in multiset(rest);
      }
      if forall x :: multiset(keys)[x] <= 1 {
        assert multiset(keys)[keys[0]] <= 1;
        assert keys[0] !in multiset(rest);
        forall x ensures multiset(rest)[x] <= 1 { assert multiset(keys)[x] <= 1; }
      }
    }
  }

  /** Items drawn from a collection with pairwise distinct keys have pairwise distinct keys. */
  lemma DrawnDistinct<T, K>(key: T -> K, team: seq<T>, items: seq<T>)
    requires multiset(team) <= multiset(items) && Distinct(Keys(key, items))
    ensures Distinct(Keys(key, team))
  {
    KeysDrawn(key, team, items);
    DistinctIsMultiplicity(Keys(key, items));
    DistinctIsMultiplicity(Keys(key, team));
    forall x ensures multiset(Keys(key, team))[x] <= 1 {
      assert multiset(Keys(key, items))[x] <= 1;
    }
  }
}
