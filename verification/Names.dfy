/** Names built from a key and a number, and when two of them can be told apart. */
module Names {

  const DIGITS := "0123456789"

  /** Decimal notation. */
  function Digits(n: nat): string {
    if n < 10 then [DIGITS[n]] else Digits(n / 10) + [DIGITS[n % 10]]
  }

  function Show(i: int): string {
    if i < 0 then "-" + Digits(-i) else Digits(i)
  }

  /** The Redis key of a rate-limit window. */
  function RateKey(keyId: string, minute: int): string {
    "rate:" + keyId + ":" + Show(minute)
  }

  /** The identifier by which Stripe recognises a repeated meter event. */
  function MeterId(keyId: string, timestamp: int): string {
    "meter-" + keyId + "-" + Show(timestamp)
  }

  /** The number that a decimal notation stands for. */
  function Value(s: string): int {
    if s == "" then 0 else 10 * Value(s[..|s| - 1]) + (s[|s| - 1] as int - '0' as int)
  }

  /** Notation and number are each other's inverse. */
  lemma {:induction false} ValueOfDigits(n: nat)
    ensures Value(Digits(n)) == n
  {
    if n >= 10 {
      ValueOfDigits(n / 10);
      var s := Digits(n / 10);
      assert (s + [DIGITS[n % 10]])[..|s|] == s;
    } else {
      assert [DIGITS[n]][..0] == "";
    }
  }

  lemma DigitAt(i: nat, j: nat)
    requires i < 10 && j < 10 && DIGITS[i] == DIGITS[j]
    ensures i == j
  {
  }

  lemma {:induction false} DigitsOnly(n: nat)
    ensures Digits(n) != "" && '-' !in Digits(n) && ':' !in Digits(n)
  {
    assert '-' !in DIGITS && ':' !in DIGITS;
    if n >= 10 {
      DigitsOnly(n / 10);
      assert DIGITS[n % 10] in DIGITS;
    } else {
      assert DIGITS[n] in DIGITS;
    }
  }

  lemma {:induction false} DigitsInjective(a: nat, b: nat)
    requires Digits(a) == Digits(b)
    ensures a == b
  {
    DigitsOnly(a / 10);
    DigitsOnly(b / 10);
    var d := Digits(a);
    if a >= 10 && b >= 10 {
      assert d[..|d| - 1] == Digits(a / 10) && d[..|d| - 1] == Digits(b / 10);
      DigitsInjective(a / 10, b / 10);
      assert d[|d| - 1] == DIGITS[a % 10] && d[|d| - 1] == DIGITS[b % 10];
      DigitAt(a % 10, b % 10);
    } else if a < 10 && b < 10 {
      assert d[0] == DIGITS[a] && d[0] == DIGITS[b];
      DigitAt(a, b);
    }
  }

  lemma SeparatorInside(k1: string, d1: string, k2: string, d2: string, sep: char)
    requires k1 + [sep] + d1 == k2 + [sep] + d2 && |k1| < |k2|
    ensures sep in d1
  {
    var s := k1 + [sep] + d1;
    assert (k2 + [sep] + d2)[|k2|] == sep;
    assert s[|k2|] == d1[|k2| - |k1| - 1];
  }

  /** What follows the last separator determines where that separator is. */
  lemma SplitAtLast(k1: string, d1: string, k2: string, d2: string, sep: char)
    requires k1 + [sep] + d1 == k2 + [sep] + d2
    requires sep !in d1 && sep !in d2
    ensures k1 == k2 && d1 == d2
  {
    if |k1| < |k2| {
      SeparatorInside(k1, d1, k2, d2, sep);
    } else if |k2| < |k1| {
      SeparatorInside(k2, d2, k1, d1, sep);
    } else {
      var s, t := k1 + [sep] + d1, k2 + [sep] + d2;
      assert s[..|k1|] == k1 && t[..|k1|] == k2;
      assert s[|k1| + 1..] == d1 && t[|k1| + 1..] == d2;
    }
  }

  lemma PrefixCancels(p: string, a: string, b: string)
    requires p + a == p + b
    ensures a == b
  {
    assert (p + a)[|p|..] == a && (p + b)[|p|..] == b;
  }

  lemma SignShows(i: int)
    ensures '-' in Show(i) <==> i < 0
  {
    DigitsOnly(if i < 0 then -i else i);
    if i < 0 {
      assert Show(i)[0] == '-';
    }
  }

  lemma ShowInjective(a: int, b: int)
    requires Show(a) == Show(b)
    ensures a == b
  {
    SignShows(a);
    SignShows(b);
    if a < 0 {
      PrefixCancels("-", Digits(-a), Digits(-b));
      DigitsInjective(-a, -b);
    } else {
      DigitsInjective(a, b);
    }
  }

  lemma NoColon(i: int)
    ensures ':' !in Show(i)
  {
    DigitsOnly(if i < 0 then -i else i);
  }

  /** Different keys or minutes never share a Redis counter. */
  lemma RateKeyInjective(k1: string, m1: int, k2: string, m2: int)
    requires RateKey(k1, m1) == RateKey(k2, m2)
    ensures k1 == k2 && m1 == m2
  {
    NoColon(m1);
    NoColon(m2);
    SplitAtLast("rate:" + k1, Show(m1), "rate:" + k2, Show(m2), ':');
    PrefixCancels("rate:", k1, k2);
    ShowInjective(m1, m2);
  }

  /** From 1970 on, different keys or hours never share a meter identifier. */
  lemma MeterIdInjective(k1: string, t1: int, k2: string, t2: int)
    requires t1 >= 0 && t2 >= 0 && MeterId(k1, t1) == MeterId(k2, t2)
    ensures k1 == k2 && t1 == t2
  {
    SignShows(t1);
    SignShows(t2);
    SplitAtLast("meter-" + k1, Show(t1), "meter-" + k2, Show(t2), '-');
    PrefixCancels("meter-", k1, k2);
    ShowInjective(t1, t2);
  }

  /** Before 1970 the sign of the timestamp could be taken for part of the key. */
  lemma MeterIdNeedsTheEpoch(k: string, t: int)
    requires t < 0
    ensures MeterId(k, t) == MeterId(k + "-", -t)
  {
    assert k + "-" + Show(t) == (k + "-") + "-" + Show(-t);
  }
}
