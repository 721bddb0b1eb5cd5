/** Facts about products and quotients that the solver is better given than left to find. */
module Arithmetic {

  lemma {:induction false} MulMonotone(a: nat, b: nat, d: nat)
    requires a <= b
    ensures a * d <= b * d
  {
    assert (b - a) * d >= 0;
  }

  lemma Distribute(a: int, b: int, d: int)
    ensures (a + b) * d == a * d + b * d
  {
  }

  /** One node's part in a sum of floored quotients: `rest` is what the others hold, `n` how many they are. */
  lemma FlooredStep(v: nat, p: nat, rest: nat, restTotal: nat, n: nat)
    requires p > 0
    requires rest * p <= restTotal <= rest * p + n * (p - 1)
    ensures (v / p + rest) * p <= v + restTotal <= (v / p + rest) * p + (n + 1) * (p - 1)
  {
    DivBounds(v, p);
    Distribute(v / p, rest, p);
    Distribute(n, 1, p - 1);
  }

  /** `n` floors cannot hide a whole layer each, so `held` reaches `want`. */
  lemma LossIsBounded(held: nat, want: nat, p: nat, n: nat, total: nat)
    requires p > 0
    requires total <= held * p + (n + 1) * (p - 1)
    requires total >= want * p + n * (p - 1)
    ensures held >= want
  {
    Distribute(n, 1, p - 1);
    if held < want {
      MulMonotone(held + 1, want, p);
      Distribute(held, 1, p);
    }
  }

  lemma DropProduct(x: int, y: int, a: nat, b: nat)
    requires x >= y + a * b
    ensures x >= y
  {
    MulMonotone(0, a, b);
  }

  lemma MulCancel(a: nat, b: nat, d: nat)
    requires d > 0 && a * d >= b * d
    ensures a >= b
  {
    if a < b {
      MulMonotone(a + 1, b, d);
      Distribute(a, 1, d);
    }
  }

  lemma DivMonotone(a: nat, b: nat, d: nat)
    requires a <= b && d > 0
    ensures a / d <= b / d
  {
    if a / d > b / d {
      MulMonotone(b / d + 1, a / d, d);
    }
  }

  lemma DivUnique(a: int, d: int, q: int)
    requires d > 0 && q * d <= a < q * d + d
    ensures a / d == q
  {
    if a / d > q {
      MulMonotone(0, a / d - q - 1, d);
    } else if a / d < q {
      MulMonotone(0, q - a / d - 1, d);
    }
  }

  lemma DivOfProduct(q: nat, d: nat)
    requires d > 0
    ensures (q * d) / d == q
  {
    DivUnique(q * d, d, q);
  }

  lemma DivBounds(a: nat, d: nat)
    requires d > 0
    ensures (a / d) * d <= a < (a / d) * d + d
  {
  }

  /** Splitting a sum before dividing loses at most one. */
  lemma DivOfSum(a: nat, b: nat, d: nat)
    requires d > 0
    ensures a / d + b / d <= (a + b) / d <= a / d + b / d + 1
  {
    DivBounds(a, d);
    DivBounds(b, d);
    var q := a / d + b / d;
    assert q * d == (a / d) * d + (b / d) * d;
    if a + b < q * d + d {
      DivUnique(a + b, d, q);
    } else {
      assert (q + 1) * d == q * d + d;
      DivUnique(a + b, d, q + 1);
    }
  }

  lemma ModUnique(x: int, n: int, q: int, r: int)
    requires 0 <= r < n && x == q * n + r
    ensures x % n == r && x / n == q
  {
    DivUnique(x, n, q);
  }

  lemma ModOfSum(a: int, b: int, n: int)
    requires n > 0
    ensures (a + b % n) % n == (a + b) % n
  {
    var q, r := (a + b % n) / n, (a + b % n) % n;
    Distribute(q, b / n, n);
    ModUnique(a + b, n, q + b / n, r);
  }

  /** Reducing by a multiple of `n` first does not change the remainder by `n`. */
  lemma ModOfMod(x: nat, u: nat, n: nat)
    requires n > 0 && u > 0 && u % n == 0
    ensures (x % u) % n == x % n
  {
    var c := u / n;
    assert u == c * n;
    var q := x / u;
    assert x == q * u + x % u;
    MulAssociative(q, c, n);
    var r := (x % u) % n;
    Distribute(q * c, (x % u) / n, n);
    ModUnique(x, n, q * c + (x % u) / n, r);
  }

  lemma MulAssociative(a: int, b: int, c: int)
    ensures a * (b * c) == (a * b) * c
  {
  }

  /** Two numbers less than `n` apart with the same remainder by `n` are equal. */
  lemma SameRemainder(a: int, b: int, n: int)
    requires n > 0 && a <= b < a + n && a % n == b % n
    ensures a == b
  {
    var d := b / n - a / n;
    Distribute(b / n, -(a / n), n);
    if d >= 1 {
      MulMonotone(1, d, n);
    } else if d <= -1 {
      MulMonotone(1, -d, n);
    }
  }
}
