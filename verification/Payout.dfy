/** One nightly provider payout: how much each provider gets, and what of it arrives.  Times are whole seconds. */
module Payout {
  import opened Arithmetic
  import opened Collections
  import opened Prelude
  import opened Metering

  const DAY := 86400
  const TICK := 300
  const PAYOUT_HOUR := 2

  // ----- One payout

  predicate Within(row: Row, from: int, to: int) {
    from as real <= row.at < to as real
  }

  /** Weighted usage of all keys in `[from, to)`. */
  function Usage(rows: seq<Row>, from: int, to: int): int {
    if rows == [] then 0
    else
      var last := rows[|rows| - 1];
      Usage(rows[..|rows| - 1], from, to) + if Within(last, from, to) then last.tokensIn + last.tokensOut * 2 else 0
  }

  /** One more row counts, whatever its key, exactly if it was stored in the half-open window; output tokens count twice. */
  lemma WindowLaw(rows: seq<Row>, row: Row, from: int, to: int)
    ensures Usage([], from, to) == 0
    ensures Usage(rows + [row], from, to) == Usage(rows, from, to) +
      if from as real <= row.at < to as real then row.tokensIn + 2 * row.tokensOut else 0
  {
    assert (rows + [row])[..|rows|] == rows;
  }

  /** What providers share, in dollars. */
  function PoolUsd(weighted: int, ratePer1k: real, commission: real): real {
    (weighted as real) * ratePer1k / 1000.0 * (1.0 - commission)
  }

  /** Each provider's share in cents, rounded down; the cast to an unsigned number turns a negative share into none. */
  function ShareCents(poolUsd: real, providers: nat): nat
    requires providers > 0
  {
    Max(0, (poolUsd / providers as real * 100.0).Floor)
  }

  datatype Transfer = Transfer(account: string, cents: nat)

  /** The transfers that go through when each provider is sent the same amount. */
  function Sent(accounts: seq<string>, cents: nat, goesThrough: string -> bool): seq<Transfer> {
    if accounts == [] then []
    else
      var last := accounts[|accounts| - 1];
      Sent(accounts[..|accounts| - 1], cents, goesThrough) + if goesThrough(last) then [Transfer(last, cents)] else []
  }

  function TotalCents(transfers: seq<Transfer>): nat {
    if transfers == [] then 0 else TotalCents(transfers[..|transfers| - 1]) + transfers[|transfers| - 1].cents
  }

  /** The transfers one run of the payout processor makes. */
  function PayoutTransfers(rows: seq<Row>, now: int, accounts: seq<string>, ratePer1k: real, commission: real,
                           goesThrough: string -> bool): seq<Transfer> {
    if accounts == [] then []
    else
      var cents := ShareCents(PoolUsd(Usage(rows, now - DAY, now), ratePer1k, commission), |accounts|);
      if cents == 0 then [] else Sent(accounts, cents, goesThrough)
  }

  lemma NoUsageNoTransfers(rows: seq<Row>, now: int, accounts: seq<string>, ratePer1k: real, commission: real,
                           goesThrough: string -> bool)
    requires accounts != [] && Usage(rows, now - DAY, now) == 0
    ensures PayoutTransfers(rows, now, accounts, ratePer1k, commission, goesThrough) == []
  {
    assert PoolUsd(0, ratePer1k, commission) == 0.0;
    NoPoolNoShare(|accounts|);
  }

  class PayoutProcessor {
    var transfers: seq<Transfer>

    constructor ()
      ensures transfers == []
    {
      transfers := [];
    }

    method SumUsage(rows: seq<Row>, from: int, to: int) returns (weighted: int)
      ensures weighted == Usage(rows, from, to)
    {
      var tin, tout := 0, 0;
      for i := 0 to |rows|
        invariant tin + tout * 2 == Usage(rows[..i], from, to)
      {
        assert rows[..i + 1][..i] == rows[..i];
        if Within(rows[i], from, to) {
          tin, tout := tin + rows[i].tokensIn, tout + rows[i].tokensOut;
        }
      }
      assert rows[..|rows|] == rows;
      return tin + tout * 2;
    }

    /** `process_payouts`; `dbOk` is false when a query fails.  A transfer that fails is only logged. */
    method ProcessPayouts(rows: seq<Row>, now: int, accounts: seq<string>, ratePer1k: real, commission: real,
                          goesThrough: string -> bool, dbOk: bool) returns (ok: bool)
      modifies this
      ensures ok == dbOk
      ensures transfers == old(transfers) +
        if dbOk then PayoutTransfers(rows, now, accounts, ratePer1k, commission, goesThrough) else []
    {
      if !dbOk {
        return false;
      }
      if accounts == [] {
        return true;
      }
      var totalWeighted := SumUsage(rows, now - DAY, now);
      if totalWeighted == 0 {
        NoUsageNoTransfers(rows, now, accounts, ratePer1k, commission, goesThrough);
        assert transfers == old(transfers) + [];
        return true;
      }
      var grossUsd := (totalWeighted as real) * ratePer1k / 1000.0;
      var providerPoolUsd := grossUsd * (1.0 - commission);
      var perProviderUsd := providerPoolUsd / |accounts| as real;
      var cents: nat := Max(0, (perProviderUsd * 100.0).Floor);
      assert providerPoolUsd == PoolUsd(Usage(rows, now - DAY, now), ratePer1k, commission);
      assert cents == ShareCents(providerPoolUsd, |accounts|);
      if cents == 0 {
        assert transfers == old(transfers) + [];
        return true;
      }
      for i := 0 to |accounts|
        invariant transfers == old(transfers) + Sent(accounts[..i], cents, goesThrough)
      {
        assert accounts[..i + 1][..i] == accounts[..i];
        if goesThrough(accounts[i]) {
          transfers := transfers + [Transfer(accounts[i], cents)];
        }
      }
      assert accounts[..|accounts|] == accounts;
      return true;
    }
  }

  // ----- Conservation

  lemma ProductSign(n: real, d: real, p: real)
    requires n > 0.0 && p == n * d
    ensures d > 0.0 ==> p > 0.0
    ensures d >= 0.0 <==> p >= 0.0
  {
  }

  lemma Expand(n: real, f: real, x: real, nf: real, nx: real, p: real)
    requires nf == n * f && nx == n * x && p == n * (f + 1.0 - x)
    ensures p == nf + n - nx
  {
  }

  lemma ScaleBelow(n: real, f: real, x: real, nf: real, nx: real)
    requires n > 0.0 && x < f + 1.0 && nf == n * f && nx == n * x
    ensures nx < nf + n
  {
    var p := n * (f + 1.0 - x);
    ProductSign(n, f + 1.0 - x, p);
    Expand(n, f, x, nf, nx, p);
  }

  lemma ScaleAbove(n: real, f: real, x: real, nf: real, nx: real)
    requires n > 0.0 && f <= x && nf == n * f && nx == n * x
    ensures nf <= nx
  {
    var p := n * (x - f);
    ProductSign(n, x - f, p);
  }

  lemma ShareOfPool(pool: real, n: real)
    requires n > 0.0
    ensures n * (pool / n * 100.0) == 100.0 * pool
  {
    var each := pool / n;
    assert n * each == pool;
    assert n * (each * 100.0) == (n * each) * 100.0;
  }

  /** `n` shares of `cents` make up the pool, to within one cent each. */
  predicate SharesMakeUp(n: nat, cents: nat, pool: real) {
    var paid := n as real * cents as real;
    paid <= 100.0 * pool < paid + n as real
  }

  lemma FloorMakesUp(n: nat, share: real, cents: nat, pool: real)
    requires n > 0 && n as real * share == 100.0 * pool
    requires cents == Max(0, share.Floor)
    ensures SharesMakeUp(n, cents, pool) <==> pool >= 0.0
  {
    var r, c := n as real, cents as real;
    ProductSign(r, share, 100.0 * pool);
    ProductSign(r, c, r * c);
    if share >= 0.0 {
      assert c <= share < c + 1.0;
      ScaleBelow(r, c, share, r * c, 100.0 * pool);
      ScaleAbove(r, c, share, r * c, 100.0 * pool);
    }
  }

  lemma ShareBounds(pool: real, n: nat)
    requires n > 0
    ensures SharesMakeUp(n, ShareCents(pool, n), pool) <==> pool >= 0.0
  {
    ShareOfPool(pool, n as real);
    FloorMakesUp(n, pool / n as real * 100.0, ShareCents(pool, n), pool);
  }

  lemma NoPoolNoShare(n: nat)
    requires n > 0
    ensures ShareCents(0.0, n) == 0
  {
    assert 0.0 / n as real == 0.0;
  }

  lemma {:induction false} SentTotal(accounts: seq<string>, cents: nat, goesThrough: string -> bool)
    ensures TotalCents(Sent(accounts, cents, goesThrough)) <= |accounts| * cents
  {
    if accounts != [] {
      var before, last := accounts[..|accounts| - 1], accounts[|accounts| - 1];
      SentTotal(before, cents, goesThrough);
      Distribute(|before|, 1, cents);
      var sent := Sent(before, cents, goesThrough);
      assert (sent + [Transfer(last, cents)])[..|sent|] == sent;
      assert sent + [] == sent;
    }
  }

  lemma CentsAsReals(total: nat, n: nat, cents: nat, bound: real)
    requires total <= n * cents && n as real * cents as real <= bound
    ensures total as real <= bound
  {
    assert (n * cents) as real == n as real * cents as real;
  }

  /**
   A payout never hands out more than the providers' pool.  The shares come within one cent per provider of
   the pool exactly when the pool is not negative, that is, unless the commission exceeds the whole.
   */
  lemma PayoutConserves(rows: seq<Row>, now: int, accounts: seq<string>, ratePer1k: real, commission: real, goesThrough: string -> bool)
    requires accounts != []
    ensures var pool := PoolUsd(Usage(rows, now - DAY, now), ratePer1k, commission);
      && (SharesMakeUp(|accounts|, ShareCents(pool, |accounts|), pool) <==> pool >= 0.0)
      && (pool >= 0.0 ==>
            TotalCents(PayoutTransfers(rows, now, accounts, ratePer1k, commission, goesThrough)) as real <= 100.0 * pool)
  {
    var pool := PoolUsd(Usage(rows, now - DAY, now), ratePer1k, commission);
    PoolIsKept(pool, accounts, goesThrough);
  }

  lemma PoolIsKept(pool: real, accounts: seq<string>, goesThrough: string -> bool)
    requires accounts != []
    ensures var cents := ShareCents(pool, |accounts|);
      && (SharesMakeUp(|accounts|, cents, pool) <==> pool >= 0.0)
      && (pool >= 0.0 ==> TotalCents(Sent(accounts, cents, goesThrough)) as real <= 100.0 * pool)
  {
    ShareBounds(pool, |accounts|);
    SentIsKept(pool, accounts, ShareCents(pool, |accounts|), goesThrough);
  }

  lemma SentIsKept(pool: real, accounts: seq<string>, cents: nat, goesThrough: string -> bool)
    ensures SharesMakeUp(|accounts|, cents, pool) ==> TotalCents(Sent(accounts, cents, goesThrough)) as real <= 100.0 * pool
  {
    SentTotal(accounts, cents, goesThrough);
    if SharesMakeUp(|accounts|, cents, pool) {
      CentsAsReals(TotalCents(Sent(accounts, cents, goesThrough)), |accounts|, cents, 100.0 * pool);
    }
  }

  // ----- What is sent to whom

  function AccountOf(): Transfer -> string {
    (t: Transfer) => t.account
  }

  lemma SentOneMore(accounts: seq<string>, cents: nat, goesThrough: string -> bool)
    requires accounts != []
    ensures var before, last := accounts[..|accounts| - 1], accounts[|accounts| - 1];
      && Keys(AccountOf(), Sent(accounts, cents, goesThrough)) ==
           Keys(AccountOf(), Sent(before, cents, goesThrough)) + (if goesThrough(last) then [last] else [])
      && multiset(accounts) == multiset(before) + multiset{last}
  {
    var before, last := accounts[..|accounts| - 1], accounts[|accounts| - 1];
    assert accounts == before + [last];
    var sent := Sent(before, cents, goesThrough);
    if goesThrough(last) {
      KeysConcat(AccountOf(), sent, [Transfer(last, cents)]);
      KeysCons(AccountOf(), Transfer(last, cents), []);
      assert [Transfer(last, cents)] + [] == [Transfer(last, cents)];
    } else {
      assert Keys(AccountOf(), sent) + [] == Keys(AccountOf(), sent) && sent + [] == sent;
    }
  }

  lemma {:induction false} SentTimes(accounts: seq<string>, cents: nat, goesThrough: string -> bool, a: string)
    ensures multiset(Keys(AccountOf(), Sent(accounts, cents, goesThrough)))[a] == if goesThrough(a) then multiset(accounts)[a] else 0
  {
    if accounts != [] {
      SentTimes(accounts[..|accounts| - 1], cents, goesThrough, a);
      SentOneMore(accounts, cents, goesThrough);
    }
  }

  lemma {:induction false} SentEach(accounts: seq<string>, cents: nat, goesThrough: string -> bool)
    ensures forall t :: t in Sent(accounts, cents, goesThrough) ==> t.cents == cents && goesThrough(t.account)
  {
    if accounts != [] {
      SentEach(accounts[..|accounts| - 1], cents, goesThrough);
    }
  }

  lemma SentIs(accounts: seq<string>, cents: nat, goesThrough: string -> bool)
    ensures var sent := Sent(accounts, cents, goesThrough);
      && (forall t :: t in sent ==> t.cents == cents && goesThrough(t.account))
      && (forall a :: multiset(Keys(AccountOf(), sent))[a] == if goesThrough(a) then multiset(accounts)[a] else 0)
  {
    SentEach(accounts, cents, goesThrough);
    forall a ensures multiset(Keys(AccountOf(), Sent(accounts, cents, goesThrough)))[a] ==
      if goesThrough(a) then multiset(accounts)[a] else 0
    {
      SentTimes(accounts, cents, goesThrough, a);
    }
  }

  /** The providers' pool in cents, with the commission taken off. */
  predicate FlooredShare(w: int, ratePer1k: real, commission: real, n: nat, cents: nat) {
    var pool := (1.0 - commission) * (w as real * ratePer1k / 1000.0);
    n as real * cents as real <= 100.0 * pool < n as real * (cents as real + 1.0)
  }

  lemma PoolLessCommission(w: int, ratePer1k: real, commission: real)
    ensures PoolUsd(w, ratePer1k, commission) == (1.0 - commission) * (w as real * ratePer1k / 1000.0)
  {
    var gross := (w as real) * ratePer1k / 1000.0;
    assert gross * (1.0 - commission) == (1.0 - commission) * gross;
  }

  lemma MakeUpIsFloored(n: nat, cents: nat, pool: real)
    requires SharesMakeUp(n, cents, pool)
    ensures n as real * cents as real <= 100.0 * pool < n as real * (cents as real + 1.0)
  {
    Expand(n as real, cents as real, 0.0, n as real * cents as real, 0.0, n as real * (cents as real + 1.0));
  }

  lemma ShareIsFloored(w: int, ratePer1k: real, commission: real, n: nat, cents: nat)
    requires n > 0 && cents > 0 && cents == ShareCents(PoolUsd(w, ratePer1k, commission), n)
    ensures FlooredShare(w, ratePer1k, commission, n, cents)
  {
    var pool := PoolUsd(w, ratePer1k, commission);
    PoolLessCommission(w, ratePer1k, commission);
    PositiveShare(pool, n);
    ShareBounds(pool, n);
    MakeUpIsFloored(n, cents, pool);
  }

  lemma PositiveShare(pool: real, n: nat)
    requires n > 0 && ShareCents(pool, n) > 0
    ensures pool >= 0.0
  {
    var share := pool / n as real * 100.0;
    ShareOfPool(pool, n as real);
    ProductSign(n as real, share, 100.0 * pool);
  }

  lemma NoShare(w: int, ratePer1k: real, commission: real, n: nat)
    requires n > 0 && ShareCents(PoolUsd(w, ratePer1k, commission), n) == 0
    ensures 100.0 * ((1.0 - commission) * (w as real * ratePer1k / 1000.0)) < n as real
  {
    var pool := PoolUsd(w, ratePer1k, commission);
    PoolLessCommission(w, ratePer1k, commission);
    ShareBounds(pool, n);
    if pool >= 0.0 {
      MakeUpIsFloored(n, 0, pool);
    }
  }

  /**
   The transfers of one payout.  Each goes to an account whose transfer goes through, once for every provider with that
   account, and each is the whole number of cents in an equal share of the day's usage at the rate, less the commission.
   Nothing is sent although some transfer would go through only if the pool does not hold a cent for each provider.
   */
  lemma TransfersAre(rows: seq<Row>, now: int, accounts: seq<string>, ratePer1k: real, commission: real, goesThrough: string -> bool)
    ensures var sent, w, n := PayoutTransfers(rows, now, accounts, ratePer1k, commission, goesThrough), Usage(rows, now - 86400, now), |accounts|;
      && (forall t :: t in sent ==> goesThrough(t.account) && t.cents > 0 && FlooredShare(w, ratePer1k, commission, n, t.cents))
      && (sent != [] ==> forall a :: multiset(Keys(AccountOf(), sent))[a] == if goesThrough(a) then multiset(accounts)[a] else 0)
      && (sent == [] && (exists a :: a in accounts && goesThrough(a)) ==>
            100.0 * ((1.0 - commission) * (w as real * ratePer1k / 1000.0)) < n as real)
  {
    if accounts != [] {
      var w := Usage(rows, now - DAY, now);
      var cents := ShareCents(PoolUsd(w, ratePer1k, commission), |accounts|);
      SentIs(accounts, cents, goesThrough);
      if cents > 0 {
        ShareIsFloored(w, ratePer1k, commission, |accounts|, cents);
        SomeoneIsSent(accounts, cents, goesThrough);
      } else {
        NoShare(w, ratePer1k, commission, |accounts|);
      }
    }
  }

  lemma SomeoneIsSent(accounts: seq<string>, cents: nat, goesThrough: string -> bool)
    ensures (exists a :: a in accounts && goesThrough(a)) ==> Sent(accounts, cents, goesThrough) != []
  {
    SentIs(accounts, cents, goesThrough);
    if a :| a in accounts && goesThrough(a) {
      assert a in multiset(accounts);
      assert multiset(Keys(AccountOf(), Sent(accounts, cents, goesThrough)))[a] > 0;
    }
  }
}
