/** What every account has been sent over a run of the payout loop, window by window. */
module PayoutHistory {
  import opened Metering
  import opened Payout
  import opened PayoutLoop
  import opened Prelude

  /** The tables, the rates, who is onboarded when, and which transfers go through when. */
  datatype Books = Books(
    rows: seq<Row>, ratePer1k: real, commission: real,
    accounts: int -> seq<string>, goesThrough: (int, string) -> bool)

  function GoingThrough(b: Books, t: int): string -> bool {
    (account: string) => b.goesThrough(t, account)
  }

  function Always(): string -> bool {
    (account: string) => true
  }

  /** The transfers made by the payout at `t`, and those it would make if all of them went through. */
  function SentAt(b: Books, t: int): seq<Transfer> {
    PayoutTransfers(b.rows, t, b.accounts(t), b.ratePer1k, b.commission, GoingThrough(b, t))
  }

  function DueAt(b: Books, t: int): seq<Transfer> {
    PayoutTransfers(b.rows, t, b.accounts(t), b.ratePer1k, b.commission, Always())
  }

  /** What the transfers bring an account, in cents. */
  function TotalTo(transfers: seq<Transfer>, account: string): nat {
    if transfers == [] then 0
    else
      var last := transfers[|transfers| - 1];
      TotalTo(transfers[..|transfers| - 1], account) + if last.account == account then last.cents else 0
  }

  function ShareOf(b: Books, t: int, account: string): nat {
    TotalTo(DueAt(b, t), account)
  }

  /** All transfers of a run, each payout's under the end of the window it pays for. */
  datatype Payment = Payment(window: int, transfers: seq<Transfer>)

  function LogAfter(b: Books, ordinal: int -> int, ok: int -> bool, t0: int, k: nat): seq<Payment> {
    if k == 0 then []
    else
      var s := LoopAfter(ordinal, ok, t0, k - 1);
      LogAfter(b, ordinal, ok, t0, k - 1) +
      if OnTick(s.last, ordinal, s.now, ok(s.now)).1 then [Payment(s.now, SentAt(b, s.now))] else []
  }

  /** What a log brings an account for one window. */
  function ReceivedFor(log: seq<Payment>, window: int, account: string): nat {
    if log == [] then 0
    else
      var last := log[|log| - 1];
      ReceivedFor(log[..|log| - 1], window, account) + if last.window == window then TotalTo(last.transfers, account) else 0
  }

  function ReceivedInAll(log: seq<Payment>, account: string): nat {
    if log == [] then 0
    else ReceivedInAll(log[..|log| - 1], account) + TotalTo(log[|log| - 1].transfers, account)
  }

  function SharesInAll(b: Books, paid: seq<int>, account: string): nat {
    if paid == [] then 0
    else SharesInAll(b, paid[..|paid| - 1], account) + ShareOf(b, paid[|paid| - 1], account)
  }

  // ----- One payout

  lemma {:induction false} SentTo(accounts: seq<string>, cents: nat, goesThrough: string -> bool, account: string)
    ensures TotalTo(Sent(accounts, cents, goesThrough), account) ==
      if goesThrough(account) then TotalTo(Sent(accounts, cents, Always()), account) else 0
  {
    if accounts != [] {
      var before, last := accounts[..|accounts| - 1], accounts[|accounts| - 1];
      SentTo(before, cents, goesThrough, account);
      SentToOneMore(accounts, cents, goesThrough, account);
      SentToOneMore(accounts, cents, Always(), account);
    }
  }

  lemma SentToOneMore(accounts: seq<string>, cents: nat, goesThrough: string -> bool, account: string)
    requires accounts != []
    ensures var before, last := accounts[..|accounts| - 1], accounts[|accounts| - 1];
      TotalTo(Sent(accounts, cents, goesThrough), account) ==
        TotalTo(Sent(before, cents, goesThrough), account) + if goesThrough(last) && last == account then cents else 0
  {
    var before, last := accounts[..|accounts| - 1], accounts[|accounts| - 1];
    var sent := Sent(before, cents, goesThrough);
    if goesThrough(last) {
      TotalToOneMore(sent, Transfer(last, cents), account);
    } else {
      assert Sent(accounts, cents, goesThrough) == sent + [] == sent;
    }
  }

  lemma TotalToOneMore(transfers: seq<Transfer>, last: Transfer, account: string)
    ensures TotalTo(transfers + [last], account) == TotalTo(transfers, account) + if last.account == account then last.cents else 0
  {
    assert (transfers + [last])[..|transfers|] == transfers;
  }

  /** A payout brings an account its share or nothing. */
  lemma ShareOrNothing(b: Books, t: int, account: string)
    ensures TotalTo(SentAt(b, t), account) == if b.goesThrough(t, account) then ShareOf(b, t, account) else 0
  {
    if b.accounts(t) != [] {
      var cents := ShareCents(PoolUsd(Usage(b.rows, t - DAY, t), b.ratePer1k, b.commission), |b.accounts(t)|);
      SentTo(b.accounts(t), cents, GoingThrough(b, t), account);
    }
  }

  // ----- All payouts of a run

  lemma LogOneMore(log: seq<Payment>, p: Payment, window: int, account: string)
    ensures ReceivedFor(log + [p], window, account) ==
      ReceivedFor(log, window, account) + if p.window == window then TotalTo(p.transfers, account) else 0
    ensures ReceivedInAll(log + [p], account) == ReceivedInAll(log, account) + TotalTo(p.transfers, account)
  {
    assert (log + [p])[..|log|] == log;
  }

  lemma NotPaidYet(ordinal: int -> int, s: LoopState)
    requires Orderly(ordinal, s)
    ensures s.now !in s.paid
  {
  }

  /** What an account has received for a window after the payouts at `paid`. */
  function Arrived(b: Books, paid: seq<int>, window: int, account: string): nat {
    if window in paid && b.goesThrough(window, account) then ShareOf(b, window, account) else 0
  }

  lemma WindowOneMore(b: Books, log: seq<Payment>, paid: seq<int>, t: int, window: int, account: string)
    requires t !in paid && ReceivedFor(log, window, account) == Arrived(b, paid, window, account)
    ensures ReceivedFor(log + [Payment(t, SentAt(b, t))], window, account) == Arrived(b, paid + [t], window, account)
  {
    LogOneMore(log, Payment(t, SentAt(b, t)), window, account);
    ShareOrNothing(b, t, account);
    assert window in paid + [t] <==> window in paid || window == t;
  }

  /**
   However long the loop runs, an account has received for a window exactly its share if the transfer of that window's
   payout goes through, and nothing otherwise: a failed share is never sent later.
   */
  lemma {:induction false} EachWindowIs(b: Books, ordinal: int -> int, ok: int -> bool, t0: int, k: nat, window: int, account: string)
    ensures ReceivedFor(LogAfter(b, ordinal, ok, t0, k), window, account) ==
      Arrived(b, LoopAfter(ordinal, ok, t0, k).paid, window, account)
  {
    if k > 0 {
      EachWindowIs(b, ordinal, ok, t0, k - 1, window, account);
      var s := LoopAfter(ordinal, ok, t0, k - 1);
      var log := LogAfter(b, ordinal, ok, t0, k - 1);
      if OnTick(s.last, ordinal, s.now, ok(s.now)).1 {
        LoopIsOrderly(ordinal, ok, t0, k - 1);
        NotPaidYet(ordinal, s);
        WindowOneMore(b, log, s.paid, s.now, window, account);
      } else {
        assert log + [] == log;
      }
    }
  }

  /** The account's transfer goes through in each payout in which it has a share. */
  predicate NeverFails(b: Books, paid: seq<int>, account: string) {
    forall i :: 0 <= i < |paid| ==> ShareOf(b, paid[i], account) == 0 || b.goesThrough(paid[i], account)
  }

  /** An account has received its share of every window exactly when its transfer went through in each payout. */
  lemma AllSharesIff(b: Books, ordinal: int -> int, ok: int -> bool, t0: int, k: nat, account: string)
    ensures var paid, log := LoopAfter(ordinal, ok, t0, k).paid, LogAfter(b, ordinal, ok, t0, k);
      (forall i :: 0 <= i < |paid| ==> ReceivedFor(log, paid[i], account) == ShareOf(b, paid[i], account)) <==>
        NeverFails(b, paid, account)
  {
    var paid, log := LoopAfter(ordinal, ok, t0, k).paid, LogAfter(b, ordinal, ok, t0, k);
    forall i | 0 <= i < |paid|
      ensures ReceivedFor(log, paid[i], account) == if b.goesThrough(paid[i], account) then ShareOf(b, paid[i], account) else 0
    {
      EachWindowIs(b, ordinal, ok, t0, k, paid[i], account);
    }
  }

  /** In total an account never receives more than its shares, and as much exactly when no transfer of a share failed. */
  lemma {:induction false} TotalIff(b: Books, ordinal: int -> int, ok: int -> bool, t0: int, k: nat, account: string)
    ensures var paid := LoopAfter(ordinal, ok, t0, k).paid;
      var received, due := ReceivedInAll(LogAfter(b, ordinal, ok, t0, k), account), SharesInAll(b, paid, account);
      received <= due && (received == due <==> NeverFails(b, paid, account))
  {
    if k > 0 {
      TotalIff(b, ordinal, ok, t0, k - 1, account);
      var s := LoopAfter(ordinal, ok, t0, k - 1);
      var log := LogAfter(b, ordinal, ok, t0, k - 1);
      if OnTick(s.last, ordinal, s.now, ok(s.now)).1 {
        LogOneMore(log, Payment(s.now, SentAt(b, s.now)), s.now, account);
        ShareOrNothing(b, s.now, account);
        NeverFailsOneMore(b, s.paid, s.now, account);
        assert (s.paid + [s.now])[..|s.paid|] == s.paid;
      } else {
        assert log + [] == log;
      }
    }
  }

  lemma NeverFailsOneMore(b: Books, paid: seq<int>, t: int, account: string)
    ensures NeverFails(b, paid + [t], account) <==>
      NeverFails(b, paid, account) && (ShareOf(b, t, account) == 0 || b.goesThrough(t, account))
  {
    var more := paid + [t];
    assert more[|paid|] == t && forall i :: 0 <= i < |paid| ==> more[i] == paid[i];
  }

  // ----- A share that is lost

  /** A thousand tokens at a dollar, a commission of a fifth, one account, and a transfer that fails at 02:00 and never again. */
  function OneFailure(): Books {
    Books([Row("key", 400, 300, 0.0)], 1.0, 0.2, t => ["acct"], (t, account) => t != PAYOUT_HOUR * HOUR)
  }

  lemma {:induction false} FirstTickPays(ordinal: int -> int, k: nat)
    requires k > 0
    ensures PAYOUT_HOUR * HOUR in LoopAfter(ordinal, t => true, PAYOUT_HOUR * HOUR, k).paid
  {
    if k > 1 {
      FirstTickPays(ordinal, k - 1);
    } else {
      assert LoopAfter(ordinal, t => true, PAYOUT_HOUR * HOUR, 0) == LoopState(PAYOUT_HOUR * HOUR, None, []);
    }
  }

  lemma EightyCentsAreDue()
    ensures ShareOf(OneFailure(), PAYOUT_HOUR * HOUR, "acct") == 80
  {
    var b, t := OneFailure(), PAYOUT_HOUR * HOUR;
    var row := Row("key", 400, 300, 0.0);
    assert [row][..0] == [] && Usage([row], t - DAY, t) == 1000;
    assert PoolUsd(1000, 1.0, 0.2) == 0.8;
    assert ShareCents(0.8, 1) == 80;
    assert ["acct"][..0] == [] && Sent(["acct"], 80, Always()) == [Transfer("acct", 80)];
    assert [Transfer("acct", 80)][..0] == [];
  }

  /** The eighty cents due at the first tick are never sent, however long the loop runs, and although later transfers succeed. */
  lemma FailedShareIsLost(ordinal: int -> int, k: nat)
    requires k > 0
    ensures var b, t := OneFailure(), PAYOUT_HOUR * HOUR;
      && t in LoopAfter(ordinal, t => true, t, k).paid
      && ShareOf(b, t, "acct") == 80
      && (forall later :: later != t ==> b.goesThrough(later, "acct"))
      && ReceivedFor(LogAfter(b, ordinal, t => true, t, k), t, "acct") == 0
      && ReceivedInAll(LogAfter(b, ordinal, t => true, t, k), "acct") <
           SharesInAll(b, LoopAfter(ordinal, t => true, t, k).paid, "acct")
  {
    var b, t, ok := OneFailure(), PAYOUT_HOUR * HOUR, (t: int) => true;
    FirstTickPays(ordinal, k);
    EightyCentsAreDue();
    EachWindowIs(b, ordinal, ok, t, k, t, "acct");
    TotalIff(b, ordinal, ok, t, k, "acct");
  }
}
