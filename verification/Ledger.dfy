/** The Postgres side: wallets, transactions, deposits and withdrawals, with the constraints of the
    schema, and the idempotent statements of the ledger consumer.

    The functions insert events one at a time; `LedgerDb.BatchInsertBets` is the grouped bulk
    statement the consumer really sends, proved to have the same effect. */
module Ledger {
  import opened Domain
  import Redis
  import opened Totals

  datatype Db = Db(
    wallets: map<Wallet, int>,
    transactions: map<BetId, BetEvent>,
    deposits: map<TxHash, DepositEvent>,
    withdrawals: map<WithdrawalId, WithdrawalEvent>)

  function Pnl(ev: BetEvent): int { ev.payout - ev.wager }

  // The CHECK constraints of a transactions row.
  predicate RowOk(ev: BetEvent)
  {
    0 < ev.wager && 0 <= ev.payout && 1 <= ev.result <= 100 && 0 <= ev.nonce
  }

  predicate RowsOk(evs: seq<BetEvent>) { forall i :: 0 <= i < |evs| ==> RowOk(evs[i]) }

  predicate NonNegative(wallets: map<Wallet, int>) { forall w :: w in wallets ==> 0 <= wallets[w] }

  // UPDATE wallets SET balance = balance + amount WHERE the row is w: no row, no effect.
  function AddTo(wallets: map<Wallet, int>, w: Wallet, amount: int): map<Wallet, int>
  {
    if w in wallets then wallets[w := wallets[w] + amount] else wallets
  }

  // One bet: ON CONFLICT (bet_id) DO NOTHING, else the row and its P&L.
  function InsertBet(db: Db, ev: BetEvent): Db
  {
    if ev.id in db.transactions then db
    else db.(transactions := db.transactions[ev.id := ev],
             wallets := AddTo(db.wallets, ev.wallet, Pnl(ev)))
  }

  function InsertBets(db: Db, evs: seq<BetEvent>): Db
    decreases |evs|
  {
    if evs == [] then db
    else InsertBet(InsertBets(db, evs[..|evs| - 1]), evs[|evs| - 1])
  }

  // The transaction as a whole: everything, or (a constraint tripped) nothing.
  function ApplyBets(db: Db, evs: seq<BetEvent>): Option<Db>
  {
    if evs == [] then Some(db)
    else if RowsOk(evs) && NonNegative(InsertBets(db, evs).wallets) then Some(InsertBets(db, evs))
    else None
  }

  predicate DepositIdUsed(db: Db, id: DepositId)
  {
    exists h :: h in db.deposits && db.deposits[h].id == id
  }

  predicate PaidHash(db: Db, tx: TxHash)
  {
    exists i :: i in db.withdrawals && db.withdrawals[i].tx == tx
  }

  function ApplyDeposit(db: Db, ev: DepositEvent): Option<Db>
  {
    if ev.amount <= 0 then None
    else if ev.tx in db.deposits then Some(db)
    else if DepositIdUsed(db, ev.id) then None
    else Some(db.(deposits := db.deposits[ev.tx := ev], wallets := AddTo(db.wallets, ev.wallet, ev.amount)))
  }

  // The arbiter of ON CONFLICT is tx_hash only: a second hash for a known withdrawal_id is an error.
  function ApplyWithdrawal(db: Db, ev: WithdrawalEvent): Option<Db>
  {
    if ev.amount <= 0 then None
    else if PaidHash(db, ev.tx) then Some(db)
    else if ev.id in db.withdrawals then None
    else if ev.wallet in db.wallets && db.wallets[ev.wallet] < ev.amount then None
    else Some(db.(withdrawals := db.withdrawals[ev.id := ev], wallets := AddTo(db.wallets, ev.wallet, -ev.amount)))
  }

  // ----- The canonical balance -----

  // The share of a row that counts for wallet w.
  ghost function BetShare(w: Wallet): (BetId, BetEvent) -> int
  {
    (k: BetId, ev: BetEvent) => if ev.wallet == w then Pnl(ev) else 0
  }

  ghost function DepositShare(w: Wallet): (TxHash, DepositEvent) -> int
  {
    (k: TxHash, ev: DepositEvent) => if ev.wallet == w then ev.amount else 0
  }

  ghost function WithdrawalShare(w: Wallet): (WithdrawalId, WithdrawalEvent) -> int
  {
    (k: WithdrawalId, ev: WithdrawalEvent) => if ev.wallet == w then ev.amount else 0
  }

  // deposits - withdrawals - wagers + payouts of one wallet, over the three tables.
  ghost function Formula(db: Db, w: Wallet): int
  {
    Total(db.deposits, DepositShare(w)) - Total(db.withdrawals, WithdrawalShare(w))
    + Total(db.transactions, BetShare(w))
  }

  predicate IsEth(w: Wallet) { w.chain == Ethereum && w.currency == ETH }

  // GREATEST(0, default + formula) for every ethereum/ETH wallet.
  ghost function Recompute(db: Db, initial: int): Db
  {
    db.(wallets := map w | w in db.wallets ::
                     if IsEth(w) then Max(0, initial + Formula(db, w)) else db.wallets[w])
  }

  function DropEthereum(db: Db): Db
  {
    db.(deposits := map h | h in db.deposits && db.deposits[h].wallet.chain != Ethereum :: db.deposits[h],
        withdrawals := map i | i in db.withdrawals && db.withdrawals[i].wallet.chain != Ethereum :: db.withdrawals[i])
  }

  // purgeStaleChainData, once a chain reset was detected.
  ghost function Purge(db: Db, initial: int): Db
  {
    Recompute(DropEthereum(db), initial)
  }

  // SELECT SUM(amount) ... GROUP BY owner.
  ghost function GroupShare<K, V>(w: Wallet, owner: V -> Wallet, amount: V -> int): (K, V) -> int
  {
    (k: K, v: V) => if owner(v) == w then amount(v) else 0
  }

  lemma ShareRemoved<K, V>(rows: map<K, V>, k: K, owner: V -> Wallet, amount: V -> int)
    requires k in rows
    ensures forall w :: Total(rows, GroupShare(w, owner, amount))
                     == (if owner(rows[k]) == w then amount(rows[k]) else 0) + Total(rows - {k}, GroupShare(w, owner, amount))
  {
    forall w {
      TotalRemove(rows, k, GroupShare(w, owner, amount));
    }
  }

  method GroupSum<K(==), V>(rows: map<K, V>, owner: V -> Wallet, amount: V -> int) returns (sums: map<Wallet, int>)
    ensures forall w :: (if w in sums then sums[w] else 0) == Total(rows, GroupShare(w, owner, amount))
  {
    sums := map[];
    var todo := rows;
    while todo != map[]
      invariant forall w :: (if w in sums then sums[w] else 0) + Total(todo, GroupShare(w, owner, amount))
                         == Total(rows, GroupShare(w, owner, amount))
      decreases |todo|
    {
      var k :| k in todo;
      var o := owner(todo[k]);
      ShareRemoved(todo, k, owner, amount);
      sums := sums[o := (if o in sums then sums[o] else 0) + amount(todo[k])];
      todo := todo - {k};
    }
  }

  // The deposit_totals, withdrawal_totals and bet_totals of the recompute statement.
  method FormulaByWallet(db: Db) returns (d: map<Wallet, int>, x: map<Wallet, int>, b: map<Wallet, int>)
    ensures forall w :: (if w in d then d[w] else 0) - (if w in x then x[w] else 0) + (if w in b then b[w] else 0)
                     == Formula(db, w)
  {
    var depositOwner, depositAmount := (ev: DepositEvent) => ev.wallet, (ev: DepositEvent) => ev.amount;
    var withdrawalOwner, withdrawalAmount := (ev: WithdrawalEvent) => ev.wallet, (ev: WithdrawalEvent) => ev.amount;
    var betOwner, betAmount := (ev: BetEvent) => ev.wallet, (ev: BetEvent) => Pnl(ev);
    d := GroupSum(db.deposits, depositOwner, depositAmount);
    x := GroupSum(db.withdrawals, withdrawalOwner, withdrawalAmount);
    b := GroupSum(db.transactions, betOwner, betAmount);
    forall w
      ensures (if w in d then d[w] else 0) - (if w in x then x[w] else 0) + (if w in b then b[w] else 0) == Formula(db, w)
    {
      TotalRestrict(db.deposits, GroupShare(w, depositOwner, depositAmount), db.deposits, DepositShare(w));
      TotalRestrict(db.withdrawals, GroupShare(w, withdrawalOwner, withdrawalAmount), db.withdrawals, WithdrawalShare(w));
      TotalRestrict(db.transactions, GroupShare(w, betOwner, betAmount), db.transactions, BetShare(w));
    }
  }

  // The wallets after the UPDATE of recomputeEthereumWalletBalances.
  method RecomputedWallets(db: Db, initial: int) returns (wallets: map<Wallet, int>)
    ensures wallets == Recompute(db, initial).wallets
  {
    hide Formula;
    var d, x, b := FormulaByWallet(db);
    wallets := map w | w in db.wallets ::
      if IsEth(w)
      then Max(0, initial + (if w in d then d[w] else 0) - (if w in x then x[w] else 0) + (if w in b then b[w] else 0))
      else db.wallets[w];
    forall w | w in db.wallets
      ensures wallets[w] == Recompute(db, initial).wallets[w]
    {
      assert IsEth(w) ==> wallets[w] == Max(0, initial + Formula(db, w));
    }
  }

  // What can go wrong around a statement that the constraints accept: it is not executed, or it is
  // executed and only its acknowledgement is lost. Either way the handler sees an exception.
  datatype Fault = NoFault | Refused | AckLost

  class LedgerDb {
    var wallets: map<Wallet, int>
    var transactions: map<BetId, BetEvent>
    var deposits: map<TxHash, DepositEvent>
    var withdrawals: map<WithdrawalId, WithdrawalEvent>

    constructor (wallets: map<Wallet, int>)
      requires NonNegative(wallets)
      ensures State() == Db(wallets, map[], map[], map[]) && Valid()
    {
      this.wallets := wallets;
      transactions, deposits, withdrawals := map[], map[], map[];
    }

    function State(): Db
      reads this
    {
      Db(wallets, transactions, deposits, withdrawals)
    }

    predicate Valid()
      reads this
    {
      NonNegative(wallets)
    }

    // The `inserted` and `pnl_by_wallet` parts of the bulk statement: all new rows, and their P&L
    // summed per wallet. No balance changes yet.
    method InsertRows(events: seq<BetEvent>) returns (rowsOk: bool, net: map<Wallet, int>)
      modifies this`transactions
      ensures rowsOk <==> RowsOk(events)
      ensures InsertBets(old(State()), events) == State().(wallets := Grouped(wallets, net))
    {
      hide Grouped, AddTo, Pnl, RowOk;
      ghost var db0 := State();
      net := map[];
      rowsOk := true;
      GroupedNothing(wallets);
      for i := 0 to |events|
        invariant rowsOk <==> RowsOk(events[..i])
        invariant InsertBets(db0, events[..i]) == State().(wallets := Grouped(wallets, net))
      {
        var ev := events[i];
        InsertNext(db0, events, i);
        rowsOk := rowsOk && RowOk(ev);
        GroupedAdd(wallets, net, ev.wallet, Pnl(ev));
        if ev.id !in transactions {
          transactions := transactions[ev.id := ev];
          net := net[ev.wallet := (if ev.wallet in net then net[ev.wallet] else 0) + Pnl(ev)];
        }
      }
      assert events[..|events|] == events;
    }

    // The bulk insert: all new rows first, then one UPDATE with the P&L summed per wallet.
    method BatchInsertBets(events: seq<BetEvent>, fault: Fault) returns (ok: bool)
      requires Valid()
      modifies this
      ensures Valid()
      ensures ok <==> ApplyBets(old(State()), events).Some? && (events == [] || fault == NoFault)
      ensures State() == if fault != Refused && ApplyBets(old(State()), events).Some?
                         then ApplyBets(old(State()), events).value else old(State())
    {
      if events == [] {
        return true;
      }
      if fault == Refused {
        return false;
      }
      var saved := transactions;
      var rowsOk, net := InsertRows(events);
      GroupedNegative(wallets, net);
      if !rowsOk || Overdrawn(wallets, net) {
        transactions := saved;
        return false;
      }
      wallets := Grouped(wallets, net);
      return fault == NoFault;
    }

    // The deposit row and its wallet credit are one statement; the Redis credit comes after it. The
    // connection is taken before the try block, so without one the handler throws.
    method ProcessDepositReceived(ev: DepositEvent, redis: Redis.RedisStore, connects: bool, fault: Fault,
                                  redisFails: bool, publishFails: bool) returns (threw: bool, ok: bool, skew: bool)
      requires Valid()
      modifies this, redis
      ensures Valid()
      ensures threw <==> !connects
      ensures State() == if connects && fault != Refused && ApplyDeposit(old(State()), ev).Some?
                         then ApplyDeposit(old(State()), ev).value else old(State())
      ensures var credited := connects && fault == NoFault && !redisFails && NewDeposit(old(State()), ev) && ev.wallet in old(wallets);
        && redis.OnlyTouches(ev.wallet) && (ev.wallet in old(redis.balance) ==> ev.wallet in redis.balance)
        && (!credited ==> redis.Acct(ev.wallet) == old(redis.Acct(ev.wallet)) && !skew)
        && (credited && ev.wallet in old(redis.balance) ==>
              redis.Acct(ev.wallet) == Redis.Credit(old(redis.Acct(ev.wallet)), ev.amount))
        && (credited && ev.wallet !in old(redis.balance) ==>
              redis.Acct(ev.wallet) == old(redis.Acct(ev.wallet)).(balance := wallets[ev.wallet]))
        && (credited ==> (skew <==> SkewFires(redis.Acct(ev.wallet).balance, wallets[ev.wallet])))
        && (ok <==> (connects && fault == NoFault && ApplyDeposit(old(State()), ev).Some?
                     && (NewDeposit(old(State()), ev) && ev.wallet in old(wallets) ==> !redisFails && !publishFails)))
    {
      threw, ok, skew := false, false, false;
      if !connects {
        threw := true;
        return;
      }
      if fault == Refused || ev.amount <= 0 {
        return;
      }
      var inserted := ev.tx !in deposits;
      if inserted {
        if exists h :: h in deposits && deposits[h].id == ev.id {
          return;
        }
        deposits := deposits[ev.tx := ev];
        wallets := AddTo(wallets, ev.wallet, ev.amount);
      }
      if fault == AckLost {
        return;
      }
      if !inserted || ev.wallet !in wallets {
        ok := true; // rowCount = 0
        return;
      }
      var pgNewBalance := wallets[ev.wallet];
      if redisFails {
        return;
      }
      var redisBal := redis.DepositCredit(ev.wallet, ev.amount, pgNewBalance);
      skew := SkewFires(redisBal, pgNewBalance);
      ok := !publishFails;
    }

    method ProcessWithdrawalCompleted(ev: WithdrawalEvent, connects: bool, fault: Fault, publishFails: bool)
      returns (threw: bool, ok: bool)
      requires Valid()
      modifies this
      ensures Valid()
      ensures threw <==> !connects
      ensures State() == if connects && fault != Refused && ApplyWithdrawal(old(State()), ev).Some?
                         then ApplyWithdrawal(old(State()), ev).value else old(State())
      ensures ok <==> connects && fault == NoFault && ApplyWithdrawal(old(State()), ev).Some?
                      && (!PaidHash(old(State()), ev.tx) && ev.wallet in old(wallets) ==> !publishFails)
    {
      if !connects {
        return true, false;
      }
      if fault == Refused || ev.amount <= 0 {
        return false, false;
      }
      var inserted := !exists i :: i in withdrawals && withdrawals[i].tx == ev.tx;
      if inserted {
        if ev.id in withdrawals || (ev.wallet in wallets && wallets[ev.wallet] < ev.amount) {
          return false, false;
        }
        withdrawals := withdrawals[ev.id := ev];
        wallets := AddTo(wallets, ev.wallet, -ev.amount);
      }
      if fault == AckLost {
        return false, false;
      }
      if !inserted || ev.wallet !in wallets {
        return false, true; // rowCount = 0
      }
      return false, !publishFails;
    }

    // One transaction: delete the old chain's rows, then rebuild the ETH balances from what is left.
    method PurgeStaleChainData(initial: int, fault: Fault) returns (ok: bool)
      modifies this
      ensures ok <==> fault == NoFault
      ensures State() == if fault == Refused then old(State()) else Purge(old(State()), initial)
    {
      if fault == Refused {
        return false;
      }
      var kept := DropEthereum(State());
      deposits, withdrawals := kept.deposits, kept.withdrawals;
      wallets := RecomputedWallets(kept, initial);
      return fault == NoFault;
    }
  }

  predicate NewDeposit(db: Db, ev: DepositEvent)
  {
    0 < ev.amount && ev.tx !in db.deposits && !DepositIdUsed(db, ev.id)
  }

  // The skew alarm: the two available balances differ by more than 1e-8.
  predicate SkewFires(redisBalance: int, pgBalance: int)
  {
    GATEWAY_UNIT < redisBalance - pgBalance || GATEWAY_UNIT < pgBalance - redisBalance
  }

  lemma InsertNext(db: Db, evs: seq<BetEvent>, i: nat)
    requires i < |evs|
    ensures InsertBets(db, evs[..i + 1]) == InsertBet(InsertBets(db, evs[..i]), evs[i])
    ensures RowsOk(evs[..i + 1]) <==> RowsOk(evs[..i]) && RowOk(evs[i])
  {
    assert evs[..i + 1][..i] == evs[..i] && evs[..i + 1][i] == evs[i];
    assert forall k :: 0 <= k < i ==> evs[..i + 1][k] == evs[..i][k];
  }

  // UPDATE wallets FROM pnl_by_wallet.
  function Grouped(wallets: map<Wallet, int>, net: map<Wallet, int>): map<Wallet, int>
  {
    map w | w in wallets :: wallets[w] + (if w in net then net[w] else 0)
  }

  // The balance CHECK on the rows that the UPDATE touches.
  predicate Overdrawn(wallets: map<Wallet, int>, net: map<Wallet, int>)
  {
    exists w :: w in net && w in wallets && wallets[w] + net[w] < 0
  }

  lemma GroupedNegative(wallets: map<Wallet, int>, net: map<Wallet, int>)
    requires NonNegative(wallets)
    ensures NonNegative(Grouped(wallets, net)) <==> !Overdrawn(wallets, net)
  {
    if w :| w in net && w in wallets && wallets[w] + net[w] < 0 {
      assert Grouped(wallets, net)[w] < 0;
    }
  }

  lemma GroupedNothing(wallets: map<Wallet, int>)
    ensures Grouped(wallets, map[]) == wallets
  {
  }

  lemma GroupedAdd(wallets: map<Wallet, int>, net: map<Wallet, int>, w: Wallet, amount: int)
    ensures Grouped(wallets, net[w := (if w in net then net[w] else 0) + amount])
         == AddTo(Grouped(wallets, net), w, amount)
  {
  }
}
