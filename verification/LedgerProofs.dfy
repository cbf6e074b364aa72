/** What the ledger guarantees over any stream of events: the incremental balances are the canonical
    formula, the order, grouping and repetition of events do not matter, and nothing is debited twice. */
module LedgerProofs {
  import opened Domain
  import opened Totals
  import opened Ledger

  // A delivery to the ledger consumer, or a purge by the chain listener.
  datatype Op = Bets(evs: seq<BetEvent>) | Deposit(dep: DepositEvent) | Withdrawal(wd: WithdrawalEvent) | Reset

  ghost function Try(db: Db, op: Op, initial: int): Option<Db>
  {
    match op
    case Bets(evs) => ApplyBets(db, evs)
    case Deposit(ev) => ApplyDeposit(db, ev)
    case Withdrawal(ev) => ApplyWithdrawal(db, ev)
    case Reset => Some(Purge(db, initial))
  }

  // A failing statement is rolled back.
  ghost function Apply(db: Db, op: Op, initial: int): Db
  {
    var r := Try(db, op, initial);
    if r.Some? then r.value else db
  }

  ghost function Run(db: Db, ops: seq<Op>, initial: int): Db
    decreases |ops|
  {
    if ops == [] then db else Run(Apply(db, ops[0], initial), ops[1..], initial)
  }

  predicate NoReset(ops: seq<Op>) { forall i :: 0 <= i < |ops| ==> !ops[i].Reset? }

  // ----- Incremental balances refine the canonical formula -----

  lemma InsertBetFormula(db: Db, ev: BetEvent, w: Wallet)
    requires w in db.wallets
    ensures InsertBet(db, ev).wallets.Keys == db.wallets.Keys
    ensures InsertBet(db, ev).wallets[w] - Formula(InsertBet(db, ev), w) == db.wallets[w] - Formula(db, w)
  {
    TotalUpdate(db.transactions, ev.id, ev, BetShare(w));
  }

  lemma {:induction false} InsertBetsFormula(db: Db, evs: seq<BetEvent>, w: Wallet)
    requires w in db.wallets
    ensures InsertBets(db, evs).wallets.Keys == db.wallets.Keys
    ensures InsertBets(db, evs).wallets[w] - Formula(InsertBets(db, evs), w) == db.wallets[w] - Formula(db, w)
    decreases |evs|
  {
    if evs != [] {
      var before := InsertBets(db, evs[..|evs| - 1]);
      InsertBetsFormula(db, evs[..|evs| - 1], w);
      InsertBetFormula(before, evs[|evs| - 1], w);
    }
  }

  // Between purges every statement, accepted or refused, keeps balance - formula.
  lemma ApplyFormula(db: Db, op: Op, initial: int, w: Wallet)
    requires w in db.wallets && !op.Reset?
    ensures Apply(db, op, initial).wallets.Keys == db.wallets.Keys
    ensures Apply(db, op, initial).wallets[w] - Formula(Apply(db, op, initial), w) == db.wallets[w] - Formula(db, w)
  {
    match op
    case Bets(evs) => InsertBetsFormula(db, evs, w);
    case Deposit(ev) => TotalUpdate(db.deposits, ev.tx, ev, DepositShare(w));
    case Withdrawal(ev) => TotalUpdate(db.withdrawals, ev.id, ev, WithdrawalShare(w));
  }

  lemma {:induction false} RunFormula(db: Db, ops: seq<Op>, initial: int, w: Wallet)
    requires w in db.wallets && NoReset(ops)
    ensures Run(db, ops, initial).wallets.Keys == db.wallets.Keys
    ensures Run(db, ops, initial).wallets[w] - Formula(Run(db, ops, initial), w) == db.wallets[w] - Formula(db, w)
    decreases |ops|
  {
    if ops != [] {
      assert !ops[0].Reset?;
      ApplyFormula(db, ops[0], initial, w);
      RunFormula(Apply(db, ops[0], initial), ops[1..], initial, w);
    }
  }

  lemma ApplyNonNegative(db: Db, op: Op, initial: int)
    requires NonNegative(db.wallets)
    ensures NonNegative(Apply(db, op, initial).wallets)
  {
  }

  lemma {:induction false} RunNonNegative(db: Db, ops: seq<Op>, initial: int)
    requires NonNegative(db.wallets)
    ensures NonNegative(Run(db, ops, initial).wallets)
    decreases |ops|
  {
    if ops != [] {
      ApplyNonNegative(db, ops[0], initial);
      RunNonNegative(Apply(db, ops[0], initial), ops[1..], initial);
    }
  }

  // How far the stored balance lies above the canonical formula.
  ghost function Surplus(db: Db, initial: int, w: Wallet): int
    requires w in db.wallets
  {
    db.wallets[w] - (initial + Formula(db, w))
  }

  // Recomputing changes nothing exactly when the balance is canonical, or is 0 where the formula is negative.
  lemma RecomputeNoOp(db: Db, initial: int, w: Wallet)
    requires w in db.wallets && IsEth(w) && 0 <= db.wallets[w]
    ensures Recompute(db, initial).wallets[w] == db.wallets[w]
       <==> Surplus(db, initial, w) == 0 || (db.wallets[w] == 0 && 0 <= Surplus(db, initial, w))
  {
  }

  // What a purge does to the surplus. An ETH balance is rebuilt, and its surplus becomes what
  // GREATEST(0, ...) had to add; other chains are not touched. On Ethereum in another currency the
  // rows go and the balance stays, so the surplus moves by what those rows stood for.
  lemma PurgeSurplus(db: Db, initial: int, base: int, w: Wallet)
    requires w in db.wallets && (IsEth(w) ==> base == initial)
    ensures var purged := Purge(db, initial);
      && purged.wallets.Keys == db.wallets.Keys
      && Surplus(purged, base, w) ==
           if IsEth(w) then Max(0, -(base + Total(db.transactions, BetShare(w))))
           else if w.chain != Ethereum then Surplus(db, base, w)
           else Surplus(db, base, w) + Total(db.deposits, DepositShare(w)) - Total(db.withdrawals, WithdrawalShare(w))
  {
    var kept := DropEthereum(db);
    assert Formula(Purge(db, initial), w) == Formula(kept, w);
    DroppedTotals(db, w);
  }

  lemma DroppedTotals(db: Db, w: Wallet)
    ensures var kept := DropEthereum(db);
      && Total(kept.deposits, DepositShare(w)) == (if w.chain == Ethereum then 0 else Total(db.deposits, DepositShare(w)))
      && Total(kept.withdrawals, WithdrawalShare(w))
           == (if w.chain == Ethereum then 0 else Total(db.withdrawals, WithdrawalShare(w)))
  {
    var kept := DropEthereum(db);
    if w.chain == Ethereum {
      TotalZero(kept.deposits, DepositShare(w));
      TotalZero(kept.withdrawals, WithdrawalShare(w));
    } else {
      TotalRestrict(kept.deposits, DepositShare(w), db.deposits, DepositShare(w));
      TotalRestrict(kept.withdrawals, WithdrawalShare(w), db.withdrawals, WithdrawalShare(w));
    }
  }

  // Without a purge the incremental balance is the recomputed one, so the recompute is a no-op.
  lemma IncrementalIsCanonical(wallets: map<Wallet, int>, ops: seq<Op>, initial: int, w: Wallet)
    requires NonNegative(wallets) && w in wallets && wallets[w] == initial && NoReset(ops)
    ensures var db := Run(Db(wallets, map[], map[], map[]), ops, initial);
      && w in db.wallets
      && db.wallets[w] == initial + Formula(db, w)
      && Recompute(db, initial).wallets[w] == db.wallets[w]
  {
    var db0 := Db(wallets, map[], map[], map[]);
    RunFormula(db0, ops, initial, w);
    RunNonNegative(db0, ops, initial);
  }

  // With purges, on every wallet that a purge rebuilds or leaves alone: never below the formula, and
  // a constant between purges.
  lemma {:induction false} SurplusOverRuns(db: Db, ops: seq<Op>, initial: int, base: int, w: Wallet)
    requires w in db.wallets && 0 <= Surplus(db, base, w)
    requires w.chain != Ethereum || (w.currency == ETH && base == initial)
    ensures w in Run(db, ops, initial).wallets
    ensures 0 <= Surplus(Run(db, ops, initial), base, w)
    ensures w.chain != Ethereum || NoReset(ops) ==> Surplus(Run(db, ops, initial), base, w) == Surplus(db, base, w)
    decreases |ops|
  {
    if ops != [] {
      var next := Apply(db, ops[0], initial);
      if ops[0].Reset? {
        PurgeSurplus(db, initial, base, w);
      } else {
        ApplyFormula(db, ops[0], initial, w);
      }
      SurplusOverRuns(next, ops[1..], initial, base, w);
      assert NoReset(ops) ==> NoReset(ops[1..]);
    }
  }

  // Deposits minus withdrawals of w that the purges of a run delete.
  ghost function Purged(db: Db, ops: seq<Op>, initial: int, w: Wallet): int
    decreases |ops|
  {
    if ops == [] then 0
    else
      (if ops[0].Reset? then Total(db.deposits, DepositShare(w)) - Total(db.withdrawals, WithdrawalShare(w)) else 0)
      + Purged(Apply(db, ops[0], initial), ops[1..], initial, w)
  }

  // On the remaining wallets the surplus drifts by exactly what was purged, so it turns negative
  // when more withdrawals than deposits are.
  lemma {:induction false} SurplusDrifts(db: Db, ops: seq<Op>, initial: int, base: int, w: Wallet)
    requires w in db.wallets && w.chain == Ethereum && w.currency != ETH
    ensures w in Run(db, ops, initial).wallets
    ensures Surplus(Run(db, ops, initial), base, w) == Surplus(db, base, w) + Purged(db, ops, initial, w)
    decreases |ops|
  {
    if ops != [] {
      if ops[0].Reset? {
        PurgeSurplus(db, initial, base, w);
      } else {
        ApplyFormula(db, ops[0], initial, w);
      }
      SurplusDrifts(Apply(db, ops[0], initial), ops[1..], initial, base, w);
    }
  }

  // Such a wallet: a deposit of 5, a win of 10 and a withdrawal of 12.
  function UsdcOps(w: Wallet): seq<Op>
  {
    [Deposit(DepositEvent(1, w, 5, 7, 0)), Bets([BetEvent(1, w, 1, 11, 50, 1)]), Withdrawal(WithdrawalEvent(1, w, 12, 8))]
  }

  lemma UsdcTables(w: Wallet, initial: int)
    ensures Run(Db(map[w := 0], map[], map[], map[]), UsdcOps(w), initial)
         == Db(map[w := 3], map[1 := BetEvent(1, w, 1, 11, 50, 1)], map[7 := DepositEvent(1, w, 5, 7, 0)],
               map[1 := WithdrawalEvent(1, w, 12, 8)])
  {
    var d, ev, x := DepositEvent(1, w, 5, 7, 0), BetEvent(1, w, 1, 11, 50, 1), WithdrawalEvent(1, w, 12, 8);
    var db0 := Db(map[w := 0], map[], map[], map[]);
    var db1 := Db(map[w := 5], map[], map[7 := d], map[]);
    var db2 := Db(map[w := 15], map[1 := ev], map[7 := d], map[]);
    assert Apply(db0, Deposit(d), initial) == db1;
    assert InsertBets(db1, [ev][..0]) == db1;
    assert Apply(db1, Bets([ev]), initial) == db2;
    RunThree(db0, Deposit(d), Bets([ev]), Withdrawal(x), initial);
  }

  // The purge then leaves a balance of 3 where the formula says 10.
  lemma PurgeBelowFormula(user: UserId, initial: int)
    ensures var w := Wallet(user, Ethereum, USDC);
      var db := Run(Db(map[w := 0], map[], map[], map[]), UsdcOps(w), initial);
      && w in db.wallets && db.wallets[w] == 3 && Surplus(db, 0, w) == 0
      && w in Purge(db, initial).wallets && Purge(db, initial).wallets[w] == 3
      && Surplus(Purge(db, initial), 0, w) == -7
  {
    var w := Wallet(user, Ethereum, USDC);
    var db0 := Db(map[w := 0], map[], map[], map[]);
    var db := Run(db0, UsdcOps(w), initial);
    UsdcTables(w, initial);
    RunFormula(db0, UsdcOps(w), initial, w);
    hide Run, UsdcOps;
    TotalUpdate(db0.deposits, 7, db.deposits[7], DepositShare(w));
    TotalUpdate(db0.withdrawals, 1, db.withdrawals[1], WithdrawalShare(w));
    PurgeSurplus(db, initial, 0, w);
  }

  // ----- Confluence -----

  // A table after a stream: the old rows as they were, and one row for every key the stream mentions.
  ghost predicate Extends<K, V>(after: map<K, V>, before: map<K, V>, events: set<(K, V)>)
  {
    && (forall k :: k in before ==> k in after && after[k] == before[k])
    && (forall e :: e in events ==> e.0 in after)
    && (forall k :: k in after ==> k in before || (k, after[k]) in events)
  }

  // Equal keys carry equal events.
  ghost predicate Functional<K, V>(events: set<(K, V)>)
  {
    forall d, e :: d in events && e in events && d.0 == e.0 ==> d == e
  }

  lemma ExtendsUnique<K, V>(t1: map<K, V>, t2: map<K, V>, before: map<K, V>, events: set<(K, V)>)
    requires Functional(events)
    requires Extends(t1, before, events) && Extends(t2, before, events)
    ensures t1 == t2
  {
    forall k | k in t1
      ensures k in t2 && t1[k] == t2[k]
    {
      if k !in before {
        assert (k, t1[k]) in events;
        assert (k, t2[k]) in events;
      }
    }
    forall k | k in t2
      ensures k in t1
    {
      if k !in before {
        assert (k, t2[k]) in events;
      }
    }
  }

  lemma ExtendsTwice<K, V>(t2: map<K, V>, t1: map<K, V>, t0: map<K, V>, e1: set<(K, V)>, e2: set<(K, V)>)
    requires Extends(t1, t0, e1) && Extends(t2, t1, e2)
    ensures Extends(t2, t0, e1 + e2)
  {
  }

  function BetPairs(op: Op): set<(BetId, BetEvent)>
  {
    if op.Bets? then set ev | ev in op.evs :: (ev.id, ev) else {}
  }

  // A deposit is known by its hash; a rescan may publish it again under a new deposit_id.
  function DepositPairs(op: Op): set<(TxHash, (Wallet, int))>
  {
    if op.Deposit? then {(op.dep.tx, (op.dep.wallet, op.dep.amount))} else {}
  }

  function WithdrawalPairs(op: Op): set<(WithdrawalId, WithdrawalEvent)>
  {
    if op.Withdrawal? then {(op.wd.id, op.wd)} else {}
  }

  function AllBets(ops: seq<Op>): set<(BetId, BetEvent)>
  {
    if ops == [] then {} else BetPairs(ops[0]) + AllBets(ops[1..])
  }

  function AllDeposits(ops: seq<Op>): set<(TxHash, (Wallet, int))>
  {
    if ops == [] then {} else DepositPairs(ops[0]) + AllDeposits(ops[1..])
  }

  function AllWithdrawals(ops: seq<Op>): set<(WithdrawalId, WithdrawalEvent)>
  {
    if ops == [] then {} else WithdrawalPairs(ops[0]) + AllWithdrawals(ops[1..])
  }

  function Credits(deposits: map<TxHash, DepositEvent>): map<TxHash, (Wallet, int)>
  {
    map h | h in deposits :: (deposits[h].wallet, deposits[h].amount)
  }

  function Rows(withdrawals: map<WithdrawalId, WithdrawalEvent>): set<(WithdrawalId, WithdrawalEvent)>
  {
    set i | i in withdrawals :: (i, withdrawals[i])
  }

  // Neither two withdrawals under one hash nor two hashes for one withdrawal.
  ghost predicate OneHashEach(events: set<(WithdrawalId, WithdrawalEvent)>)
  {
    forall d, e :: d in events && e in events && (d.0 == e.0 || d.1.tx == e.1.tx) ==> d == e
  }

  // No statement of the stream trips a constraint.
  ghost predicate Accepted(db: Db, ops: seq<Op>, initial: int)
    decreases |ops|
  {
    ops == [] || (!ops[0].Reset? && Try(db, ops[0], initial).Some? && Accepted(Apply(db, ops[0], initial), ops[1..], initial))
  }

  lemma {:induction false} InsertBetsExtends(db: Db, evs: seq<BetEvent>)
    ensures Extends(InsertBets(db, evs).transactions, db.transactions, set ev | ev in evs :: (ev.id, ev))
    ensures InsertBets(db, evs).deposits == db.deposits && InsertBets(db, evs).withdrawals == db.withdrawals
    decreases |evs|
  {
    if evs != [] {
      var front, last := evs[..|evs| - 1], evs[|evs| - 1];
      InsertBetsExtends(db, front);
      assert evs == front + [last];
      var one := {(last.id, last)};
      assert Extends(InsertBets(db, evs).transactions, InsertBets(db, front).transactions, one);
      ExtendsTwice(InsertBets(db, evs).transactions, InsertBets(db, front).transactions, db.transactions,
                   set ev | ev in front :: (ev.id, ev), one);
      assert (set ev | ev in evs :: (ev.id, ev)) == (set ev | ev in front :: (ev.id, ev)) + one;
    }
  }

  lemma ApplyExtends(db: Db, op: Op, initial: int)
    requires !op.Reset? && Try(db, op, initial).Some?
    ensures Extends(Apply(db, op, initial).transactions, db.transactions, BetPairs(op))
    ensures Extends(Credits(Apply(db, op, initial).deposits), Credits(db.deposits), DepositPairs(op))
  {
    if op.Bets? {
      InsertBetsExtends(db, op.evs);
    }
  }

  lemma ApplyExtendsWithdrawals(db: Db, op: Op, initial: int)
    requires !op.Reset? && Try(db, op, initial).Some?
    requires OneHashEach(Rows(db.withdrawals) + WithdrawalPairs(op))
    ensures Extends(Apply(db, op, initial).withdrawals, db.withdrawals, WithdrawalPairs(op))
    ensures Rows(Apply(db, op, initial).withdrawals) <= Rows(db.withdrawals) + WithdrawalPairs(op)
  {
    match op
    case Bets(evs) => InsertBetsExtends(db, evs);
    case Deposit(_) =>
    case Withdrawal(ev) =>
      if PaidHash(db, ev.tx) {
        var i :| i in db.withdrawals && db.withdrawals[i].tx == ev.tx;
        assert (i, db.withdrawals[i]) in Rows(db.withdrawals);
        assert (ev.id, ev) in WithdrawalPairs(op);
      }
  }

  // The tables after an accepted stream depend on the set of its events only.
  lemma {:induction false} RunExtends(db: Db, ops: seq<Op>, initial: int)
    requires Accepted(db, ops, initial)
    requires OneHashEach(Rows(db.withdrawals) + AllWithdrawals(ops))
    ensures var last := Run(db, ops, initial);
      && Extends(last.transactions, db.transactions, AllBets(ops))
      && Extends(Credits(last.deposits), Credits(db.deposits), AllDeposits(ops))
      && Extends(last.withdrawals, db.withdrawals, AllWithdrawals(ops))
    decreases |ops|
  {
    if ops != [] {
      var next, last := Apply(db, ops[0], initial), Run(db, ops, initial);
      ApplyExtends(db, ops[0], initial);
      ApplyExtendsWithdrawals(db, ops[0], initial);
      RunExtends(next, ops[1..], initial);
      ExtendsTwice(last.transactions, next.transactions, db.transactions, BetPairs(ops[0]), AllBets(ops[1..]));
      ExtendsTwice(Credits(last.deposits), Credits(next.deposits), Credits(db.deposits),
                   DepositPairs(ops[0]), AllDeposits(ops[1..]));
      ExtendsTwice(last.withdrawals, next.withdrawals, db.withdrawals, WithdrawalPairs(ops[0]), AllWithdrawals(ops[1..]));
    }
  }

  lemma {:induction false} AcceptedHasNoReset(db: Db, ops: seq<Op>, initial: int)
    requires Accepted(db, ops, initial)
    ensures NoReset(ops)
    decreases |ops|
  {
    if ops != [] {
      AcceptedHasNoReset(Apply(db, ops[0], initial), ops[1..], initial);
    }
  }

  // The formula does not look at deposit ids.
  lemma SameFormula(db1: Db, db2: Db, w: Wallet)
    requires db1.transactions == db2.transactions && db1.withdrawals == db2.withdrawals
    requires Credits(db1.deposits) == Credits(db2.deposits)
    ensures Formula(db1, w) == Formula(db2, w)
  {
    var share := (h: TxHash, c: (Wallet, int)) => if c.0 == w then c.1 else 0;
    TotalRestrict(db1.deposits, DepositShare(w), Credits(db1.deposits), share);
    TotalRestrict(db2.deposits, DepositShare(w), Credits(db2.deposits), share);
  }

  ghost predicate SameTables(a: Db, b: Db)
  {
    a.transactions == b.transactions && a.withdrawals == b.withdrawals && Credits(a.deposits) == Credits(b.deposits)
  }

  lemma SameEventsSameTables(db: Db, ops1: seq<Op>, ops2: seq<Op>, initial: int)
    requires Accepted(db, ops1, initial) && Accepted(db, ops2, initial)
    requires AllBets(ops1) == AllBets(ops2) && Functional(AllBets(ops1))
    requires AllDeposits(ops1) == AllDeposits(ops2) && Functional(AllDeposits(ops1))
    requires AllWithdrawals(ops1) == AllWithdrawals(ops2) && OneHashEach(Rows(db.withdrawals) + AllWithdrawals(ops1))
    ensures SameTables(Run(db, ops1, initial), Run(db, ops2, initial))
  {
    var a, b := Run(db, ops1, initial), Run(db, ops2, initial);
    RunExtends(db, ops1, initial);
    RunExtends(db, ops2, initial);
    ExtendsUnique(a.transactions, b.transactions, db.transactions, AllBets(ops1));
    ExtendsUnique(Credits(a.deposits), Credits(b.deposits), Credits(db.deposits), AllDeposits(ops1));
    assert Functional(AllWithdrawals(ops1));
    ExtendsUnique(a.withdrawals, b.withdrawals, db.withdrawals, AllWithdrawals(ops1));
  }

  // The tables determine the balances.
  lemma SameTablesSameBalances(db: Db, ops1: seq<Op>, ops2: seq<Op>, initial: int)
    requires NoReset(ops1) && NoReset(ops2)
    requires SameTables(Run(db, ops1, initial), Run(db, ops2, initial))
    ensures Run(db, ops1, initial).wallets == Run(db, ops2, initial).wallets
  {
    var a, b := Run(db, ops1, initial), Run(db, ops2, initial);
    SameWalletKeys(db, ops1, initial);
    SameWalletKeys(db, ops2, initial);
    forall w | w in db.wallets
      ensures a.wallets[w] == b.wallets[w]
    {
      RunFormula(db, ops1, initial, w);
      RunFormula(db, ops2, initial, w);
      SameFormula(a, b, w);
    }
  }

  // Two accepted streams with the same distinct events, in any order, with any repetition and any
  // grouping into batches, end in the same tables and the same balances.
  lemma Confluence(db: Db, ops1: seq<Op>, ops2: seq<Op>, initial: int)
    requires Accepted(db, ops1, initial) && Accepted(db, ops2, initial)
    requires AllBets(ops1) == AllBets(ops2) && Functional(AllBets(ops1))
    requires AllDeposits(ops1) == AllDeposits(ops2) && Functional(AllDeposits(ops1))
    requires AllWithdrawals(ops1) == AllWithdrawals(ops2) && OneHashEach(Rows(db.withdrawals) + AllWithdrawals(ops1))
    ensures SameTables(Run(db, ops1, initial), Run(db, ops2, initial))
    ensures Run(db, ops1, initial).wallets == Run(db, ops2, initial).wallets
  {
    SameEventsSameTables(db, ops1, ops2, initial);
    AcceptedHasNoReset(db, ops1, initial);
    AcceptedHasNoReset(db, ops2, initial);
    SameTablesSameBalances(db, ops1, ops2, initial);
  }

  lemma {:induction false} InsertBetsWalletKeys(db: Db, evs: seq<BetEvent>)
    ensures InsertBets(db, evs).wallets.Keys == db.wallets.Keys
    decreases |evs|
  {
    if evs != [] {
      InsertBetsWalletKeys(db, evs[..|evs| - 1]);
    }
  }

  lemma {:induction false} SameWalletKeys(db: Db, ops: seq<Op>, initial: int)
    ensures Run(db, ops, initial).wallets.Keys == db.wallets.Keys
    decreases |ops|
  {
    if ops != [] {
      if ops[0].Bets? {
        InsertBetsWalletKeys(db, ops[0].evs);
      }
      SameWalletKeys(Apply(db, ops[0], initial), ops[1..], initial);
    }
  }

  // The condition is needed: a withdrawal delivered before the deposit that covers it is refused,
  // and the two orders then end with different balances.
  lemma OrderMattersWhenRefused(w: Wallet, initial: int)
    ensures var db := Db(map[w := 0], map[], map[], map[]);
      var d, x := Deposit(DepositEvent(1, w, 5, 7, 0)), Withdrawal(WithdrawalEvent(1, w, 5, 8));
      && Run(db, [d, x], initial).wallets == map[w := 0]
      && Run(db, [x, d], initial).wallets == map[w := 5]
  {
    var db := Db(map[w := 0], map[], map[], map[]);
    var d, x := Deposit(DepositEvent(1, w, 5, 7, 0)), Withdrawal(WithdrawalEvent(1, w, 5, 8));
    var d1 := Apply(db, d, initial);
    assert d1.wallets == map[w := 5] && !PaidHash(d1, 8) && !PaidHash(db, 8);
    assert Apply(db, x, initial) == db;
    RunTwo(db, d, x, initial);
    RunTwo(db, x, d, initial);
  }

  lemma RunOne(db: Db, op: Op, initial: int)
    ensures Run(db, [op], initial) == Apply(db, op, initial)
  {
    assert Run(Apply(db, op, initial), [], initial) == Apply(db, op, initial);
  }

  lemma RunTwo(db: Db, a: Op, b: Op, initial: int)
    ensures Run(db, [a, b], initial) == Apply(Apply(db, a, initial), b, initial)
  {
    assert [a, b][1..] == [b];
    var next := Apply(db, a, initial);
    assert Run(next, [b], initial) == Run(Apply(next, b, initial), [], initial);
  }

  lemma RunThree(db: Db, a: Op, b: Op, c: Op, initial: int)
    ensures Run(db, [a, b, c], initial) == Apply(Apply(Apply(db, a, initial), b, initial), c, initial)
  {
    assert [a, b, c][1..] == [b, c];
    RunTwo(Apply(db, a, initial), b, c, initial);
  }

  // ----- What the tables accept -----

  // A completion whose hash is recorded is accepted and changes nothing. Otherwise it is accepted
  // exactly if its id is new and the wallet's row, if there is one, covers it.
  lemma WithdrawalAccepted(db: Db, ev: WithdrawalEvent)
    ensures var result := ApplyWithdrawal(db, ev);
      var recorded := exists i :: i in db.withdrawals && db.withdrawals[i].tx == ev.tx;
      && (ev.amount <= 0 ==> result.None?)
      && (0 < ev.amount && recorded ==> result == Some(db))
      && (0 < ev.amount && !recorded ==>
            (result.Some? <==> ev.id !in db.withdrawals && (ev.wallet in db.wallets ==> ev.amount <= db.wallets[ev.wallet])))
      && (result.Some? && !recorded ==>
            && result.value.withdrawals == db.withdrawals[ev.id := ev]
            && result.value.wallets.Keys == db.wallets.Keys
            && forall w :: w in db.wallets ==> result.value.wallets[w] == db.wallets[w] - (if w == ev.wallet then ev.amount else 0))
  {
  }

  // A bet batch is accepted exactly if every row meets the constraints and no balance ends negative.
  lemma BetsAccepted(db: Db, evs: seq<BetEvent>)
    requires evs != []
    ensures ApplyBets(db, evs).Some? <==>
      && (forall i :: 0 <= i < |evs| ==>
            0 < evs[i].wager && 0 <= evs[i].payout && 1 <= evs[i].result <= 100 && 0 <= evs[i].nonce)
      && (forall w :: w in db.wallets ==> 0 <= db.wallets[w] - Formula(db, w) + Formula(InsertBets(db, evs), w))
  {
    InsertBetsWalletKeys(db, evs);
    forall w | w in db.wallets
      ensures InsertBets(db, evs).wallets[w] == db.wallets[w] - Formula(db, w) + Formula(InsertBets(db, evs), w)
    {
      InsertBetsFormula(db, evs, w);
    }
    hide Formula, InsertBets;
    assert RowsOk(evs) <==> forall i :: 0 <= i < |evs| ==> RowOk(evs[i]);
  }

  // The same for deposits, whose credit is never refused.
  lemma DepositAccepted(db: Db, ev: DepositEvent)
    ensures var result := ApplyDeposit(db, ev);
      && (ev.amount <= 0 ==> result.None?)
      && (0 < ev.amount && ev.tx in db.deposits ==> result == Some(db))
      && (0 < ev.amount && ev.tx !in db.deposits ==>
            (result.Some? <==> forall h :: h in db.deposits ==> db.deposits[h].id != ev.id))
      && (result.Some? && ev.tx !in db.deposits ==>
            && result.value.deposits == db.deposits[ev.tx := ev]
            && result.value.wallets.Keys == db.wallets.Keys
            && forall w :: w in db.wallets ==> result.value.wallets[w] == db.wallets[w] + (if w == ev.wallet then ev.amount else 0))
  {
  }

  // The tables hold what the op asks for.
  predicate Holds(db: Db, op: Op)
  {
    match op
    case Bets(evs) => RowsOk(evs) && forall i :: 0 <= i < |evs| ==> evs[i].id in db.transactions
    case Deposit(ev) => 0 < ev.amount && ev.tx in db.deposits
    case Withdrawal(ev) => 0 < ev.amount && PaidHash(db, ev.tx)
    case Reset => false
  }

  lemma {:induction false} InsertKnown(db: Db, evs: seq<BetEvent>)
    requires forall i :: 0 <= i < |evs| ==> evs[i].id in db.transactions
    ensures InsertBets(db, evs) == db
    decreases |evs|
  {
    if evs != [] {
      InsertKnown(db, evs[..|evs| - 1]);
    }
  }

  lemma {:induction false} InsertedAll(db: Db, evs: seq<BetEvent>)
    ensures forall id :: id in db.transactions ==> id in InsertBets(db, evs).transactions
    ensures forall j :: 0 <= j < |evs| ==> evs[j].id in InsertBets(db, evs).transactions
    decreases |evs|
  {
    if evs != [] {
      var front := evs[..|evs| - 1];
      InsertedAll(db, front);
      forall j | 0 <= j < |evs|
        ensures evs[j].id in InsertBets(db, evs).transactions
      {
        if j < |front| {
          assert evs[j] == front[j];
        }
      }
    }
  }

  lemma AcceptedHolds(db: Db, op: Op, initial: int)
    requires !op.Reset? && Try(db, op, initial).Some?
    ensures Holds(Apply(db, op, initial), op)
  {
    match op
    case Bets(evs) => InsertedAll(db, evs);
    case Deposit(_) =>
    case Withdrawal(ev) =>
      if !PaidHash(db, ev.tx) {
        assert Apply(db, op, initial).withdrawals[ev.id] == ev;
      }
  }

  lemma HoldsStays(db: Db, op: Op, other: Op, initial: int)
    requires Holds(db, op) && !other.Reset?
    ensures Holds(Apply(db, other, initial), op)
  {
    if other.Bets? {
      InsertBetsExtends(db, other.evs);
    } else if other.Withdrawal? && op.Withdrawal? {
      ApplyPaidHash(db, other, initial, op.wd.tx);
    }
  }

  lemma HeldIsAccepted(db: Db, op: Op, initial: int)
    requires Holds(db, op) && NonNegative(db.wallets)
    ensures Try(db, op, initial) == Some(db)
  {
    if op.Bets? {
      InsertKnown(db, op.evs);
    }
  }

  // Whatever was accepted once is accepted whenever it is delivered again, and changes nothing.
  lemma {:induction false} RedeliveryIsNoOp(db: Db, op: Op, ops: seq<Op>, initial: int)
    requires NonNegative(db.wallets) && Holds(db, op) && NoReset(ops)
    ensures Try(Run(db, ops, initial), op, initial) == Some(Run(db, ops, initial))
    decreases |ops|
  {
    if ops == [] {
      HeldIsAccepted(db, op, initial);
    } else {
      assert !ops[0].Reset?;
      HoldsStays(db, op, ops[0], initial);
      ApplyNonNegative(db, ops[0], initial);
      RedeliveryIsNoOp(Apply(db, ops[0], initial), op, ops[1..], initial);
    }
  }

  lemma AcceptedOnceForAll(db: Db, op: Op, ops: seq<Op>, initial: int)
    requires NonNegative(db.wallets) && !op.Reset? && Try(db, op, initial).Some? && NoReset(ops)
    ensures var later := Run(Apply(db, op, initial), ops, initial); Try(later, op, initial) == Some(later)
  {
    AcceptedHolds(db, op, initial);
    ApplyNonNegative(db, op, initial);
    RedeliveryIsNoOp(Apply(db, op, initial), op, ops, initial);
  }

  // ----- Each withdrawal is debited at most once -----

  // How often a stream debits withdrawal i, and how often it debits under hash h.
  ghost function DebitsOf(db: Db, ops: seq<Op>, initial: int, i: WithdrawalId): nat
    decreases |ops|
  {
    if ops == [] then 0
    else
      var next := Apply(db, ops[0], initial);
      (if ops[0].Withdrawal? && ops[0].wd.id == i && next != db then 1 else 0) + DebitsOf(next, ops[1..], initial, i)
  }

  ghost function DebitsUnder(db: Db, ops: seq<Op>, initial: int, h: TxHash): nat
    decreases |ops|
  {
    if ops == [] then 0
    else
      var next := Apply(db, ops[0], initial);
      (if ops[0].Withdrawal? && ops[0].wd.tx == h && next != db then 1 else 0) + DebitsUnder(next, ops[1..], initial, h)
  }

  // Exactly the first recorded completion debits, whatever is redelivered and under whatever hash.
  lemma {:induction false} DebitedOnce(db: Db, ops: seq<Op>, initial: int, i: WithdrawalId)
    requires NoReset(ops)
    ensures DebitsOf(db, ops, initial, i) + (if i in db.withdrawals then 1 else 0)
         == if i in Run(db, ops, initial).withdrawals then 1 else 0
    decreases |ops|
  {
    if ops != [] {
      assert !ops[0].Reset?;
      if ops[0].Bets? {
        InsertBetsExtends(db, ops[0].evs);
      }
      DebitedOnce(Apply(db, ops[0], initial), ops[1..], initial, i);
    }
  }

  lemma {:induction false} HashDebitedOnce(db: Db, ops: seq<Op>, initial: int, h: TxHash)
    requires NoReset(ops)
    ensures DebitsUnder(db, ops, initial, h) + (if PaidHash(db, h) then 1 else 0)
         == if PaidHash(Run(db, ops, initial), h) then 1 else 0
    decreases |ops|
  {
    if ops != [] {
      assert !ops[0].Reset?;
      var next := Apply(db, ops[0], initial);
      ApplyPaidHash(db, ops[0], initial, h);
      HashDebitedOnce(next, ops[1..], initial, h);
    }
  }

  lemma ApplyPaidHash(db: Db, op: Op, initial: int, h: TxHash)
    requires !op.Reset?
    ensures PaidHash(Apply(db, op, initial), h)
       <==> PaidHash(db, h) || (op.Withdrawal? && op.wd.tx == h && Apply(db, op, initial) != db)
    ensures op.Withdrawal? && op.wd.tx == h && PaidHash(db, h) ==> Apply(db, op, initial) == db
  {
    match op
    case Bets(evs) => InsertBetsExtends(db, evs);
    case Deposit(_) =>
    case Withdrawal(ev) =>
      var next := Apply(db, op, initial);
      if next != db {
        assert next.withdrawals[ev.id] == ev;
        forall i | i in db.withdrawals
          ensures i in next.withdrawals && next.withdrawals[i] == db.withdrawals[i]
        {
        }
      }
  }
}
