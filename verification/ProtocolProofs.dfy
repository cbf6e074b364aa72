/** The inductive invariant of the two-store protocol, and what follows from it for every run. */
module ProtocolProofs {
  import opened Domain
  import opened Redis
  import opened Ledger
  import opened Totals
  import opened Protocol
  import LedgerProofs

  // ----- Every step keeps the invariant -----

  function OpenPart(b: Bet): int { if Open(b.phase) then b.ev.wager else 0 }

  function SettledPart(b: Bet): int { if b.phase == Settled then Pnl(b.ev) else 0 }

  // A bet enters or changes phase while a script changes the account of its wallet.
  lemma EscrowMove(redis: map<Wallet, Account>, bets: map<BetId, Bet>, id: BetId, b: Bet, a: Account)
    requires EscrowExact(redis, bets) && b.ev.wallet in redis
    requires id in bets ==> bets[id].ev == b.ev
    requires a.escrowed == redis[b.ev.wallet].escrowed + OpenPart(b) - (if id in bets then OpenPart(bets[id]) else 0)
    ensures EscrowExact(redis[b.ev.wallet := a], bets[id := b])
  {
    forall w | w in redis
      ensures redis[b.ev.wallet := a][w].escrowed == Total(bets[id := b], OpenWager(w))
    {
      TotalUpdate(bets, id, b, OpenWager(w));
    }
  }

  lemma FundsMove(opening: map<Wallet, int>, redis: map<Wallet, Account>, bets: map<BetId, Bet>,
                  cash: map<WithdrawalId, Cash>, arrivals: map<TxHash, Arrival>, id: BetId, b: Bet, a: Account)
    requires FundsExact(opening, redis, bets, cash, arrivals) && b.ev.wallet in redis
    requires id in bets ==> bets[id].ev == b.ev
    requires a.balance + a.escrowed == redis[b.ev.wallet].balance + redis[b.ev.wallet].escrowed
                                       + SettledPart(b) - (if id in bets then SettledPart(bets[id]) else 0)
    ensures FundsExact(opening, redis[b.ev.wallet := a], bets[id := b], cash, arrivals)
  {
    forall w | w in redis && w in opening
      ensures redis[b.ev.wallet := a][w].balance + redis[b.ev.wallet := a][w].escrowed
           == opening[w] + Total(bets[id := b], SettledPnl(w)) - Total(cash, HeldCash(w)) + Total(arrivals, CreditedAmount(w))
    {
      TotalUpdate(bets, id, b, SettledPnl(w));
    }
  }

  lemma BetsMove(opening: map<Wallet, int>, bets: map<BetId, Bet>, outbox: set<BetId>, log: seq<BetEvent>,
                 transactions: map<BetId, BetEvent>, resolved: nat, id: BetId, b: Bet)
    requires BetsOk(opening, bets, outbox) && BetLogOk(bets, log, transactions, resolved)
    requires b.ev.id == id && b.ev.wallet in opening && 0 <= b.ev.wager && 0 <= b.ev.payout
    requires id in bets ==> bets[id].ev == b.ev && (Played(bets[id].phase) ==> Played(b.phase))
    ensures BetsOk(opening, bets[id := b], outbox) && BetLogOk(bets[id := b], log, transactions, resolved)
  {
    assert forall ev :: KnownBet(bets, ev) ==> KnownBet(bets[id := b], ev);
  }

  lemma BetMoveKeeps(s: State, id: BetId, b: Bet, a: Account)
    requires Inv(s)
    requires b.ev.id == id && b.ev.wallet in s.redis && 0 <= b.ev.wager && 0 <= b.ev.payout
    requires id in s.bets ==> s.bets[id].ev == b.ev && (Played(s.bets[id].phase) ==> Played(b.phase))
    requires var was := s.redis[b.ev.wallet];
      && 0 <= a.balance && 0 <= a.escrowed
      && a.escrowed == was.escrowed + OpenPart(b) - (if id in s.bets then OpenPart(s.bets[id]) else 0)
      && a.balance + a.escrowed == was.balance + was.escrowed
                                   + SettledPart(b) - (if id in s.bets then SettledPart(s.bets[id]) else 0)
    ensures Inv(s.(redis := s.redis[b.ev.wallet := a], bets := s.bets[id := b]))
  {
    hide EscrowExact, FundsExact, LedgerExact, BetsOk, BetLogOk, CashOk, ArrivalsOk;
    EscrowMove(s.redis, s.bets, id, b, a);
    FundsMove(s.opening, s.redis, s.bets, s.cash, s.arrivals, id, b, a);
    BetsMove(s.opening, s.bets, s.outbox, s.betLog, s.db.transactions, s.resolved, id, b);
  }

  // The clamp of the settle and release scripts never acts: an open wager is inside the escrow total.
  lemma OpenWagerCovered(s: State, id: BetId)
    requires Inv(s) && id in s.bets && Open(s.bets[id].phase)
    ensures s.bets[id].ev.wallet in s.redis
    ensures s.bets[id].ev.wager <= s.redis[s.bets[id].ev.wallet].escrowed
  {
    hide FundsExact, LedgerExact, BetLogOk, CashOk, ArrivalsOk;
    var w := s.bets[id].ev.wallet;
    TotalBound(s.bets, OpenWager(w));
    assert OpenWager(w)(id, s.bets[id]) == s.bets[id].ev.wager;
  }

  lemma AcceptKeeps(s: State, ev: BetEvent)
    requires Inv(s) && Enabled(s, Accept(ev))
    ensures Inv(Do(s, Accept(ev)))
  {
    BetMoveKeeps(s, ev.id, Bet(ev, Escrowed), Escrow(s.redis[ev.wallet], ev.wager));
  }

  lemma BetOnKnownWallet(s: State, id: BetId)
    requires Inv(s) && id in s.bets
    ensures var ev := s.bets[id].ev;
      && ev.id == id && 0 <= ev.wager && 0 <= ev.payout
      && ev.wallet in s.redis && 0 <= s.redis[ev.wallet].balance && 0 <= s.redis[ev.wallet].escrowed
  {
    hide EscrowExact, FundsExact, LedgerExact, BetLogOk, CashOk, ArrivalsOk;
  }

  lemma SettleKeeps(s: State, id: BetId)
    requires Inv(s) && Enabled(s, SettleBet(id))
    ensures Inv(Do(s, SettleBet(id)))
  {
    hide Inv;
    BetOnKnownWallet(s, id);
    OpenWagerCovered(s, id);
    var ev := s.bets[id].ev;
    BetMoveKeeps(s, id, Bet(ev, Settled), Settle(s.redis[ev.wallet], ev.wager, ev.payout));
  }

  lemma ReleaseKeeps(s: State, id: BetId)
    requires Inv(s) && Enabled(s, ReleaseBet(id))
    ensures Inv(Do(s, ReleaseBet(id)))
  {
    hide Inv;
    BetOnKnownWallet(s, id);
    OpenWagerCovered(s, id);
    var ev := s.bets[id].ev;
    BetMoveKeeps(s, id, Bet(ev, Released), Release(s.redis[ev.wallet], ev.wager));
  }

  // Phases that leave the wager in escrow.
  lemma OpenPhaseKeeps(s: State, id: BetId, p: Phase)
    requires Inv(s) && id in s.bets && Open(s.bets[id].phase) && Open(p)
    requires Played(s.bets[id].phase) ==> Played(p)
    ensures Inv(s.(bets := SetPhase(s.bets, id, p)))
  {
    hide Inv;
    BetOnKnownWallet(s, id);
    var b := Bet(s.bets[id].ev, p);
    var w := b.ev.wallet;
    BetMoveKeeps(s, id, b, s.redis[w]);
    assert s.redis[w := s.redis[w]] == s.redis;
  }

  lemma OutboxAdds(s: State, id: BetId)
    requires Inv(s) && id in s.bets && Played(s.bets[id].phase)
    ensures Inv(s.(outbox := s.outbox + {id}))
  {
    hide EscrowExact, FundsExact, LedgerExact, BetLogOk, CashOk, ArrivalsOk, Solvent;
  }

  lemma ResolveKeeps(s: State, id: BetId)
    requires Inv(s) && Enabled(s, Resolve(id))
    ensures Inv(Do(s, Resolve(id)))
  {
    hide Inv;
    OpenPhaseKeeps(s, id, Resolved);
    OutboxAdds(s.(bets := SetPhase(s.bets, id, Resolved)), id);
  }

  lemma PublishKeeps(s: State, id: BetId)
    requires Inv(s) && Enabled(s, Publish(id))
    ensures Inv(Do(s, Publish(id)))
  {
    hide EscrowExact, FundsExact, LedgerExact, CashOk, ArrivalsOk, Solvent;
    assert KnownBet(s.bets, s.bets[id].ev);
  }

  // ----- Consumer steps -----

  lemma LedgerOpKeeps(opening: map<Wallet, int>, redis: map<Wallet, Account>, db: Db, op: LedgerProofs.Op)
    requires !op.Reset? && Hydrated(opening, redis, db) && LedgerExact(opening, db)
    ensures Hydrated(opening, redis, LedgerProofs.Apply(db, op, 0))
    ensures LedgerExact(opening, LedgerProofs.Apply(db, op, 0))
  {
    var after := LedgerProofs.Apply(db, op, 0);
    LedgerProofs.ApplyNonNegative(db, op, 0);
    LedgerProofs.SameWalletKeys(db, [op], 0);
    LedgerProofs.RunOne(db, op, 0);
    forall w | w in after.wallets && w in opening
      ensures after.wallets[w] == opening[w] + Formula(after, w)
    {
      LedgerProofs.ApplyFormula(db, op, 0, w);
    }
  }

  lemma {:induction false} InsertBetsKnown(bets: map<BetId, Bet>, db: Db, evs: seq<BetEvent>)
    requires forall j :: 0 <= j < |evs| ==> KnownBet(bets, evs[j])
    requires forall id :: id in db.transactions ==> db.transactions[id].id == id && KnownBet(bets, db.transactions[id])
    ensures var after := InsertBets(db, evs).transactions;
      && (forall id :: id in db.transactions ==> id in after)
      && (forall id :: id in after ==> after[id].id == id && KnownBet(bets, after[id]))
      && (forall j :: 0 <= j < |evs| ==> evs[j].id in after)
    decreases |evs|
  {
    if evs != [] {
      var front := evs[..|evs| - 1];
      InsertBetsKnown(bets, db, front);
      forall j | 0 <= j < |evs|
        ensures evs[j].id in InsertBets(db, evs).transactions
      {
        if j < |front| {
          assert evs[j] == front[j];
        }
      }
    }
  }

  // Consuming a slice that starts inside the resolved prefix extends the prefix at most to its end.
  lemma ConsumedPrefix(bets: map<BetId, Bet>, log: seq<BetEvent>, db: Db, resolved: nat, lo: nat, hi: nat)
    requires BetLogOk(bets, log, db.transactions, resolved)
    requires lo <= resolved && lo <= hi <= |log|
    ensures BetLogOk(bets, log, InsertBets(db, log[lo..hi]).transactions, resolved)
    ensures resolved < hi ==> BetLogOk(bets, log, InsertBets(db, log[lo..hi]).transactions, hi)
  {
    var evs := log[lo..hi];
    InsertBetsKnown(bets, db, evs);
    forall j | 0 <= j < hi
      ensures log[j].id in InsertBets(db, evs).transactions
    {
      if resolved <= j {
        assert log[j] == evs[j - lo];
      }
    }
  }

  lemma ConsumeBetsKeeps(s: State, lo: nat, hi: nat, acked: bool)
    requires Inv(s) && Enabled(s, ConsumeBets(lo, hi, acked))
    ensures Inv(Do(s, ConsumeBets(lo, hi, acked)))
  {
    hide EscrowExact, FundsExact, LedgerExact, BetsOk, BetLogOk, CashOk, ArrivalsOk, Solvent;
    LedgerOpKeeps(s.opening, s.redis, s.db, LedgerProofs.Bets(s.betLog[lo..hi]));
    LedgerProofs.InsertBetsExtends(s.db, s.betLog[lo..hi]);
    ConsumedPrefix(s.bets, s.betLog, s.db, s.resolved, lo, hi);
  }

  lemma RecordedPayoutOk(opening: map<Wallet, int>, cash: map<WithdrawalId, Cash>, log: seq<WithdrawalEvent>, db: Db, j: nat)
    requires CashOk(opening, cash, log, db.withdrawals) && j < |log|
    ensures CashOk(opening, cash, log, Commit(db, ApplyWithdrawal(db, log[j])).withdrawals)
  {
    assert KnownPayout(cash, log[j]);
  }

  lemma ConsumePayoutKeeps(s: State, j: nat)
    requires Inv(s) && Enabled(s, ConsumePayout(j))
    ensures Inv(Do(s, ConsumePayout(j)))
  {
    hide EscrowExact, FundsExact, LedgerExact, BetsOk, BetLogOk, CashOk, ArrivalsOk, Solvent;
    LedgerOpKeeps(s.opening, s.redis, s.db, LedgerProofs.Withdrawal(s.payLog[j]));
    RecordedPayoutOk(s.opening, s.cash, s.payLog, s.db, j);
  }

  // ----- Withdrawal steps -----

  function HeldPart(c: Cash): int { if c.phase != Refunded then c.amount else 0 }

  lemma CashMove(opening: map<Wallet, int>, redis: map<Wallet, Account>, bets: map<BetId, Bet>,
                 cash: map<WithdrawalId, Cash>, arrivals: map<TxHash, Arrival>, id: WithdrawalId, c: Cash, a: Account)
    requires FundsExact(opening, redis, bets, cash, arrivals) && c.wallet in redis
    requires id in cash ==> cash[id].wallet == c.wallet
    requires a.balance + a.escrowed == redis[c.wallet].balance + redis[c.wallet].escrowed
                                       - HeldPart(c) + (if id in cash then HeldPart(cash[id]) else 0)
    ensures FundsExact(opening, redis[c.wallet := a], bets, cash[id := c], arrivals)
  {
    forall w | w in redis && w in opening
      ensures redis[c.wallet := a][w].balance + redis[c.wallet := a][w].escrowed
           == opening[w] + Total(bets, SettledPnl(w)) - Total(cash[id := c], HeldCash(w)) + Total(arrivals, CreditedAmount(w))
    {
      TotalUpdate(cash, id, c, HeldCash(w));
    }
  }

  lemma SameEscrow(redis: map<Wallet, Account>, bets: map<BetId, Bet>, w: Wallet, a: Account)
    requires EscrowExact(redis, bets) && w in redis && a.escrowed == redis[w].escrowed
    ensures EscrowExact(redis[w := a], bets)
  {
  }

  lemma CashMoveKeeps(s: State, id: WithdrawalId, c: Cash, a: Account)
    requires Inv(s) && c.wallet in s.redis && 0 < c.amount
    requires id in s.cash ==> s.cash[id].wallet == c.wallet && s.cash[id].phase != Requested
    requires var was := s.redis[c.wallet];
      && 0 <= a.balance && a.escrowed == was.escrowed
      && a.balance == was.balance - HeldPart(c) + (if id in s.cash then HeldPart(s.cash[id]) else 0)
    ensures Inv(s.(redis := s.redis[c.wallet := a], cash := s.cash[id := c]))
  {
    hide EscrowExact, FundsExact, LedgerExact, BetsOk, BetLogOk, ArrivalsOk;
    SameEscrow(s.redis, s.bets, c.wallet, a);
    CashMove(s.opening, s.redis, s.bets, s.cash, s.arrivals, id, c, a);
    assert forall ev :: KnownPayout(s.cash, ev) ==> KnownPayout(s.cash[id := c], ev);
  }

  lemma DeductKeeps(s: State, id: WithdrawalId, w: Wallet, amount: int)
    requires Inv(s) && Enabled(s, DeductCash(id, w, amount))
    ensures Inv(Do(s, DeductCash(id, w, amount)))
  {
    CashMoveKeeps(s, id, Cash(w, amount, Deducted), Deduct(s.redis[w], amount));
  }

  lemma CashOnKnownWallet(s: State, id: WithdrawalId)
    requires Inv(s) && id in s.cash
    ensures s.cash[id].wallet in s.redis && 0 < s.cash[id].amount && 0 <= s.redis[s.cash[id].wallet].balance
  {
  }

  lemma RefundKeeps(s: State, id: WithdrawalId)
    requires Inv(s) && Enabled(s, Refund(id))
    ensures Inv(Do(s, Refund(id)))
  {
    hide Inv;
    CashOnKnownWallet(s, id);
    var c := s.cash[id];
    CashMoveKeeps(s, id, c.(phase := Refunded), Credit(s.redis[c.wallet], c.amount));
  }

  lemma CashPhaseKeeps(s: State, id: WithdrawalId, p: CashPhase)
    requires Inv(s) && id in s.cash && (s.cash[id].phase == Deducted || s.cash[id].phase == Refunding) && p != Refunded
    ensures Inv(s.(cash := SetCash(s.cash, id, p)))
  {
    hide Inv;
    CashOnKnownWallet(s, id);
    var c := s.cash[id];
    CashMoveKeeps(s, id, c.(phase := p), s.redis[c.wallet]);
    assert s.redis[c.wallet := s.redis[c.wallet]] == s.redis;
  }

  lemma PayOutKeeps(s: State, id: WithdrawalId, tx: TxHash)
    requires Inv(s) && Enabled(s, PayOut(id, tx))
    ensures Inv(Do(s, PayOut(id, tx)))
  {
    hide EscrowExact, FundsExact, LedgerExact, BetsOk, BetLogOk, ArrivalsOk;
  }

  // ----- Deposit steps -----

  function CreditedPart(a: Arrival): int { if a.phase == Credited then a.amount else 0 }

  lemma ArrivalMove(opening: map<Wallet, int>, redis: map<Wallet, Account>, bets: map<BetId, Bet>,
                    cash: map<WithdrawalId, Cash>, arrivals: map<TxHash, Arrival>, h: TxHash, d: Arrival, a: Account)
    requires FundsExact(opening, redis, bets, cash, arrivals) && d.wallet in redis
    requires h in arrivals ==> arrivals[h].wallet == d.wallet
    requires a.balance + a.escrowed == redis[d.wallet].balance + redis[d.wallet].escrowed
                                       + CreditedPart(d) - (if h in arrivals then CreditedPart(arrivals[h]) else 0)
    ensures FundsExact(opening, redis[d.wallet := a], bets, cash, arrivals[h := d])
  {
    forall w | w in redis && w in opening
      ensures redis[d.wallet := a][w].balance + redis[d.wallet := a][w].escrowed
           == opening[w] + Total(bets, SettledPnl(w)) - Total(cash, HeldCash(w)) + Total(arrivals[h := d], CreditedAmount(w))
    {
      TotalUpdate(arrivals, h, d, CreditedAmount(w));
    }
  }

  lemma ArrivalOnKnownWallet(s: State, h: TxHash)
    requires Inv(s) && h in s.arrivals
    ensures s.arrivals[h].wallet in s.redis && 0 < s.arrivals[h].amount && 0 <= s.redis[s.arrivals[h].wallet].balance
  {
    assert h in s.db.deposits;
  }

  lemma ArrivalMoveKeeps(s: State, h: TxHash, d: Arrival, a: Account)
    requires Inv(s) && h in s.arrivals && d.wallet == s.arrivals[h].wallet && d.amount == s.arrivals[h].amount
    requires d.wallet in s.redis
    requires var was := s.redis[d.wallet];
      && 0 <= a.balance && a.escrowed == was.escrowed
      && a.balance == was.balance + CreditedPart(d) - CreditedPart(s.arrivals[h])
    ensures Inv(s.(redis := s.redis[d.wallet := a], arrivals := s.arrivals[h := d]))
  {
    hide EscrowExact, FundsExact, LedgerExact, BetsOk, BetLogOk, CashOk;
    SameEscrow(s.redis, s.bets, d.wallet, a);
    ArrivalMove(s.opening, s.redis, s.bets, s.cash, s.arrivals, h, d, a);
  }

  lemma CreditKeeps(s: State, tx: TxHash)
    requires Inv(s) && Enabled(s, CreditDeposit(tx))
    ensures Inv(Do(s, CreditDeposit(tx)))
  {
    hide Inv;
    ArrivalOnKnownWallet(s, tx);
    var d := s.arrivals[tx];
    ArrivalMoveKeeps(s, tx, d.(phase := Credited), Credit(s.redis[d.wallet], d.amount));
  }

  lemma CreditLostKeeps(s: State, tx: TxHash)
    requires Inv(s) && Enabled(s, CreditLost(tx))
    ensures Inv(Do(s, CreditLost(tx)))
  {
    hide Inv;
    ArrivalOnKnownWallet(s, tx);
    var d := s.arrivals[tx];
    ArrivalMoveKeeps(s, tx, d.(phase := Dropped), s.redis[d.wallet]);
    assert s.redis[d.wallet := s.redis[d.wallet]] == s.redis;
  }

  lemma NewArrivalFunds(opening: map<Wallet, int>, redis: map<Wallet, Account>, bets: map<BetId, Bet>,
                        cash: map<WithdrawalId, Cash>, arrivals: map<TxHash, Arrival>, h: TxHash, d: Arrival)
    requires FundsExact(opening, redis, bets, cash, arrivals) && d.wallet in redis
    requires h !in arrivals && d.phase == Pending
    ensures FundsExact(opening, redis, bets, cash, arrivals[h := d])
  {
    ArrivalMove(opening, redis, bets, cash, arrivals, h, d, redis[d.wallet]);
    assert redis[d.wallet := redis[d.wallet]] == redis;
  }

  lemma NewArrivalOk(opening: map<Wallet, int>, arrivals: map<TxHash, Arrival>, log: seq<DepositEvent>, db: Db, j: nat)
    requires ArrivalsOk(opening, arrivals, log, db.deposits) && j < |log| && NewDeposit(db, log[j])
    ensures log[j].wallet in opening && log[j].tx !in arrivals
    ensures ArrivalsOk(opening, arrivals[log[j].tx := Arrival(log[j].wallet, log[j].amount, Pending)], log,
                       db.deposits[log[j].tx := log[j]])
  {
  }

  lemma RecordDepositKeeps(s: State, j: nat)
    requires Inv(s) && Enabled(s, RecordDeposit(j))
    ensures Inv(Do(s, RecordDeposit(j)))
  {
    hide EscrowExact, FundsExact, LedgerExact, BetsOk, BetLogOk, CashOk, ArrivalsOk, Solvent;
    var ev := s.depLog[j];
    LedgerOpKeeps(s.opening, s.redis, s.db, LedgerProofs.Deposit(ev));
    if NewDeposit(s.db, ev) {
      NewArrivalOk(s.opening, s.arrivals, s.depLog, s.db, j);
      NewArrivalFunds(s.opening, s.redis, s.bets, s.cash, s.arrivals, ev.tx, Arrival(ev.wallet, ev.amount, Pending));
    }
  }

  lemma AnnounceKeeps(s: State, ev: DepositEvent)
    requires Inv(s) && Enabled(s, AnnounceDeposit(ev))
    ensures Inv(Do(s, AnnounceDeposit(ev)))
  {
    hide EscrowExact, FundsExact, LedgerExact, BetsOk, BetLogOk, CashOk, Solvent;
  }

  // ----- Runs -----

  lemma StepKeeps(s: State, step: Step)
    requires Inv(s)
    ensures Inv(Next(s, step))
  {
    hide Inv;
    if Enabled(s, step) {
      match step
      case Accept(ev) => AcceptKeeps(s, ev);
      case Resolve(id) => ResolveKeeps(s, id);
      case Abandon(id) => OpenPhaseKeeps(s, id, Releasing);
      case Strand(id) => OpenPhaseKeeps(s, id, Stranded);
      case SettleBet(id) => SettleKeeps(s, id);
      case SettleExhausted(id) => OpenPhaseKeeps(s, id, SettleFailed);
      case ReleaseBet(id) => ReleaseKeeps(s, id);
      case ReleaseExhausted(id) => OpenPhaseKeeps(s, id, Stranded);
      case Publish(id) => PublishKeeps(s, id);
      case PublishLost(id) => PublishLostKeeps(s, id);
      case ConsumeBets(lo, hi, acked) => ConsumeBetsKeeps(s, lo, hi, acked);
      case DeductCash(id, w, amount) => DeductKeeps(s, id, w, amount);
      case RequestPayout(id) => CashPhaseKeeps(s, id, Requested);
      case RequestFailed(id) => CashPhaseKeeps(s, id, Refunding);
      case Refund(id) => RefundKeeps(s, id);
      case RefundLost(id) => CashPhaseKeeps(s, id, RefundFailed);
      case PayOut(id, tx) => PayOutKeeps(s, id, tx);
      case ConsumePayout(j) => ConsumePayoutKeeps(s, j);
      case AnnounceDeposit(ev) => AnnounceKeeps(s, ev);
      case RecordDeposit(j) => RecordDepositKeeps(s, j);
      case CreditDeposit(tx) => CreditKeeps(s, tx);
      case CreditLost(tx) => CreditLostKeeps(s, tx);
    }
  }

  lemma PublishLostKeeps(s: State, id: BetId)
    requires Inv(s) && Enabled(s, PublishLost(id))
    ensures Inv(Do(s, PublishLost(id)))
  {
    hide EscrowExact, FundsExact, LedgerExact, BetLogOk, CashOk, ArrivalsOk, Solvent;
  }

  lemma {:induction false} RunKeeps(s: State, steps: seq<Step>)
    requires Inv(s)
    ensures Inv(Run(s, steps))
    decreases |steps|
  {
    hide Inv;
    if steps != [] {
      StepKeeps(s, steps[0]);
      RunKeeps(Next(s, steps[0]), steps[1..]);
    }
  }

  lemma StartInv(opening: map<Wallet, int>)
    requires NonNegative(opening)
    ensures Inv(Start(opening))
  {
  }
}
