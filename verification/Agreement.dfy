/** What the protocol invariant means for the two stores: the exact accounting identity between Redis
    and Postgres, when they agree, when the skew alarm tells the truth, and the fate of single bets,
    withdrawals and deposits over whole runs. */
module Agreement {
  import opened Domain
  import opened Redis
  import opened Ledger
  import opened Totals
  import opened Protocol
  import ProtocolProofs

  // ----- The accounting identity -----

  ghost function RecordedPnl(w: Wallet, transactions: map<BetId, BetEvent>): (BetId, Bet) -> int
  {
    (id: BetId, b: Bet) => if b.ev.wallet == w && id in transactions then Pnl(b.ev) else 0
  }

  lemma BetDifference(bets: map<BetId, Bet>, transactions: map<BetId, BetEvent>, w: Wallet)
    requires forall id :: id in transactions ==> id in bets && bets[id].ev == transactions[id]
    ensures Total(bets, SettledPnl(w)) - Total(transactions, BetShare(w))
         == Total(bets, SettledOnly(w, transactions)) - Total(bets, RecordedOnly(w, transactions))
  {
    TotalRestrict(transactions, BetShare(w), bets, RecordedPnl(w, transactions));
    TotalLinear(bets, SettledPnl(w), RecordedPnl(w, transactions), SettledOnly(w, transactions), RecordedOnly(w, transactions));
  }

  ghost function RecordedCash(w: Wallet, withdrawals: map<WithdrawalId, WithdrawalEvent>): (WithdrawalId, Cash) -> int
  {
    (id: WithdrawalId, c: Cash) => if c.wallet == w && id in withdrawals then c.amount else 0
  }

  lemma CashDifference(cash: map<WithdrawalId, Cash>, withdrawals: map<WithdrawalId, WithdrawalEvent>, w: Wallet)
    requires forall id :: id in withdrawals ==> KnownPayout(cash, withdrawals[id]) && withdrawals[id].id == id
    ensures Total(cash, HeldCash(w)) - Total(withdrawals, WithdrawalShare(w)) == Total(cash, HeldOnly(w, withdrawals))
  {
    var none := (id: WithdrawalId, c: Cash) => 0;
    TotalRestrict(withdrawals, WithdrawalShare(w), cash, RecordedCash(w, withdrawals));
    TotalLinear(cash, HeldCash(w), RecordedCash(w, withdrawals), HeldOnly(w, withdrawals), none);
    TotalZero(cash, none);
  }

  ghost function ArrivedAmount(w: Wallet): (TxHash, Arrival) -> int
  {
    (h: TxHash, a: Arrival) => if a.wallet == w then a.amount else 0
  }

  lemma DepositDifference(arrivals: map<TxHash, Arrival>, deposits: map<TxHash, DepositEvent>, w: Wallet)
    requires arrivals.Keys == deposits.Keys
    requires forall h :: h in deposits ==> arrivals[h].wallet == deposits[h].wallet && arrivals[h].amount == deposits[h].amount
    ensures Total(deposits, DepositShare(w)) - Total(arrivals, CreditedAmount(w)) == Total(arrivals, Uncredited(w))
  {
    var none := (h: TxHash, a: Arrival) => 0;
    TotalRestrict(deposits, DepositShare(w), arrivals, ArrivedAmount(w));
    TotalLinear(arrivals, ArrivedAmount(w), CreditedAmount(w), Uncredited(w), none);
    TotalZero(arrivals, none);
  }

  // Redis (available + escrowed) minus Postgres, in any state of the invariant.
  lemma StoreGap(s: State, w: Wallet)
    requires Inv(s) && w in s.opening
    ensures w in s.redis && w in s.db.wallets
    ensures s.redis[w].balance + s.redis[w].escrowed - s.db.wallets[w]
         == SettledNotRecorded(s, w) - RecordedNotSettled(s, w) - DeductedNotRecorded(s, w) - RecordedNotCredited(s, w)
  {
    hide EscrowExact, BetsOk;
    BetDifference(s.bets, s.db.transactions, w);
    CashDifference(s.cash, s.db.withdrawals, w);
    DepositDifference(s.arrivals, s.db.deposits, w);
  }

  // The same in every state that any run reaches from agreeing stores.
  lemma AccountingIdentity(opening: map<Wallet, int>, steps: seq<Step>, w: Wallet)
    requires NonNegative(opening) && w in opening
    ensures var s := Run(Start(opening), steps);
      && w in s.redis && w in s.db.wallets
      && s.redis[w].balance + s.redis[w].escrowed - s.db.wallets[w]
         == SettledNotRecorded(s, w) - RecordedNotSettled(s, w) - DeductedNotRecorded(s, w) - RecordedNotCredited(s, w)
  {
    hide Inv;
    ProtocolProofs.StartInv(opening);
    ProtocolProofs.RunKeeps(Start(opening), steps);
    SameOpening(Start(opening), steps);
    StoreGap(Run(Start(opening), steps), w);
  }

  lemma DoOpening(s: State, step: Step)
    requires Enabled(s, step)
    ensures Do(s, step).opening == s.opening
  {
    hide ApplyBets, ApplyDeposit, ApplyWithdrawal, Escrow, Settle, Release, Deduct, Credit, Put, Acct, Commit, NewDeposit,
      SetPhase, SetCash;
  }

  lemma StepOpening(s: State, step: Step)
    ensures Next(s, step).opening == s.opening
  {
    hide Enabled, Do;
    if Enabled(s, step) {
      DoOpening(s, step);
    }
  }

  lemma {:induction false} SameOpening(s: State, steps: seq<Step>)
    ensures Run(s, steps).opening == s.opening
    decreases |steps|
  {
    hide Next;
    if steps != [] {
      StepOpening(s, steps[0]);
      SameOpening(Next(s, steps[0]), steps[1..]);
    }
  }

  // Nothing in flight, stuck or lost, and the consumer has caught up.
  predicate Quiescent(s: State)
  {
    && (forall id :: id in s.bets ==> !Open(s.bets[id].phase))
    && (forall id :: id in s.bets && s.bets[id].phase == Settled ==> s.bets[id].ev in s.betLog)
    && s.resolved == |s.betLog|
    && (forall id :: id in s.cash ==> s.cash[id].phase == Refunded || id in s.db.withdrawals)
    && (forall h :: h in s.arrivals ==> s.arrivals[h].phase == Credited)
  }

  lemma SettledIsRecorded(s: State, id: BetId)
    requires BetsOk(s.opening, s.bets, s.outbox) && BetLogOk(s.bets, s.betLog, s.db.transactions, s.resolved)
    requires Quiescent(s) && id in s.bets && s.bets[id].phase == Settled
    ensures id in s.db.transactions
  {
    hide KnownBet;
    var j :| 0 <= j < |s.betLog| && s.betLog[j] == s.bets[id].ev;
    assert s.betLog[j].id in s.db.transactions;
  }

  lemma QuiescentBets(s: State, w: Wallet)
    requires BetsOk(s.opening, s.bets, s.outbox) && BetLogOk(s.bets, s.betLog, s.db.transactions, s.resolved)
    requires Quiescent(s)
    ensures SettledNotRecorded(s, w) == 0 && RecordedNotSettled(s, w) == 0
  {
    forall id | id in s.bets && s.bets[id].phase == Settled
      ensures id in s.db.transactions
    {
      SettledIsRecorded(s, id);
    }
    hide BetsOk, BetLogOk;
    TotalZero(s.bets, SettledOnly(w, s.db.transactions));
    TotalZero(s.bets, RecordedOnly(w, s.db.transactions));
  }

  lemma QuiescentTerms(s: State, w: Wallet)
    requires Inv(s) && Quiescent(s)
    ensures SettledNotRecorded(s, w) == 0 && RecordedNotSettled(s, w) == 0
    ensures DeductedNotRecorded(s, w) == 0 && RecordedNotCredited(s, w) == 0
    ensures Total(s.bets, OpenWager(w)) == 0
  {
    hide EscrowExact, FundsExact, LedgerExact, BetsOk, BetLogOk, CashOk, ArrivalsOk, Solvent;
    QuiescentBets(s, w);
    TotalZero(s.cash, HeldOnly(w, s.db.withdrawals));
    TotalZero(s.arrivals, Uncredited(w));
    TotalZero(s.bets, OpenWager(w));
  }

  // Then the stores are equal, nothing is escrowed, and the skew alarm is silent.
  lemma QuiescentAgreement(opening: map<Wallet, int>, steps: seq<Step>, w: Wallet)
    requires NonNegative(opening) && w in opening && Quiescent(Run(Start(opening), steps))
    ensures var s := Run(Start(opening), steps);
      && w in s.redis && w in s.db.wallets
      && s.redis[w].balance == s.db.wallets[w] && s.redis[w].escrowed == 0
      && !SkewFires(s.redis[w].balance, s.db.wallets[w])
  {
    var s := Run(Start(opening), steps);
    AccountingIdentity(opening, steps, w);
    EscrowIdentity(opening, steps, w);
    ReachableInv(opening, steps);
    QuiescentTerms(s, w) by { hide Run, Inv; }
  }

  lemma ReachableInv(opening: map<Wallet, int>, steps: seq<Step>)
    requires NonNegative(opening)
    ensures Inv(Run(Start(opening), steps))
  {
    hide Inv;
    ProtocolProofs.StartInv(opening);
    ProtocolProofs.RunKeeps(Start(opening), steps);
  }

  // The escrow of a wallet is what its open bets wagered, stranded ones included; no balance or
  // escrow is ever negative.
  lemma EscrowIdentity(opening: map<Wallet, int>, steps: seq<Step>, w: Wallet)
    requires NonNegative(opening) && w in opening
    ensures var s := Run(Start(opening), steps);
      && w in s.redis && w in s.db.wallets
      && s.redis[w].escrowed == Total(s.bets, OpenWager(w))
      && 0 <= s.redis[w].escrowed && 0 <= s.redis[w].balance && 0 <= s.db.wallets[w]
  {
    ReachableInv(opening, steps);
    SameOpening(Start(opening), steps);
    hide Run, FundsExact, BetsOk, BetLogOk, CashOk, ArrivalsOk;
  }

  // math.max(0, ...) in the settle and release scripts is the identity in every run.
  lemma NeverClamps(opening: map<Wallet, int>, steps: seq<Step>, id: BetId)
    requires NonNegative(opening)
    ensures var s := Run(Start(opening), steps);
      id in s.bets && Open(s.bets[id].phase) ==>
        var ev := s.bets[id].ev;
        && ev.wallet in s.redis
        && Settle(s.redis[ev.wallet], ev.wager, ev.payout).escrowed == s.redis[ev.wallet].escrowed - ev.wager
        && Release(s.redis[ev.wallet], ev.wager).escrowed == s.redis[ev.wallet].escrowed - ev.wager
  {
    var s := Run(Start(opening), steps);
    ReachableInv(opening, steps);
    if id in s.bets && Open(s.bets[id].phase) {
      hide Run, Inv;
      ProtocolProofs.OpenWagerCovered(s, id);
    }
  }

  // ----- The skew alarm -----

  // The alarm of a deposit: its statement returned the balance of `recorded`, and the Redis script
  // then left the balance of `credited`.
  predicate Alarm(recorded: State, credited: State, w: Wallet)
    requires w in recorded.db.wallets && w in credited.redis
  {
    SkewFires(credited.redis[w].balance, recorded.db.wallets[w])
  }

  // What separates the two: the four gaps and the events recorded in between, minus the open escrow.
  ghost function Skew(recorded: State, credited: State, w: Wallet): int
  {
    SettledNotRecorded(credited, w) - RecordedNotSettled(credited, w)
    - DeductedNotRecorded(credited, w) - RecordedNotCredited(credited, w)
    + Formula(credited.db, w) - Formula(recorded.db, w)
    - Total(credited.bets, OpenWager(w))
  }

  lemma SkewInAnyStates(recorded: State, credited: State, w: Wallet)
    requires Inv(recorded) && Inv(credited) && recorded.opening == credited.opening && w in recorded.opening
    ensures w in recorded.db.wallets && w in credited.redis
    ensures credited.redis[w].balance - recorded.db.wallets[w] == Skew(recorded, credited, w)
  {
    hide FundsExact, BetsOk, BetLogOk, CashOk, ArrivalsOk, Solvent;
    StoreGap(credited, w);
  }

  lemma DepositWalletKnown(s: State, j: nat)
    requires Inv(s) && j < |s.depLog|
    ensures s.depLog[j].wallet in s.opening
  {
    hide EscrowExact, FundsExact, LedgerExact, BetsOk, BetLogOk, CashOk, Solvent;
  }

  lemma AlarmBetween(recorded: State, between: seq<Step>, tx: TxHash, w: Wallet)
    requires Inv(recorded) && w in recorded.opening
    ensures var credited := Next(Run(recorded, between), CreditDeposit(tx));
      && w in recorded.db.wallets && w in credited.redis
      && (Alarm(recorded, credited, w) <==>
            GATEWAY_UNIT < Skew(recorded, credited, w) || GATEWAY_UNIT < -Skew(recorded, credited, w))
  {
    hide Inv, Next, Run, Skew;
    var last := Run(recorded, between);
    ProtocolProofs.RunKeeps(recorded, between);
    ProtocolProofs.StepKeeps(last, CreditDeposit(tx));
    SameOpening(recorded, between);
    StepOpening(last, CreditDeposit(tx));
    SkewInAnyStates(recorded, Next(last, CreditDeposit(tx)), w);
  }

  // Deposit j is recorded after the run `before` and credited after the run `between`. The alarm that
  // the code evaluates there fires exactly if the skew is more than 1e-8 either way.
  lemma SkewMeaning(opening: map<Wallet, int>, before: seq<Step>, j: nat, between: seq<Step>)
    requires NonNegative(opening)
    requires var s := Run(Start(opening), before); j < |s.depLog| && NewDeposit(s.db, s.depLog[j])
    ensures var s := Run(Start(opening), before);
      var w, tx := s.depLog[j].wallet, s.depLog[j].tx;
      var recorded := Next(s, RecordDeposit(j));
      var credited := Next(Run(recorded, between), CreditDeposit(tx));
      && w in recorded.db.wallets && w in credited.redis
      && (Alarm(recorded, credited, w) <==>
            GATEWAY_UNIT < Skew(recorded, credited, w) || GATEWAY_UNIT < -Skew(recorded, credited, w))
  {
    hide Inv, Next, Skew, Alarm;
    var s := Run(Start(opening), before);
    ReachableInv(opening, before);
    hide Run;
    DepositWalletKnown(s, j);
    ProtocolProofs.StepKeeps(s, RecordDeposit(j));
    StepOpening(s, RecordDeposit(j));
    AlarmBetween(Next(s, RecordDeposit(j)), between, s.depLog[j].tx, s.depLog[j].wallet);
  }

  lemma DepositMeetsOpenBet(opening: map<Wallet, int>, ev: BetEvent, d: DepositEvent)
    requires NonNegative(opening) && ev.wallet in opening && ev.nonce == 1
    requires 0 <= ev.wager <= opening[ev.wallet] && 0 <= ev.payout
    requires d.wallet == ev.wallet && 0 < d.amount
    ensures var s := Next(Next(Start(opening), Accept(ev)), AnnounceDeposit(d));
      && s.bets == map[ev.id := Bet(ev, Escrowed)] && s.cash == map[] && s.arrivals == map[] && s.depLog == [d]
      && s.db == Db(opening, map[], map[], map[])
      && ev.wallet in s.redis && s.redis[ev.wallet] == Account(opening[ev.wallet] - ev.wager, ev.wager, 1)
  {
    hide ApplyBets, ApplyDeposit, ApplyWithdrawal;
  }

  lemma RecordAndCredit(s: State, d: DepositEvent)
    requires s.arrivals == map[] && s.depLog == [d] && s.db.deposits == map[]
    requires d.wallet in s.redis && d.wallet in s.db.wallets && 0 < d.amount
    ensures var recorded := Next(s, RecordDeposit(0));
      var credited := Next(recorded, CreditDeposit(d.tx));
      && d.wallet in recorded.db.wallets && recorded.db.wallets[d.wallet] == s.db.wallets[d.wallet] + d.amount
      && recorded.db.transactions == s.db.transactions && credited.db == recorded.db
      && credited.arrivals == map[d.tx := Arrival(d.wallet, d.amount, Credited)]
      && credited.bets == s.bets && credited.cash == s.cash
      && credited.redis == s.redis[d.wallet := Credit(s.redis[d.wallet], d.amount)]
  {
    hide ApplyBets, ApplyWithdrawal, Escrow, Settle, Release, Deduct;
  }

  // So it is not true that any skew signals a dropped write: a deposit that arrives while one bet is
  // in escrow fires the alarm, with no gap between the stores.
  lemma FalseAlarm(opening: map<Wallet, int>, ev: BetEvent, d: DepositEvent)
    requires NonNegative(opening) && ev.wallet in opening && ev.nonce == 1
    requires GATEWAY_UNIT < ev.wager <= opening[ev.wallet] && 0 <= ev.payout
    requires d.wallet == ev.wallet && 0 < d.amount
    ensures var w := ev.wallet;
      var recorded := Run(Start(opening), [Accept(ev), AnnounceDeposit(d), RecordDeposit(0)]);
      var credited := Run(recorded, [CreditDeposit(d.tx)]);
      && w in recorded.db.wallets && w in credited.redis && Alarm(recorded, credited, w)
      && SettledNotRecorded(credited, w) == 0 && RecordedNotSettled(credited, w) == 0
      && DeductedNotRecorded(credited, w) == 0 && RecordedNotCredited(credited, w) == 0
  {
    var w, s0 := ev.wallet, Start(opening);
    var s := Next(Next(s0, Accept(ev)), AnnounceDeposit(d));
    var recorded := Next(s, RecordDeposit(0));
    var credited := Next(recorded, CreditDeposit(d.tx));
    DepositMeetsOpenBet(opening, ev, d);
    RecordAndCredit(s, d);
    hide Next;
    RunThree(s0, Accept(ev), AnnounceDeposit(d), RecordDeposit(0));
    RunOne(recorded, CreditDeposit(d.tx));
    hide Run;
    TotalZero(credited.bets, SettledOnly(w, credited.db.transactions));
    TotalZero(credited.bets, RecordedOnly(w, credited.db.transactions));
    TotalZero(credited.arrivals, Uncredited(w));
  }

  // ----- One outcome per bet -----

  predicate Done(s: State, id: BetId) { id in s.bets && !Open(s.bets[id].phase) }

  // How often a run settles or releases bet id.
  function Outcomes(s: State, steps: seq<Step>, id: BetId): nat
    decreases |steps|
  {
    if steps == [] then 0
    else
      var acts := Enabled(s, steps[0]) && (steps[0] == SettleBet(id) || steps[0] == ReleaseBet(id));
      (if acts then 1 else 0) + Outcomes(Next(s, steps[0]), steps[1..], id)
  }

  lemma DoneStep(s: State, step: Step, id: BetId)
    ensures Done(Next(s, step), id)
       <==> Done(s, id) || (Enabled(s, step) && (step == SettleBet(id) || step == ReleaseBet(id)))
    ensures Done(s, id) ==> Next(s, step).bets[id] == s.bets[id] && !Enabled(s, SettleBet(id)) && !Enabled(s, ReleaseBet(id))
  {
    hide ApplyBets, ApplyDeposit, ApplyWithdrawal, Escrow, Settle, Release, Deduct, Credit, Put, Acct, Commit, NewDeposit, SetCash;
  }

  // Settled once, released once, or neither: never two outcomes, in any run.
  lemma {:induction false} OneOutcome(s: State, steps: seq<Step>, id: BetId)
    ensures Outcomes(s, steps, id) + (if Done(s, id) then 1 else 0) == if Done(Run(s, steps), id) then 1 else 0
    ensures Done(s, id) ==> Run(s, steps).bets[id] == s.bets[id]
    decreases |steps|
  {
    if steps != [] {
      DoneStep(s, steps[0], id);
      OneOutcome(Next(s, steps[0]), steps[1..], id);
    }
  }

  predicate Stuck(s: State, id: BetId)
  {
    id in s.bets && (s.bets[id].phase == Stranded || s.bets[id].phase == SettleFailed)
  }

  lemma StuckStep(s: State, step: Step, id: BetId)
    requires Stuck(s, id)
    ensures id in Next(s, step).bets && Next(s, step).bets[id] == s.bets[id]
  {
    hide ApplyBets, ApplyDeposit, ApplyWithdrawal, Escrow, Settle, Release, Deduct, Credit, Put, Acct, Commit, NewDeposit, SetCash;
  }

  // Nothing ever gives back the wager of a bet whose release or settlement was given up: it stays
  // inside the escrow of its wallet in every continuation.
  lemma {:induction false} StuckForever(s: State, steps: seq<Step>, id: BetId)
    requires Inv(s) && Stuck(s, id)
    ensures var t := Run(s, steps);
      && id in t.bets && t.bets[id] == s.bets[id]
      && s.bets[id].ev.wallet in t.redis && s.bets[id].ev.wager <= t.redis[s.bets[id].ev.wallet].escrowed
    decreases |steps|
  {
    hide Inv, Next;
    if steps == [] {
      ProtocolProofs.OpenWagerCovered(s, id);
    } else {
      ProtocolProofs.StepKeeps(s, steps[0]);
      StuckStep(s, steps[0], id);
      StuckForever(Next(s, steps[0]), steps[1..], id);
    }
  }

  // ----- Exactly once in the ledger -----

  // Below the resolved offset every event is recorded, and the wallets hold exactly the recorded
  // P&L, deposits and withdrawals on top of their opening balance.
  lemma ExactlyOnce(opening: map<Wallet, int>, steps: seq<Step>)
    requires NonNegative(opening)
    ensures var s := Run(Start(opening), steps);
      && s.resolved <= |s.betLog|
      && (forall j :: 0 <= j < s.resolved ==>
            s.betLog[j].id in s.db.transactions && s.db.transactions[s.betLog[j].id] == s.betLog[j])
      && s.db.wallets.Keys == opening.Keys
      && (forall w :: w in opening ==> s.db.wallets[w] == opening[w] + Formula(s.db, w))
  {
    var s := Run(Start(opening), steps);
    ReachableInv(opening, steps);
    SameOpening(Start(opening), steps);
    assert s.opening == opening;
    hide Run, EscrowExact, FundsExact, CashOk, ArrivalsOk, Solvent;
    forall j | 0 <= j < s.resolved
      ensures s.db.transactions[s.betLog[j].id] == s.betLog[j]
    {
      assert KnownBet(s.bets, s.betLog[j]);
      assert KnownBet(s.bets, s.db.transactions[s.betLog[j].id]);
    }
  }

  // ----- Can Postgres refuse a withdrawal that was paid? -----

  // What is deducted and what is recorded but not credited are never negative.
  lemma HeldTerms(s: State, w: Wallet)
    requires Inv(s)
    ensures 0 <= RecordedNotCredited(s, w)
    ensures forall id :: id in s.cash && s.cash[id].wallet == w && s.cash[id].phase == Requested && id !in s.db.withdrawals ==>
      s.cash[id].amount <= DeductedNotRecorded(s, w)
  {
    hide EscrowExact, FundsExact, LedgerExact, BetsOk, BetLogOk, Solvent, KnownPayout;
    TotalBound(s.arrivals, Uncredited(w));
    var held := HeldOnly(w, s.db.withdrawals);
    TotalBound(s.cash, held);
    forall id | id in s.cash && s.cash[id].wallet == w && s.cash[id].phase == Requested && id !in s.db.withdrawals
      ensures s.cash[id].amount <= DeductedNotRecorded(s, w)
    {
      assert held(id, s.cash[id]) == s.cash[id].amount;
    }
  }

  // The first completion of a paid withdrawal trips the balance CHECK exactly when winnings settled
  // in Redis but missing in Postgres exceed everything the wallet still has beside this withdrawal.
  lemma PaidWithdrawalAccepted(opening: map<Wallet, int>, steps: seq<Step>, j: nat)
    requires NonNegative(opening)
    requires j < |Run(Start(opening), steps).payLog|
    ensures var s := Run(Start(opening), steps);
      var ev := s.payLog[j];
      var w, ahead := ev.wallet, SettledNotRecorded(s, ev.wallet) - RecordedNotSettled(s, ev.wallet);
      && w in s.redis
      && (ev.id !in s.db.withdrawals && !PaidHash(s.db, ev.tx) ==>
            && 0 <= RecordedNotCredited(s, w) && ev.amount <= DeductedNotRecorded(s, w)
            && (ApplyWithdrawal(s.db, ev).Some? <==>
                  ahead <= s.redis[w].balance + s.redis[w].escrowed + RecordedNotCredited(s, w)
                           + (DeductedNotRecorded(s, w) - ev.amount)))
  {
    var s := Run(Start(opening), steps);
    ReachableInv(opening, steps);
    SameOpening(Start(opening), steps);
    PaidInAnyState(s, j) by { hide Run; }
  }

  lemma PaidInAnyState(s: State, j: nat)
    requires Inv(s) && j < |s.payLog|
    ensures var ev := s.payLog[j];
      var w, ahead := ev.wallet, SettledNotRecorded(s, ev.wallet) - RecordedNotSettled(s, ev.wallet);
      && w in s.redis
      && (ev.id !in s.db.withdrawals && !PaidHash(s.db, ev.tx) ==>
            && 0 <= RecordedNotCredited(s, w) && ev.amount <= DeductedNotRecorded(s, w)
            && (ApplyWithdrawal(s.db, ev).Some? <==>
                  ahead <= s.redis[w].balance + s.redis[w].escrowed + RecordedNotCredited(s, w)
                           + (DeductedNotRecorded(s, w) - ev.amount)))
  {
    hide EscrowExact, FundsExact, LedgerExact, BetsOk, BetLogOk, Solvent, ArrivalsOk;
    var ev := s.payLog[j];
    assert KnownPayout(s.cash, ev);
    StoreGap(s, ev.wallet);
    HeldTerms(s, ev.wallet);
  }

  // ----- A deposit whose Redis credit failed -----

  // The row makes every redelivery a duplicate, so the credit is never made up for: the wallet's
  // Redis side stays short by the amount.
  lemma {:induction false} DroppedForever(s: State, steps: seq<Step>, h: TxHash)
    requires Inv(s) && h in s.arrivals && s.arrivals[h].phase == Dropped
    ensures var t := Run(s, steps);
      && h in t.arrivals && t.arrivals[h] == s.arrivals[h]
      && s.arrivals[h].amount <= RecordedNotCredited(t, s.arrivals[h].wallet)
    decreases |steps|
  {
    if steps == [] {
      DroppedCounts(s, h);
    } else {
      hide EscrowExact, FundsExact, LedgerExact, BetsOk, BetLogOk, CashOk, Solvent;
      ProtocolProofs.StepKeeps(s, steps[0]);
      DroppedStep(s, steps[0], h);
      DroppedForever(Next(s, steps[0]), steps[1..], h);
    }
  }

  lemma DroppedStep(s: State, step: Step, h: TxHash)
    requires s.arrivals.Keys == s.db.deposits.Keys && h in s.arrivals && s.arrivals[h].phase == Dropped
    ensures h in Next(s, step).arrivals && Next(s, step).arrivals[h] == s.arrivals[h]
  {
    if step.RecordDeposit? || step.CreditDeposit? || step.CreditLost? {
      hide ApplyBets, ApplyDeposit, ApplyWithdrawal, Put, Acct, Commit;
    } else {
      OtherStepArrivals(s, step);
    }
  }

  lemma OtherStepArrivals(s: State, step: Step)
    requires !step.RecordDeposit? && !step.CreditDeposit? && !step.CreditLost?
    ensures Next(s, step).arrivals == s.arrivals
  {
    hide ApplyBets, ApplyDeposit, ApplyWithdrawal, Put, Acct, Commit, Escrow, Settle, Release, Deduct, Credit;
  }

  lemma DroppedCounts(s: State, h: TxHash)
    requires Inv(s) && h in s.arrivals && s.arrivals[h].phase == Dropped
    ensures s.arrivals[h].amount <= RecordedNotCredited(s, s.arrivals[h].wallet)
  {
    hide EscrowExact, FundsExact, LedgerExact, BetsOk, BetLogOk, CashOk, Solvent;
    var w := s.arrivals[h].wallet;
    TotalBound(s.arrivals, Uncredited(w));
    assert Uncredited(w)(h, s.arrivals[h]) == s.arrivals[h].amount;
  }
}
