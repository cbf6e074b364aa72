/** The two-store ledger as one step-based protocol: Redis accounts changed by atomic scripts,
    Postgres tables changed by idempotent handlers, and the Kafka logs between them.

    Any sequence of steps is a run; a step that is not enabled changes nothing. A crash, a redelivery
    or an interleaving of requests is just another order of the same steps. */
module Protocol {
  import opened Domain
  import opened Redis
  import opened Ledger
  import opened Totals

  // A bet after its escrow script accepted it. `Stranded` and `SettleFailed` are final, with the
  // wager still in escrow.
  datatype Phase = Escrowed | Resolved | Releasing | Settled | Released | SettleFailed | Stranded

  // The event is fixed when the bet is accepted: payout and result follow from the seeds.
  datatype Bet = Bet(ev: BetEvent, phase: Phase)

  datatype CashPhase = Deducted | Requested | Refunding | Refunded | RefundFailed

  datatype Cash = Cash(wallet: Wallet, amount: int, phase: CashPhase)

  // A recorded deposit and what became of its Redis credit.
  datatype CreditPhase = Pending | Credited | Dropped

  datatype Arrival = Arrival(wallet: Wallet, amount: int, phase: CreditPhase)

  datatype State = State(
    opening: map<Wallet, int>,
    redis: map<Wallet, Account>,
    db: Db,
    bets: map<BetId, Bet>,
    outbox: set<BetId>,
    betLog: seq<BetEvent>,
    resolved: nat,
    cash: map<WithdrawalId, Cash>,
    payLog: seq<WithdrawalEvent>,
    depLog: seq<DepositEvent>,
    arrivals: map<TxHash, Arrival>)

  datatype Step =
    | Accept(ev: BetEvent)
    | Resolve(bet: BetId)
    | Abandon(bet: BetId)
    | Strand(bet: BetId)
    | SettleBet(bet: BetId)
    | SettleExhausted(bet: BetId)
    | ReleaseBet(bet: BetId)
    | ReleaseExhausted(bet: BetId)
    | Publish(bet: BetId)
    | PublishLost(bet: BetId)
    | ConsumeBets(lo: nat, hi: nat, acked: bool)
    | DeductCash(id: WithdrawalId, wallet: Wallet, amount: int)
    | RequestPayout(id: WithdrawalId)
    | RequestFailed(id: WithdrawalId)
    | Refund(id: WithdrawalId)
    | RefundLost(id: WithdrawalId)
    | PayOut(id: WithdrawalId, tx: TxHash)
    | ConsumePayout(j: nat)
    | AnnounceDeposit(dep: DepositEvent)
    | RecordDeposit(j: nat)
    | CreditDeposit(tx: TxHash)
    | CreditLost(tx: TxHash)

  // Hydrated Redis keys and wallet rows that agree, nothing in flight.
  function Start(opening: map<Wallet, int>): State
  {
    State(opening, map w | w in opening :: Account(opening[w], 0, 0), Db(opening, map[], map[], map[]),
          map[], {}, [], 0, map[], [], [], map[])
  }

  predicate InPhase(s: State, id: BetId, p: Phase) { id in s.bets && s.bets[id].phase == p }

  predicate CashInPhase(s: State, id: WithdrawalId, p: CashPhase) { id in s.cash && s.cash[id].phase == p }

  predicate Enabled(s: State, step: Step)
  {
    match step
    case Accept(ev) =>
      && ev.id !in s.bets && ev.wallet in s.redis
      && 0 <= ev.wager && 0 <= ev.payout
      && CanEscrow(s.redis[ev.wallet], ev.wager)
      && ev.nonce == s.redis[ev.wallet].nonce + 1
    case Resolve(id) => InPhase(s, id, Escrowed)
    case Abandon(id) => InPhase(s, id, Escrowed)
    case Strand(id) => InPhase(s, id, Escrowed)
    case SettleBet(id) => InPhase(s, id, Resolved)
    case SettleExhausted(id) => InPhase(s, id, Resolved)
    case ReleaseBet(id) => InPhase(s, id, Releasing)
    case ReleaseExhausted(id) => InPhase(s, id, Releasing)
    case Publish(id) => id in s.outbox && id in s.bets
    case PublishLost(id) => id in s.outbox
    case ConsumeBets(lo, hi, _) => lo <= s.resolved && lo <= hi <= |s.betLog|
    case DeductCash(id, w, amount) => id !in s.cash && w in s.redis && 0 < amount <= s.redis[w].balance
    case RequestPayout(id) => CashInPhase(s, id, Deducted)
    case RequestFailed(id) => CashInPhase(s, id, Deducted)
    case Refund(id) => CashInPhase(s, id, Refunding)
    case RefundLost(id) => CashInPhase(s, id, Refunding)
    case PayOut(id, _) => CashInPhase(s, id, Requested) && s.cash[id].wallet.chain == Ethereum
    case ConsumePayout(j) => j < |s.payLog|
    case AnnounceDeposit(ev) => ev.wallet in s.redis
    case RecordDeposit(j) => j < |s.depLog|
    case CreditDeposit(tx) => tx in s.arrivals && s.arrivals[tx].phase == Pending
    case CreditLost(tx) => tx in s.arrivals && s.arrivals[tx].phase == Pending
  }

  function SetPhase(bets: map<BetId, Bet>, id: BetId, p: Phase): map<BetId, Bet>
    requires id in bets
  {
    bets[id := bets[id].(phase := p)]
  }

  function SetCash(cash: map<WithdrawalId, Cash>, id: WithdrawalId, p: CashPhase): map<WithdrawalId, Cash>
    requires id in cash
  {
    cash[id := cash[id].(phase := p)]
  }

  // Run a script on one account.
  function Put(redis: map<Wallet, Account>, w: Wallet, a: Account): map<Wallet, Account>
  {
    if w in redis then redis[w := a] else redis
  }

  function Acct(redis: map<Wallet, Account>, w: Wallet): Account
  {
    if w in redis then redis[w] else Account(0, 0, 0)
  }

  function Commit(db: Db, result: Option<Db>): Db
  {
    if result.Some? then result.value else db
  }

  function Do(s: State, step: Step): State
    requires Enabled(s, step)
  {
    match step
    case Accept(ev) =>
      s.(redis := Put(s.redis, ev.wallet, Escrow(s.redis[ev.wallet], ev.wager)),
         bets := s.bets[ev.id := Bet(ev, Escrowed)])
    case Resolve(id) =>
      s.(bets := SetPhase(s.bets, id, Resolved), outbox := s.outbox + {id})
    case Abandon(id) => s.(bets := SetPhase(s.bets, id, Releasing))
    case Strand(id) => s.(bets := SetPhase(s.bets, id, Stranded))
    case SettleBet(id) =>
      var ev := s.bets[id].ev;
      s.(redis := Put(s.redis, ev.wallet, Settle(Acct(s.redis, ev.wallet), ev.wager, ev.payout)),
         bets := SetPhase(s.bets, id, Settled))
    case SettleExhausted(id) => s.(bets := SetPhase(s.bets, id, SettleFailed))
    case ReleaseBet(id) =>
      var ev := s.bets[id].ev;
      s.(redis := Put(s.redis, ev.wallet, Release(Acct(s.redis, ev.wallet), ev.wager)),
         bets := SetPhase(s.bets, id, Released))
    case ReleaseExhausted(id) => s.(bets := SetPhase(s.bets, id, Stranded))
    case Publish(id) => s.(outbox := s.outbox - {id}, betLog := s.betLog + [s.bets[id].ev])
    case PublishLost(id) => s.(outbox := s.outbox - {id})
    case ConsumeBets(lo, hi, acked) =>
      var result := ApplyBets(s.db, s.betLog[lo..hi]);
      s.(db := Commit(s.db, result),
         resolved := if result.Some? && acked && s.resolved < hi then hi else s.resolved)
    case DeductCash(id, w, amount) =>
      s.(redis := Put(s.redis, w, Deduct(s.redis[w], amount)), cash := s.cash[id := Cash(w, amount, Deducted)])
    case RequestPayout(id) => s.(cash := SetCash(s.cash, id, Requested))
    case RequestFailed(id) => s.(cash := SetCash(s.cash, id, Refunding))
    case Refund(id) =>
      var c := s.cash[id];
      s.(redis := Put(s.redis, c.wallet, Credit(Acct(s.redis, c.wallet), c.amount)), cash := SetCash(s.cash, id, Refunded))
    case RefundLost(id) => s.(cash := SetCash(s.cash, id, RefundFailed))
    case PayOut(id, tx) =>
      s.(payLog := s.payLog + [WithdrawalEvent(id, s.cash[id].wallet, s.cash[id].amount, tx)])
    case ConsumePayout(j) =>
      s.(db := Commit(s.db, ApplyWithdrawal(s.db, s.payLog[j])))
    case AnnounceDeposit(ev) => s.(depLog := s.depLog + [ev])
    case RecordDeposit(j) =>
      var ev := s.depLog[j];
      s.(db := Commit(s.db, ApplyDeposit(s.db, ev)),
         arrivals := if NewDeposit(s.db, ev) then s.arrivals[ev.tx := Arrival(ev.wallet, ev.amount, Pending)] else s.arrivals)
    case CreditDeposit(tx) =>
      var a := s.arrivals[tx];
      s.(redis := Put(s.redis, a.wallet, Credit(Acct(s.redis, a.wallet), a.amount)),
         arrivals := s.arrivals[tx := a.(phase := Credited)])
    case CreditLost(tx) => s.(arrivals := s.arrivals[tx := s.arrivals[tx].(phase := Dropped)])
  }

  function Next(s: State, step: Step): State
  {
    if Enabled(s, step) then Do(s, step) else s
  }

  function Run(s: State, steps: seq<Step>): State
    decreases |steps|
  {
    if steps == [] then s else Run(Next(s, steps[0]), steps[1..])
  }

  lemma RunOne(s: State, a: Step)
    ensures Run(s, [a]) == Next(s, a)
  {
    hide Next;
    assert Run(Next(s, a), [a][1..]) == Next(s, a);
  }

  lemma RunTwo(s: State, a: Step, b: Step)
    ensures Run(s, [a, b]) == Next(Next(s, a), b)
  {
    hide Next;
    assert [a, b][1..] == [b];
    var t := Next(s, a);
    RunOne(t, b);
  }

  lemma RunThree(s: State, a: Step, b: Step, c: Step)
    ensures Run(s, [a, b, c]) == Next(Next(Next(s, a), b), c)
  {
    hide Next;
    assert [a, b, c][1..] == [b, c];
    RunTwo(Next(s, a), b, c);
  }

  lemma RunFour(s: State, a: Step, b: Step, c: Step, d: Step)
    ensures Run(s, [a, b, c, d]) == Next(Next(Next(Next(s, a), b), c), d)
  {
    hide Next;
    assert [a, b, c, d][1..] == [b, c, d];
    RunThree(Next(s, a), b, c, d);
  }

  // ----- Sums over the records of one wallet -----

  predicate Open(p: Phase) { p != Settled && p != Released }

  // The bets whose event may reach Kafka.
  predicate Played(p: Phase) { p == Resolved || p == Settled || p == SettleFailed }

  ghost function OpenWager(w: Wallet): (BetId, Bet) -> int
  {
    (id: BetId, b: Bet) => if b.ev.wallet == w && Open(b.phase) then b.ev.wager else 0
  }

  ghost function SettledPnl(w: Wallet): (BetId, Bet) -> int
  {
    (id: BetId, b: Bet) => if b.ev.wallet == w && b.phase == Settled then Pnl(b.ev) else 0
  }

  ghost function HeldCash(w: Wallet): (WithdrawalId, Cash) -> int
  {
    (id: WithdrawalId, c: Cash) => if c.wallet == w && c.phase != Refunded then c.amount else 0
  }

  ghost function CreditedAmount(w: Wallet): (TxHash, Arrival) -> int
  {
    (h: TxHash, a: Arrival) => if a.wallet == w && a.phase == Credited then a.amount else 0
  }

  // The four ways in which the two stores can differ.
  ghost function SettledOnly(w: Wallet, transactions: map<BetId, BetEvent>): (BetId, Bet) -> int
  {
    (id: BetId, b: Bet) => if b.ev.wallet == w && b.phase == Settled && id !in transactions then Pnl(b.ev) else 0
  }

  ghost function RecordedOnly(w: Wallet, transactions: map<BetId, BetEvent>): (BetId, Bet) -> int
  {
    (id: BetId, b: Bet) => if b.ev.wallet == w && b.phase != Settled && id in transactions then Pnl(b.ev) else 0
  }

  ghost function HeldOnly(w: Wallet, withdrawals: map<WithdrawalId, WithdrawalEvent>): (WithdrawalId, Cash) -> int
  {
    (id: WithdrawalId, c: Cash) => if c.wallet == w && c.phase != Refunded && id !in withdrawals then c.amount else 0
  }

  ghost function Uncredited(w: Wallet): (TxHash, Arrival) -> int
  {
    (h: TxHash, a: Arrival) => if a.wallet == w && a.phase != Credited then a.amount else 0
  }

  ghost function SettledNotRecorded(s: State, w: Wallet): int { Total(s.bets, SettledOnly(w, s.db.transactions)) }

  ghost function RecordedNotSettled(s: State, w: Wallet): int { Total(s.bets, RecordedOnly(w, s.db.transactions)) }

  ghost function DeductedNotRecorded(s: State, w: Wallet): int { Total(s.cash, HeldOnly(w, s.db.withdrawals)) }

  ghost function RecordedNotCredited(s: State, w: Wallet): int { Total(s.arrivals, Uncredited(w)) }

  // ----- The invariant, one part per group of fields -----

  predicate Hydrated(opening: map<Wallet, int>, redis: map<Wallet, Account>, db: Db)
  {
    redis.Keys == opening.Keys && db.wallets.Keys == opening.Keys
  }

  predicate Solvent(redis: map<Wallet, Account>)
  {
    forall w :: w in redis ==> 0 <= redis[w].balance && 0 <= redis[w].escrowed
  }

  ghost predicate EscrowExact(redis: map<Wallet, Account>, bets: map<BetId, Bet>)
  {
    forall w :: w in redis ==> redis[w].escrowed == Total(bets, OpenWager(w))
  }

  ghost predicate FundsExact(opening: map<Wallet, int>, redis: map<Wallet, Account>, bets: map<BetId, Bet>,
                             cash: map<WithdrawalId, Cash>, arrivals: map<TxHash, Arrival>)
  {
    forall w :: w in redis && w in opening ==>
      redis[w].balance + redis[w].escrowed
      == opening[w] + Total(bets, SettledPnl(w)) - Total(cash, HeldCash(w)) + Total(arrivals, CreditedAmount(w))
  }

  ghost predicate LedgerExact(opening: map<Wallet, int>, db: Db)
  {
    && NonNegative(db.wallets)
    && forall w :: w in db.wallets && w in opening ==> db.wallets[w] == opening[w] + Formula(db, w)
  }

  predicate BetsOk(opening: map<Wallet, int>, bets: map<BetId, Bet>, outbox: set<BetId>)
  {
    && (forall id :: id in bets ==> bets[id].ev.id == id && bets[id].ev.wallet in opening
                                    && 0 <= bets[id].ev.wager && 0 <= bets[id].ev.payout)
    && (forall id :: id in outbox ==> id in bets && Played(bets[id].phase))
  }

  predicate KnownBet(bets: map<BetId, Bet>, ev: BetEvent)
  {
    ev.id in bets && bets[ev.id].ev == ev && Played(bets[ev.id].phase)
  }

  predicate BetLogOk(bets: map<BetId, Bet>, log: seq<BetEvent>, transactions: map<BetId, BetEvent>, resolved: nat)
  {
    && (forall j :: 0 <= j < |log| ==> KnownBet(bets, log[j]))
    && (forall id :: id in transactions ==> transactions[id].id == id && KnownBet(bets, transactions[id]))
    && resolved <= |log|
    && (forall j :: 0 <= j < resolved ==> log[j].id in transactions)
  }

  predicate KnownPayout(cash: map<WithdrawalId, Cash>, ev: WithdrawalEvent)
  {
    ev.id in cash && cash[ev.id] == Cash(ev.wallet, ev.amount, Requested)
  }

  predicate CashOk(opening: map<Wallet, int>, cash: map<WithdrawalId, Cash>, log: seq<WithdrawalEvent>,
                   withdrawals: map<WithdrawalId, WithdrawalEvent>)
  {
    && (forall id :: id in cash ==> cash[id].wallet in opening && 0 < cash[id].amount)
    && (forall j :: 0 <= j < |log| ==> KnownPayout(cash, log[j]))
    && (forall id :: id in withdrawals ==> withdrawals[id].id == id && KnownPayout(cash, withdrawals[id]))
  }

  predicate ArrivalsOk(opening: map<Wallet, int>, arrivals: map<TxHash, Arrival>, log: seq<DepositEvent>,
                       deposits: map<TxHash, DepositEvent>)
  {
    && arrivals.Keys == deposits.Keys
    && (forall j :: 0 <= j < |log| ==> log[j].wallet in opening)
    && (forall h :: h in deposits ==> deposits[h].tx == h && deposits[h].wallet in opening && 0 < deposits[h].amount
                                      && arrivals[h].wallet == deposits[h].wallet && arrivals[h].amount == deposits[h].amount)
  }

  ghost predicate Inv(s: State)
  {
    && Hydrated(s.opening, s.redis, s.db)
    && Solvent(s.redis)
    && EscrowExact(s.redis, s.bets)
    && FundsExact(s.opening, s.redis, s.bets, s.cash, s.arrivals)
    && LedgerExact(s.opening, s.db)
    && BetsOk(s.opening, s.bets, s.outbox)
    && BetLogOk(s.bets, s.betLog, s.db.transactions, s.resolved)
    && CashOk(s.opening, s.cash, s.payLog, s.db.withdrawals)
    && ArrivalsOk(s.opening, s.arrivals, s.depLog, s.db.deposits)
  }
}
