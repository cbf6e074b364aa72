/** The gateway's handling of one bet and of one withdrawal: awaited scripts in order, bounded retry
    loops, and the error exits. The fire-and-forget calls run to their end; what fails is a parameter. */
module Gateway {
  import opened Domain
  import opened Redis
  import Odds
  import Ledger

  datatype BetRequest = BetRequest(wallet: Wallet, wager: real, target: int, direction: Odds.Direction)

  // The BetRequestSchema.
  predicate ValidRequest(r: BetRequest) { 0.0 < r.wager <= 50.0 && Odds.ValidTarget(r.target) }

  // What the services behind the handler answer. `Prefix(None)` is a failing provably fair worker;
  // the retry oracles tell whether attempt n of a script call succeeds, `publishWorks` and `reportWorks`
  // whether the bet's event and the dead letter entry of a stuck one reach Kafka.
  datatype SeedRead = SeedFound | SeedMissing | SeedThrew

  datatype BetEnv = BetEnv(limiterAllows: bool, escrowWorks: bool, seedRead: SeedRead, prefix: Option<nat>,
                           releaseWorks: int -> bool, settleWorks: int -> bool, publishWorks: bool,
                           reportWorks: bool, betId: BetId)

  datatype Outcome =
    | Refused             // nothing happened
    | Insufficient        // the escrow script said no
    | ReleasedBack        // escrowed, and released again
    | Stranded            // escrowed, and never released
    | Played(settled: bool, published: bool)

  function Units(amount: real): int { Odds.ToFixed8(amount) * GATEWAY_UNIT }

  function EventOf(r: BetRequest, edge: real, prefix: nat, id: BetId, nonce: int): BetEvent
  {
    var result := Odds.GameResult(prefix);
    BetEvent(id, r.wallet, Units(r.wager),
             Odds.Payout(r.wager, r.target, r.direction, edge, result) * GATEWAY_UNIT, result, nonce)
  }

  // ----- What a bet must come to, in terms of the request alone -----

  // `stored` units of 1e-18 are `amount` coins rounded to the nearest 1e-8.
  predicate RoundsTo(amount: real, stored: int)
  {
    var units := stored / 10_000_000_000;
    stored == units * 10_000_000_000 && -0.5 <= units as real - amount * 100000000.0 <= 0.5
  }

  // The win chance in percent: the results below the target, or those above it.
  function PercentChance(r: BetRequest): int { if r.direction.Under? then r.target - 1 else 100 - r.target }

  // A loser is paid nothing. A winner is paid, in whole units of 1e-8, the wager times what is left of
  // 100 after the edge, over the win chance, to the nearest unit.
  predicate FairPayout(r: BetRequest, edge: real, result: int, stored: int)
  {
    var won := (r.direction == Odds.Under && result < r.target) || (r.direction == Odds.Over && r.target < result);
    var units, chance := stored / 10_000_000_000, PercentChance(r) as real;
    && stored == units * 10_000_000_000
    && (if won
        then -0.5 * chance <= units as real * chance - r.wager * 100000000.0 * (100.0 - edge) <= 0.5 * chance
        else stored == 0)
  }

  // The event of bet `id`, the nonce-th of its wallet, with a fair payout for the hash prefix.
  predicate FairEvent(r: BetRequest, edge: real, prefix: nat, id: BetId, nonce: int, ev: BetEvent)
  {
    && ev.id == id && ev.wallet == r.wallet && ev.nonce == nonce
    && RoundsTo(r.wager, ev.wager)
    && 1 <= ev.result <= 100 && (prefix + 1 - ev.result) % 100 == 0
    && FairPayout(r, edge, ev.result, ev.payout)
  }

  lemma UnitsRound(x: real)
    ensures RoundsTo(x, Units(x))
  {
    var u := Odds.ToFixed8(x);
    assert u * GATEWAY_UNIT / 10_000_000_000 == u;
  }

  lemma ScaledRounding(c: real, u: real, ideal: real, t: real)
    requires 0.0 <= c && -0.5 <= u - ideal <= 0.5 && ideal * c == t
    ensures -0.5 * c <= u * c - t <= 0.5 * c
  {
    assert 0.0 <= (u - ideal + 0.5) * c;
    assert 0.0 <= (ideal - u + 0.5) * c;
    assert (u - ideal + 0.5) * c == u * c - ideal * c + 0.5 * c;
    assert (ideal - u + 0.5) * c == ideal * c - u * c + 0.5 * c;
  }

  lemma RoundedPayout(r: BetRequest, edge: real)
    ensures var units := Odds.ToFixed8(r.wager * Odds.Multiplier(r.target, r.direction, edge));
      -0.5 <= units as real - Odds.IdealPayout(r.wager, r.target, r.direction, edge) <= 0.5
  {
    hide Odds.Multiplier;
  }

  lemma WinnerRounding(r: BetRequest, edge: real, units: int)
    requires ValidRequest(r) && units == Odds.ToFixed8(r.wager * Odds.Multiplier(r.target, r.direction, edge))
    ensures var chance := PercentChance(r) as real;
      -0.5 * chance <= units as real * chance - r.wager * 100000000.0 * (100.0 - edge) <= 0.5 * chance
  {
    assert 0 <= PercentChance(r) == Odds.WinChance(r.target, r.direction);
    hide Odds.IdealPayout, Odds.Multiplier, Odds.WinChance, Odds.ToFixed8, PercentChance;
    RoundedPayout(r, edge);
    Odds.PayoutTimesChance(r.wager, r.target, r.direction, edge);
    var t := Odds.Stake(r.wager) * (100.0 - edge);
    assert t == r.wager * 100000000.0 * (100.0 - edge);
    hide Odds.Stake;
    ScaledRounding(PercentChance(r) as real, units as real, Odds.IdealPayout(r.wager, r.target, r.direction, edge), t);
  }

  lemma PayoutIsFair(r: BetRequest, edge: real, result: int)
    requires ValidRequest(r)
    ensures FairPayout(r, edge, result, Odds.Payout(r.wager, r.target, r.direction, edge, result) * GATEWAY_UNIT)
  {
    var units := Odds.Payout(r.wager, r.target, r.direction, edge, result);
    assert units * GATEWAY_UNIT / 10_000_000_000 == units;
    if Odds.IsWin(result, r.target, r.direction) {
      WinnerRounding(r, edge, units);
      hide Odds.Payout, PercentChance;
    }
  }

  lemma EventIsFair(r: BetRequest, edge: real, prefix: nat, id: BetId, nonce: int)
    requires ValidRequest(r)
    ensures FairEvent(r, edge, prefix, id, nonce, EventOf(r, edge, prefix, id, nonce))
  {
    UnitsRound(r.wager);
    Odds.ResultExactly(prefix, Odds.GameResult(prefix));
    PayoutIsFair(r, edge, Odds.GameResult(prefix));
    hide RoundsTo, FairPayout;
  }

  // The first successful attempt of a retry loop, if there is one.
  predicate SucceedsWithin(works: int -> bool, maxAttempts: int)
  {
    exists n :: 1 <= n <= maxAttempts && works(n)
  }

  // What the outcome must be, whatever the retry loops do inside.
  function Expected(a: Account, r: BetRequest, env: BetEnv, maxAttempts: int): Outcome
  {
    if !env.limiterAllows || !env.escrowWorks then Refused
    else if env.seedRead.SeedThrew? then
      if CanEscrow(a, Units(r.wager)) then Stranded else Refused
    else if env.seedRead.SeedMissing? && !CanEscrow(a, Units(r.wager)) then Refused
    else if !CanEscrow(a, Units(r.wager)) then Insufficient
    else if env.seedRead.SeedMissing? || env.prefix.None? then
      if SucceedsWithin(env.releaseWorks, maxAttempts) then ReleasedBack else Stranded
    else Played(SucceedsWithin(env.settleWorks, maxAttempts), env.publishWorks)
  }

  function Effect(a: Account, r: BetRequest, edge: real, env: BetEnv, o: Outcome): Account
  {
    var wager := Units(r.wager);
    match o
    case Refused => a
    case Insufficient => a
    case ReleasedBack => Release(Escrow(a, wager), wager)
    case Stranded => Escrow(a, wager)
    case Played(settled, _) =>
      if settled && env.prefix.Some?
      then Settle(Escrow(a, wager), wager, EventOf(r, edge, env.prefix.value, env.betId, a.nonce + 1).payout)
      else Escrow(a, wager)
  }

  const NO_EVENT: BetEvent := BetEvent(0, Wallet(0, Ethereum, ETH), 0, 0, 0, 0)

  class BetHandler {
    const redis: RedisStore
    const houseEdgePct: real
    const creditMaxAttempts: int
    var betLog: seq<BetEvent>            // the BetResolved topic
    var stuckLog: seq<(Wallet, int, int)> // the escrow-stuck dead letter topic

    constructor (redis: RedisStore, houseEdgePct: real, creditMaxAttempts: int)
      ensures this.redis == redis && this.houseEdgePct == houseEdgePct && this.creditMaxAttempts == creditMaxAttempts
      ensures betLog == [] && stuckLog == []
    {
      this.redis, this.houseEdgePct, this.creditMaxAttempts := redis, houseEdgePct, creditMaxAttempts;
      betLog, stuckLog := [], [];
    }

    method ReleaseEscrowWithRetry(w: Wallet, wager: int, works: int -> bool) returns (released: bool, attempts: nat)
      modifies redis
      ensures released <==> SucceedsWithin(works, creditMaxAttempts)
      ensures attempts <= Max(0, creditMaxAttempts)
      ensures redis.Acct(w) == if released then Release(old(redis.Acct(w)), wager) else old(redis.Acct(w))
      ensures redis.OnlyTouches(w)
    {
      attempts := 0;
      while attempts < creditMaxAttempts
        invariant attempts <= Max(0, creditMaxAttempts)
        invariant forall n :: 1 <= n <= attempts ==> !works(n)
        invariant redis.Acct(w) == old(redis.Acct(w)) && redis.OnlyTouches(w)
      {
        attempts := attempts + 1;
        if works(attempts) {
          redis.AtomicReleaseEscrow(w, wager);
          return true, attempts;
        }
      }
      return false, attempts;
    }

    // Exhausted retries are reported, unless no attempt was allowed at all or the report itself fails.
    method SettleBetAsync(w: Wallet, wager: int, payout: int, works: int -> bool, reportWorks: bool)
      returns (settled: bool, attempts: nat)
      modifies redis, this`stuckLog
      ensures settled <==> SucceedsWithin(works, creditMaxAttempts)
      ensures attempts <= Max(0, creditMaxAttempts)
      ensures redis.Acct(w) == if settled then Settle(old(redis.Acct(w)), wager, payout) else old(redis.Acct(w))
      ensures redis.OnlyTouches(w)
      ensures stuckLog == if settled || creditMaxAttempts < 1 || !reportWorks then old(stuckLog)
                          else old(stuckLog) + [(w, wager, payout)]
    {
      attempts := 0;
      while attempts < creditMaxAttempts
        invariant attempts <= Max(0, creditMaxAttempts)
        invariant forall n :: 1 <= n <= attempts ==> !works(n)
        invariant redis.Acct(w) == old(redis.Acct(w)) && redis.OnlyTouches(w)
        invariant stuckLog == old(stuckLog)
      {
        attempts := attempts + 1;
        if works(attempts) {
          redis.AtomicSettleBet(w, wager, payout);
          return true, attempts;
        }
      }
      if 1 <= creditMaxAttempts && reportWorks {
        stuckLog := stuckLog + [(w, wager, payout)];
      }
      return false, attempts;
    }

    // `ev` is the event of a played bet.
    method HandleBet(r: BetRequest, env: BetEnv) returns (o: Outcome, ghost ev: BetEvent)
      requires ValidRequest(r)
      modifies this, redis
      ensures o == Expected(old(redis.Acct(r.wallet)), r, env, creditMaxAttempts)
      ensures redis.Acct(r.wallet) == Effect(old(redis.Acct(r.wallet)), r, houseEdgePct, env, o)
      ensures redis.OnlyTouches(r.wallet)
      ensures o.Played? ==>
        && FairEvent(r, houseEdgePct, env.prefix.value, env.betId, old(redis.Acct(r.wallet)).nonce + 1, ev)
        && ev == EventOf(r, houseEdgePct, env.prefix.value, env.betId, old(redis.Acct(r.wallet)).nonce + 1)
        && redis.Acct(r.wallet).balance
             == old(redis.Acct(r.wallet)).balance - ev.wager + (if o.settled then ev.payout else 0)
      ensures betLog == old(betLog) + (if o.Played? && o.published then [ev] else [])
      ensures stuckLog == old(stuckLog) + (if o.Played? && !o.settled && 1 <= creditMaxAttempts && env.reportWorks
                                           then [(r.wallet, ev.wager, ev.payout)] else [])
    {
      if !env.limiterAllows || !env.escrowWorks {
        return Refused, NO_EVENT;
      }
      var wager := Units(r.wager);
      var reply := redis.AtomicEscrowBet(r.wallet, wager);
      match env.seedRead {
        case SeedThrew =>
          // Promise.all rejects although the script may have run.
          return if reply.success then Stranded else Refused, NO_EVENT;
        case SeedMissing =>
          if !reply.success {
            return Refused, NO_EVENT;
          }
          var released, _ := ReleaseEscrowWithRetry(r.wallet, wager, env.releaseWorks);
          return if released then ReleasedBack else Stranded, NO_EVENT;
        case SeedFound =>
      }
      if !reply.success {
        return Insufficient, NO_EVENT;
      }
      if env.prefix.None? {
        var released, _ := ReleaseEscrowWithRetry(r.wallet, wager, env.releaseWorks);
        return if released then ReleasedBack else Stranded, NO_EVENT;
      }
      var event := EventOf(r, houseEdgePct, env.prefix.value, env.betId, reply.nonce);
      EventIsFair(r, houseEdgePct, env.prefix.value, env.betId, reply.nonce);
      var settled, _ := SettleBetAsync(r.wallet, event.wager, event.payout, env.settleWorks, env.reportWorks);
      if env.publishWorks {
        betLog := betLog + [event];
      }
      return Played(settled, env.publishWorks), event;
    }
  }

  // ----- One outcome, and where the wager went -----

  // Which outcome it is, told from the balance and the answers.
  lemma OutcomeExactly(a: Account, r: BetRequest, env: BetEnv, maxAttempts: int)
    ensures var o := Expected(a, r, env, maxAttempts);
      var asked := env.limiterAllows && env.escrowWorks;
      var taken := asked && Units(r.wager) <= a.balance;
      var failed := env.seedRead.SeedMissing? || (env.seedRead.SeedFound? && env.prefix.None?);
      var released := exists n :: 1 <= n <= maxAttempts && env.releaseWorks(n);
      && (o.Insufficient? <==> asked && a.balance < Units(r.wager) && env.seedRead.SeedFound?)
      && (o.Refused? <==> !asked || (a.balance < Units(r.wager) && !env.seedRead.SeedFound?))
      && (o.ReleasedBack? <==> taken && failed && released)
      && (o.Stranded? <==> taken && (env.seedRead.SeedThrew? || (failed && !released)))
      && (o.Played? <==> taken && env.seedRead.SeedFound? && env.prefix.Some?)
      && (o.Played? ==> (o.published <==> env.publishWorks)
                        && (o.settled <==> exists n :: 1 <= n <= maxAttempts && env.settleWorks(n)))
  {
  }

  // A missing seed or a failed worker after an accepted escrow leaves the balance as before exactly
  // if some allowed release attempt works.
  lemma ReleasedExactly(a: Account, r: BetRequest, edge: real, env: BetEnv, maxAttempts: int)
    requires env.limiterAllows && env.escrowWorks && 0 < Units(r.wager) <= a.balance
    requires env.seedRead.SeedMissing? || (env.seedRead.SeedFound? && env.prefix.None?)
    ensures Effect(a, r, edge, env, Expected(a, r, env, maxAttempts)).balance == a.balance
       <==> exists n :: 1 <= n <= maxAttempts && env.releaseWorks(n)
  {
  }

  // Released: as before, but for the nonce. Stranded or unsettled: the wager is still in escrow.
  // Settled: the available balance moved by the P&L of the published event.
  lemma WagerAccounted(a: Account, r: BetRequest, edge: real, env: BetEnv, maxAttempts: int)
    requires ValidRequest(r) && 0 <= a.escrowed
    ensures var o := Expected(a, r, env, maxAttempts);
      var b, wager := Effect(a, r, edge, env, o), Units(r.wager);
      && (o.Refused? || o.Insufficient? ==> b == a)
      && (o.ReleasedBack? ==> b == a.(nonce := a.nonce + 1))
      && (o.Stranded? || (o.Played? && !o.settled) ==>
            b == Account(a.balance - wager, a.escrowed + wager, a.nonce + 1))
      && (o.Played? && o.settled ==>
            var ev := EventOf(r, edge, env.prefix.value, env.betId, a.nonce + 1);
            b == Account(a.balance + ev.payout - ev.wager, a.escrowed, a.nonce + 1))
  {
    UnitsNonNegative(r.wager);
  }

  lemma UnitsNonNegative(x: real)
    requires 0.0 <= x
    ensures 0 <= Units(x)
  {
    assert 0 <= Odds.ToFixed8(x);
  }

  lemma PayoutUnitsNonNegative(r: BetRequest, edge: real, prefix: nat)
    requires ValidRequest(r) && 0.0 <= edge < 100.0
    ensures 0 <= Odds.Payout(r.wager, r.target, r.direction, edge, Odds.GameResult(prefix))
  {
    assert 0.0 <= Odds.Multiplier(r.target, r.direction, edge);
    assert 0.0 <= r.wager * Odds.Multiplier(r.target, r.direction, edge);
  }

  // The event of a played bet satisfies the row constraints of the ledger exactly when the wager did
  // not round to nothing.
  lemma EventFitsLedger(a: Account, r: BetRequest, edge: real, prefix: nat, id: BetId)
    requires ValidRequest(r) && 0.0 <= edge < 100.0 && 0 <= a.nonce
    ensures Ledger.RowOk(EventOf(r, edge, prefix, id, a.nonce + 1)) <==> 0.000000005 <= r.wager
  {
    PayoutUnitsNonNegative(r, edge, prefix);
    assert 0 < Odds.ToFixed8(r.wager) <==> 1.0 <= r.wager * 100000000.0 + 0.5;
  }

  // ----- Withdrawals -----

  datatype WithdrawEnv = WithdrawEnv(publishWorks: bool, creditWorks: bool, id: WithdrawalId)

  datatype WithdrawOutcome = ChainUnavailable | TooLittle | Accepted | CreditedBack | CreditLost

  function ExpectedWithdrawal(a: Account, w: Wallet, amount: int, env: WithdrawEnv): WithdrawOutcome
  {
    if w.chain == Solana && w.currency == SOL then ChainUnavailable
    else if a.balance < amount then TooLittle
    else if env.publishWorks then Accepted
    else if env.creditWorks then CreditedBack
    else CreditLost
  }

  // What the route leaves in the balance.
  function WithdrawnTo(a: Account, amount: int, o: WithdrawOutcome): Account
  {
    if o.Accepted? || o.CreditLost? then a.(balance := a.balance - amount) else a
  }

  // A covered amount of an available chain is deducted, and stays out of the balance exactly if the
  // request was published or the credit-back itself failed.
  lemma DeductedExactly(a: Account, w: Wallet, amount: int, env: WithdrawEnv)
    requires 0 < amount
    ensures WithdrawnTo(a, amount, ExpectedWithdrawal(a, w, amount, env)).balance != a.balance <==>
      !(w.chain == Solana && w.currency == SOL) && amount <= a.balance && (env.publishWorks || !env.creditWorks)
    ensures ExpectedWithdrawal(a, w, amount, env).Accepted? <==>
      !(w.chain == Solana && w.currency == SOL) && amount <= a.balance && env.publishWorks
    ensures ExpectedWithdrawal(a, w, amount, env).ChainUnavailable? <==> w.chain == Solana && w.currency == SOL
  {
  }

  class WithdrawRoute {
    const redis: RedisStore
    var requests: seq<(WithdrawalId, Wallet, int)> // the WithdrawalRequested topic

    constructor (redis: RedisStore)
      ensures this.redis == redis && requests == []
    {
      this.redis := redis;
      requests := [];
    }

    // Deduct, publish, and compensate when the publication fails.
    method Withdraw(w: Wallet, amount: int, env: WithdrawEnv) returns (o: WithdrawOutcome)
      requires 0 < amount
      modifies this, redis
      ensures o == ExpectedWithdrawal(old(redis.Acct(w)), w, amount, env)
      ensures redis.Acct(w) == WithdrawnTo(old(redis.Acct(w)), amount, o)
      ensures redis.OnlyTouches(w)
      ensures requests == if o.Accepted? then old(requests) + [(env.id, w, amount)] else old(requests)
    {
      if w.chain == Solana && w.currency == SOL {
        return ChainUnavailable;
      }
      var success := redis.AtomicBalanceDeduct(w, amount);
      if !success {
        return TooLittle;
      }
      if !env.publishWorks {
        if !env.creditWorks {
          return CreditLost;
        }
        redis.AtomicBalanceCredit(w, amount);
        return CreditedBack;
      }
      requests := requests + [(env.id, w, amount)];
      return Accepted;
    }
  }
}
