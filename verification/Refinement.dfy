/** The handlers refine the protocol: what one call does to Redis and to the Kafka log is a run of
    protocol steps. */
module Refinement {
  import opened Domain
  import opened Redis
  import opened Ledger
  import opened Protocol
  import Consumer
  import Gateway
  import Payout
  import LedgerProofs

  // The event of a bet, or a placeholder with its wager when no result was ever computed.
  function BetOf(a: Account, r: Gateway.BetRequest, edge: real, env: Gateway.BetEnv): BetEvent
  {
    if env.prefix.Some? then Gateway.EventOf(r, edge, env.prefix.value, env.betId, a.nonce + 1)
    else BetEvent(env.betId, r.wallet, Gateway.Units(r.wager), 0, 0, a.nonce + 1)
  }

  function StepsOf(o: Gateway.Outcome, ev: BetEvent): seq<Step>
  {
    match o
    case Refused => []
    case Insufficient => []
    case ReleasedBack => [Accept(ev), Abandon(ev.id), ReleaseBet(ev.id)]
    case Stranded => [Accept(ev), Strand(ev.id)]
    case Played(settled, published) =>
      [Accept(ev), Resolve(ev.id), if settled then SettleBet(ev.id) else SettleExhausted(ev.id),
       if published then Publish(ev.id) else PublishLost(ev.id)]
  }

  // A state after an accepted bet, seen from the fields the bet touches.
  predicate After(s: State, t: State, ev: BetEvent, a: Account, p: Phase, pending: bool, log: seq<BetEvent>)
  {
    && ev.wallet in s.redis
    && t == s.(redis := s.redis[ev.wallet := a], bets := s.bets[ev.id := Bet(ev, p)],
               outbox := if pending then s.outbox + {ev.id} else s.outbox, betLog := log)
  }

  lemma AcceptStep(s: State, ev: BetEvent)
    requires Enabled(s, Accept(ev))
    ensures After(s, Next(s, Accept(ev)), ev, Escrow(s.redis[ev.wallet], ev.wager), Escrowed, false, s.betLog)
  {
  }

  lemma PhaseStep(s: State, t: State, ev: BetEvent, a: Account, p: Phase, log: seq<BetEvent>)
    requires After(s, t, ev, a, p, false, log)
    ensures p == Escrowed ==> After(s, Next(t, Strand(ev.id)), ev, a, Stranded, false, log)
    ensures p == Escrowed ==> After(s, Next(t, Abandon(ev.id)), ev, a, Releasing, false, log)
    ensures p == Escrowed ==> After(s, Next(t, Resolve(ev.id)), ev, a, Resolved, true, log)
    ensures p == Releasing ==> After(s, Next(t, ReleaseBet(ev.id)), ev, Release(a, ev.wager), Released, false, log)
  {
  }

  lemma SettleStep(s: State, t: State, ev: BetEvent, a: Account, log: seq<BetEvent>)
    requires After(s, t, ev, a, Resolved, true, log)
    ensures After(s, Next(t, SettleBet(ev.id)), ev, Settle(a, ev.wager, ev.payout), Settled, true, log)
    ensures After(s, Next(t, SettleExhausted(ev.id)), ev, a, SettleFailed, true, log)
  {
  }

  lemma PublishStep(s: State, t: State, ev: BetEvent, a: Account, p: Phase, log: seq<BetEvent>)
    requires After(s, t, ev, a, p, true, log) && ev.id !in s.outbox
    ensures After(s, Next(t, Publish(ev.id)), ev, a, p, false, log + [ev])
    ensures After(s, Next(t, PublishLost(ev.id)), ev, a, p, false, log)
  {
    assert s.outbox + {ev.id} - {ev.id} == s.outbox;
  }

  // handleBet, whatever fails inside it, is the run `StepsOf` of its outcome: same account, other
  // accounts untouched, and the event in the log exactly if it was published.
  lemma HandleBetRefines(s: State, r: Gateway.BetRequest, edge: real, env: Gateway.BetEnv, maxAttempts: int)
    requires Gateway.ValidRequest(r) && 0.0 <= edge < 100.0
    requires r.wallet in s.redis && env.betId !in s.bets && env.betId !in s.outbox
    ensures var a := s.redis[r.wallet];
      var o := Gateway.Expected(a, r, env, maxAttempts);
      var ev := BetOf(a, r, edge, env);
      var t := Run(s, StepsOf(o, ev));
      && t.redis == s.redis[r.wallet := Gateway.Effect(a, r, edge, env, o)]
      && t.betLog == s.betLog + (if o.Played? && o.published then [ev] else [])
      && t.db == s.db && t.cash == s.cash && t.arrivals == s.arrivals
  {
    var a := s.redis[r.wallet];
    var o := Gateway.Expected(a, r, env, maxAttempts);
    var ev := BetOf(a, r, edge, env);
    hide Next;
    if o.Refused? || o.Insufficient? {
      assert s.redis[r.wallet := a] == s.redis;
    } else {
      PayoutNonNegative(a, r, edge, env);
      AcceptStep(s, ev);
      var s1 := Next(s, Accept(ev));
      var a1 := Escrow(a, ev.wager);
      PhaseStep(s, s1, ev, a1, Escrowed, s.betLog);
      match o {
        case Stranded => RunTwo(s, Accept(ev), Strand(ev.id));
        case ReleasedBack =>
          RunThree(s, Accept(ev), Abandon(ev.id), ReleaseBet(ev.id));
          PhaseStep(s, Next(s1, Abandon(ev.id)), ev, a1, Releasing, s.betLog);
        case Played(settled, published) =>
          PlayedSteps(s, ev, settled, published);
      }
    }
  }

  lemma {:induction false} PlayedSteps(s: State, ev: BetEvent, settled: bool, published: bool)
    requires Enabled(s, Accept(ev)) && ev.id !in s.outbox
    ensures var a1 := Escrow(s.redis[ev.wallet], ev.wager);
      After(s, Run(s, StepsOf(Gateway.Played(settled, published), ev)), ev,
            if settled then Settle(a1, ev.wager, ev.payout) else a1,
            if settled then Settled else SettleFailed, false,
            s.betLog + (if published then [ev] else []))
  {
    hide Next;
    var a1 := Escrow(s.redis[ev.wallet], ev.wager);
    var third := if settled then SettleBet(ev.id) else SettleExhausted(ev.id);
    var fourth := if published then Publish(ev.id) else PublishLost(ev.id);
    RunFour(s, Accept(ev), Resolve(ev.id), third, fourth);
    AcceptStep(s, ev);
    PhaseStep(s, Next(s, Accept(ev)), ev, a1, Escrowed, s.betLog);
    var s2 := Next(Next(s, Accept(ev)), Resolve(ev.id));
    SettleStep(s, s2, ev, a1, s.betLog);
    PublishStep(s, Next(s2, third), ev, if settled then Settle(a1, ev.wager, ev.payout) else a1,
                if settled then Settled else SettleFailed, s.betLog);
    assert s.betLog + [] == s.betLog;
  }

  // The two fire-and-forget calls of a played bet may finish in either order.
  lemma {:induction false} EitherOrder(s: State, ev: BetEvent, settle: Step, publish: Step)
    requires Enabled(s, Accept(ev))
    requires settle == SettleBet(ev.id) || settle == SettleExhausted(ev.id)
    requires publish == Publish(ev.id) || publish == PublishLost(ev.id)
    ensures Run(s, [Accept(ev), Resolve(ev.id), publish, settle]) == Run(s, [Accept(ev), Resolve(ev.id), settle, publish])
  {
    ResolvedReady(s, ev);
    hide Next, Run, Enabled;
    Commute(Next(Next(s, Accept(ev)), Resolve(ev.id)), ev.id, settle, publish);
    RunFour(s, Accept(ev), Resolve(ev.id), settle, publish);
    RunFour(s, Accept(ev), Resolve(ev.id), publish, settle);
  }

  lemma ResolvedReady(s: State, ev: BetEvent)
    requires Enabled(s, Accept(ev))
    ensures var t := Next(Next(s, Accept(ev)), Resolve(ev.id)); ev.id in t.outbox && InPhase(t, ev.id, Resolved)
  {
    hide ApplyBets, ApplyDeposit, ApplyWithdrawal, Escrow, Settle, Release, Deduct, Credit, Put, Acct, Commit;
  }

  lemma Commute(t: State, id: BetId, settle: Step, publish: Step)
    requires id in t.outbox && InPhase(t, id, Resolved)
    requires settle == SettleBet(id) || settle == SettleExhausted(id)
    requires publish == Publish(id) || publish == PublishLost(id)
    ensures Next(Next(t, settle), publish) == Next(Next(t, publish), settle)
  {
    hide ApplyBets, ApplyDeposit, ApplyWithdrawal, Escrow, Settle, Release, Deduct, Credit, Put, Acct, Commit;
  }

  lemma PayoutNonNegative(a: Account, r: Gateway.BetRequest, edge: real, env: Gateway.BetEnv)
    requires Gateway.ValidRequest(r) && 0.0 <= edge < 100.0
    ensures 0 <= BetOf(a, r, edge, env).payout && 0 <= BetOf(a, r, edge, env).wager
  {
    Gateway.UnitsNonNegative(r.wager);
    if env.prefix.Some? {
      Gateway.PayoutUnitsNonNegative(r, edge, env.prefix.value);
    }
  }

  function CashStepsOf(o: Gateway.WithdrawOutcome, id: WithdrawalId, w: Wallet, amount: int): seq<Step>
  {
    match o
    case ChainUnavailable => []
    case TooLittle => []
    case Accepted => [DeductCash(id, w, amount), RequestPayout(id)]
    case CreditedBack => [DeductCash(id, w, amount), RequestFailed(id), Refund(id)]
    case CreditLost => [DeductCash(id, w, amount), RequestFailed(id), RefundLost(id)]
  }

  // A state after a deduction, seen from the fields a withdrawal request touches.
  predicate AfterCash(s: State, t: State, id: WithdrawalId, w: Wallet, a: Account, c: Cash)
  {
    w in s.redis && t == s.(redis := s.redis[w := a], cash := s.cash[id := c])
  }

  lemma RequestStep(s: State, t: State, id: WithdrawalId, w: Wallet, a: Account, amount: int)
    requires AfterCash(s, t, id, w, a, Cash(w, amount, Deducted))
    ensures AfterCash(s, Next(t, RequestPayout(id)), id, w, a, Cash(w, amount, Requested))
    ensures AfterCash(s, Next(t, RequestFailed(id)), id, w, a, Cash(w, amount, Refunding))
  {
    hide ApplyBets, ApplyDeposit, ApplyWithdrawal, Escrow, Settle, Release, Deduct, Credit, Commit;
  }

  lemma RefundStep(s: State, t: State, id: WithdrawalId, w: Wallet, a: Account, amount: int)
    requires AfterCash(s, t, id, w, a, Cash(w, amount, Refunding))
    ensures AfterCash(s, Next(t, Refund(id)), id, w, Credit(a, amount), Cash(w, amount, Refunded))
    ensures AfterCash(s, Next(t, RefundLost(id)), id, w, a, Cash(w, amount, RefundFailed))
  {
    hide ApplyBets, ApplyDeposit, ApplyWithdrawal, Escrow, Settle, Release, Deduct, Credit, Commit;
  }

  lemma DeductStep(s: State, id: WithdrawalId, w: Wallet, amount: int)
    requires Enabled(s, DeductCash(id, w, amount))
    ensures AfterCash(s, Next(s, DeductCash(id, w, amount)), id, w, Deduct(s.redis[w], amount), Cash(w, amount, Deducted))
  {
  }

  // The withdrawal route, whatever fails inside it, is the run `CashStepsOf` of its outcome.
  lemma WithdrawRefines(s: State, w: Wallet, amount: int, env: Gateway.WithdrawEnv)
    requires 0 < amount && w in s.redis && env.id !in s.cash
    ensures var a := s.redis[w];
      var o := Gateway.ExpectedWithdrawal(a, w, amount, env);
      var t := Run(s, CashStepsOf(o, env.id, w, amount));
      && t.redis == s.redis[w := if o.Accepted? || o.CreditLost? then a.(balance := a.balance - amount) else a]
      && t.db == s.db && t.bets == s.bets && t.arrivals == s.arrivals
      && (CashInPhase(t, env.id, Requested) <==> o.Accepted?)
  {
    var a, id := s.redis[w], env.id;
    var o := Gateway.ExpectedWithdrawal(a, w, amount, env);
    hide Next;
    if o.ChainUnavailable? || o.TooLittle? {
      assert s.redis[w := a] == s.redis;
    } else {
      DeductStep(s, id, w, amount);
      var s1, a1 := Next(s, DeductCash(id, w, amount)), Deduct(a, amount);
      RequestStep(s, s1, id, w, a1, amount);
      match o {
        case Accepted => RunTwo(s, DeductCash(id, w, amount), RequestPayout(id));
        case CreditedBack =>
          RunThree(s, DeductCash(id, w, amount), RequestFailed(id), Refund(id));
          RefundStep(s, Next(s1, RequestFailed(id)), id, w, a1, amount);
          assert Credit(a1, amount) == a;
        case CreditLost =>
          RunThree(s, DeductCash(id, w, amount), RequestFailed(id), RefundLost(id));
          RefundStep(s, Next(s1, RequestFailed(id)), id, w, a1, amount);
      }
    }
  }

  // The steps of handling message j of the deposit log.
  function DepositStepsOf(db: Db, j: nat, ev: DepositEvent, env: Consumer.SingleEnv): seq<Step>
  {
    if !Consumer.Sends(env) || ApplyDeposit(db, ev).None? then []
    else if !NewDeposit(db, ev) then [RecordDeposit(j)]
    else [RecordDeposit(j), if env.fault == NoFault && !env.redisFails then CreditDeposit(ev.tx) else CreditLost(ev.tx)]
  }

  lemma RecordStep(s: State, j: nat)
    requires j < |s.depLog| && ApplyDeposit(s.db, s.depLog[j]).Some?
    ensures var ev := s.depLog[j];
      Next(s, RecordDeposit(j))
      == s.(db := ApplyDeposit(s.db, ev).value,
            arrivals := if NewDeposit(s.db, ev) then s.arrivals[ev.tx := Arrival(ev.wallet, ev.amount, Pending)] else s.arrivals)
  {
    hide ApplyDeposit, NewDeposit;
  }

  lemma CreditStep(s: State, h: TxHash, w: Wallet, amount: int)
    requires h in s.arrivals && s.arrivals[h] == Arrival(w, amount, Pending) && w in s.redis
    ensures Next(s, CreditDeposit(h)).db == s.db && Next(s, CreditLost(h)).db == s.db
    ensures Next(s, CreditDeposit(h)).redis == s.redis[w := Credit(s.redis[w], amount)]
    ensures Next(s, CreditLost(h)).redis == s.redis
  {
    hide ApplyBets, ApplyDeposit, ApplyWithdrawal, Escrow, Settle, Release, Deduct, Credit, Commit;
  }

  lemma NewDepositRun(s: State, j: nat, credits: bool)
    requires j < |s.depLog| && s.depLog[j].wallet in s.redis
    requires ApplyDeposit(s.db, s.depLog[j]).Some? && NewDeposit(s.db, s.depLog[j])
    ensures var ev := s.depLog[j];
      var t := Run(s, [RecordDeposit(j), if credits then CreditDeposit(ev.tx) else CreditLost(ev.tx)]);
      && t.db == ApplyDeposit(s.db, ev).value
      && t.redis == if credits then s.redis[ev.wallet := Credit(s.redis[ev.wallet], ev.amount)] else s.redis
  {
    var ev := s.depLog[j];
    hide Next, ApplyDeposit, NewDeposit;
    RecordStep(s, j);
    CreditStep(Next(s, RecordDeposit(j)), ev.tx, ev.wallet, ev.amount);
    RunTwo(s, RecordDeposit(j), if credits then CreditDeposit(ev.tx) else CreditLost(ev.tx));
  }

  lemma KnownDepositRun(s: State, j: nat)
    requires j < |s.depLog| && ApplyDeposit(s.db, s.depLog[j]).Some? && !NewDeposit(s.db, s.depLog[j])
    ensures Run(s, [RecordDeposit(j)]).db == ApplyDeposit(s.db, s.depLog[j]).value
    ensures Run(s, [RecordDeposit(j)]).redis == s.redis
  {
    hide Next, ApplyDeposit, NewDeposit;
    RecordStep(s, j);
    assert Run(s, [RecordDeposit(j)]) == Run(Next(s, RecordDeposit(j)), [RecordDeposit(j)][1..]);
  }

  // processDepositReceived, whatever fails inside it, is one or two steps: the row with its Postgres
  // credit, then the Redis credit or its loss.
  lemma {:induction false} DepositRefines(s: State, j: nat, env: Consumer.SingleEnv)
    requires Inv(s) && j < |s.depLog|
    ensures var ev := s.depLog[j];
      var t := Run(s, DepositStepsOf(s.db, j, ev, env));
      var m := Consumer.Event(Consumer.DepositMessage(ev));
      && t.db == Consumer.AfterSingle(s.db, m, env)
      && t.redis.Keys == s.redis.Keys
      && forall w :: w in s.redis ==> t.redis[w] == Credit(s.redis[w], Consumer.CreditTo(s.db, m, env, w))
  {
    hide EscrowExact, FundsExact, LedgerExact, BetsOk, BetLogOk, CashOk, Solvent;
    var ev := s.depLog[j];
    assert ev.wallet in s.redis && ev.wallet in s.db.wallets;
    hide Inv, Next, ApplyDeposit, NewDeposit, ArrivalsOk, Hydrated;
    if Consumer.Sends(env) && ApplyDeposit(s.db, ev).Some? {
      if NewDeposit(s.db, ev) {
        NewDepositRun(s, j, env.fault == NoFault && !env.redisFails);
      } else {
        KnownDepositRun(s, j);
      }
    }
  }

  lemma CompletionStep(s: State, j: nat, env: Consumer.SingleEnv)
    requires j < |s.payLog|
    ensures var after := Consumer.AfterSingle(s.db, Consumer.Event(Consumer.WithdrawalMessage(s.payLog[j])), env);
      after == if Consumer.Sends(env) then Next(s, ConsumePayout(j)).db else s.db
    ensures Next(s, ConsumePayout(j)) == s.(db := Next(s, ConsumePayout(j)).db)
  {
    hide ApplyWithdrawal;
  }

  // processWithdrawalCompleted on message j of the completion log: the consume step, unless the
  // database was not reached. Redis is not touched.
  lemma CompletionRefines(s: State, j: nat, env: Consumer.SingleEnv)
    requires j < |s.payLog|
    ensures var m := Consumer.Event(Consumer.WithdrawalMessage(s.payLog[j]));
      Run(s, if Consumer.Sends(env) then [ConsumePayout(j)] else []) == s.(db := Consumer.AfterSingle(s.db, m, env))
      && forall w :: Consumer.CreditTo(s.db, m, env, w) == 0
  {
    assert Run(s, []) == s;
    RunOne(s, ConsumePayout(j));
    hide Run;
    CompletionStep(s, j, env);
  }

  // One delivery to the payout worker: a payment step for each completion it publishes. A payment
  // without one is visible on the chain only.
  lemma PayoutRefines(s: State, worker: Payout.State, req: Payout.Request, env: Payout.Env, maxRetries: nat)
    requires req.id in s.cash && s.cash[req.id] == Cash(req.wallet, req.amount, Requested)
    ensures var next := Payout.OnMessage(worker, req, env, maxRetries);
      && worker.log <= next.log && (worker.log != next.log ==> next.payments != [])
      && var added := next.log[|worker.log|..];
         && Run(s, if added == [] then [] else [PayOut(req.id, added[0].tx)]) == s.(payLog := s.payLog + added)
         && (added == [] || added == [WithdrawalEvent(req.id, req.wallet, req.amount, next.payments[|next.payments| - 1].1)])
         && (added != [] <==> req.id !in worker.completed && Payout.Completes(Payout.Deliver(req, env), maxRetries, req.id))
  {
    var added := Payout.OnMessage(worker, req, env, maxRetries).log[|worker.log|..];
    if added != [] {
      RunOne(s, PayOut(req.id, added[0].tx));
      assert added == [WithdrawalEvent(req.id, req.wallet, req.amount, added[0].tx)];
    } else {
      assert s.payLog + added == s.payLog;
    }
  }

  lemma ConsumeStep(s: State, lo: nat, hi: nat, acked: bool, after: Db)
    requires Enabled(s, ConsumeBets(lo, hi, acked)) && ApplyBets(s.db, s.betLog[lo..hi]) == Some(after)
    ensures Next(s, ConsumeBets(lo, hi, acked)) == s.(db := after, resolved := if acked then Max(s.resolved, hi) else s.resolved)
  {
    hide ApplyBets;
  }

  // The resolved events again after the applied ones: they change nothing.
  lemma ApplyAgain(db: Db, evs: seq<BetEvent>, resolved: seq<BetEvent>, after: Db)
    requires RowsOk(evs) && after == InsertBets(db, evs) && resolved <= evs
    requires NonNegative(db.wallets) && NonNegative(after.wallets)
    ensures ApplyBets(db, evs) == Some(after) && ApplyBets(after, resolved) == Some(after)
  {
    LedgerProofs.InsertedAll(db, evs);
    LedgerProofs.InsertKnown(after, resolved);
  }

  lemma SessionApplies(db: Db, messages: seq<Consumer.Message>, done: nat, applied: nat, after: Db)
    requires Consumer.Session(db, messages, done, applied, after) && NonNegative(db.wallets) && NonNegative(after.wallets)
    ensures done <= applied <= |messages|
    ensures ApplyBets(db, Consumer.Parse(messages[..applied])) == Some(after)
    ensures ApplyBets(after, Consumer.Parse(messages[..done])) == Some(after)
    ensures Consumer.Parse(messages[..done]) <= Consumer.Parse(messages[..applied]) <= Consumer.Parse(messages)
  {
    assert messages[..applied][..done] == messages[..done];
    ParsePrefix(messages[..applied], done);
    ParsePrefix(messages, applied);
    ApplyAgain(db, Consumer.Parse(messages[..applied]), Consumer.Parse(messages[..done]), after);
  }

  // What `Session` says of one call of the bet loop, told by the protocol: the events of the applied
  // messages are consumed, and those of the resolved ones acknowledged. Messages that do not parse
  // have no event.
  lemma {:induction false} BatchRefines(s: State, lo: nat, messages: seq<Consumer.Message>, done: nat, applied: nat, after: Db)
    requires lo <= s.resolved && lo + |Consumer.Parse(messages)| <= |s.betLog|
    requires Consumer.Parse(messages) == s.betLog[lo..lo + |Consumer.Parse(messages)|]
    requires Consumer.Session(s.db, messages, done, applied, after) && NonNegative(s.db.wallets) && NonNegative(after.wallets)
    ensures var hi, mid := lo + |Consumer.Parse(messages[..applied])|, lo + |Consumer.Parse(messages[..done])|;
      && mid <= hi <= |s.betLog|
      && Run(s, [ConsumeBets(lo, hi, false), ConsumeBets(lo, mid, true)])
         == s.(db := after, resolved := Max(s.resolved, mid))
  {
    hide Consumer.Session, Consumer.Parse, ApplyBets, Next, Run, NonNegative, Max;
    SessionApplies(s.db, messages, done, applied, after);
    var all, evs, resolved := Consumer.Parse(messages), Consumer.Parse(messages[..applied]), Consumer.Parse(messages[..done]);
    SlicePrefix(s.betLog, lo, all, evs);
    SlicePrefix(s.betLog, lo, evs, resolved);
    ConsumeTwice(s, lo, lo + |evs|, lo + |resolved|, after);
  }

  lemma SlicePrefix(log: seq<BetEvent>, lo: nat, all: seq<BetEvent>, part: seq<BetEvent>)
    requires lo + |all| <= |log| && all == log[lo..lo + |all|] && part <= all
    ensures log[lo..lo + |part|] == part
  {
    assert log[lo..lo + |all|][..|part|] == log[lo..lo + |part|];
  }

  lemma ConsumeTwice(s: State, lo: nat, hi: nat, mid: nat, after: Db)
    requires lo <= s.resolved && lo <= mid <= hi <= |s.betLog|
    requires ApplyBets(s.db, s.betLog[lo..hi]) == Some(after) && ApplyBets(after, s.betLog[lo..mid]) == Some(after)
    ensures Run(s, [ConsumeBets(lo, hi, false), ConsumeBets(lo, mid, true)])
         == s.(db := after, resolved := Max(s.resolved, mid))
  {
    hide ApplyBets, Next, Run;
    ConsumeStep(s, lo, hi, false, after);
    ConsumeStep(s.(db := after), lo, mid, true, after);
    RunTwo(s, ConsumeBets(lo, hi, false), ConsumeBets(lo, mid, true));
  }

  lemma ParsePrefix(messages: seq<Consumer.Message>, n: nat)
    requires n <= |messages|
    ensures Consumer.Parse(messages[..n]) <= Consumer.Parse(messages)
  {
    assert messages == messages[..n] + messages[n..];
    Consumer.ParseAppend(messages[..n], messages[n..]);
  }

  // A slice that the tables refuse is the same step without effect.
  lemma RefusedSlice(s: State, lo: nat, hi: nat, acked: bool)
    requires Enabled(s, ConsumeBets(lo, hi, acked)) && ApplyBets(s.db, s.betLog[lo..hi]).None?
    ensures Next(s, ConsumeBets(lo, hi, acked)) == s
  {
    hide ApplyBets;
  }
}
