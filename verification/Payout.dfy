/** The EVM payout worker: the bounded NONCE_EXPIRED retry around one on-chain payout, the in-session
    duplicate check, and the publication of completions. */
module Payout {
  import opened Domain

  datatype Request = Request(id: WithdrawalId, wallet: Wallet, amount: int)

  // What one submission of the payout transaction comes to. `FailedAfterMining`: the transfer
  // happened, but waiting for the receipt threw.
  datatype Submission = Mined(tx: TxHash) | NonceExpired | Failed | FailedAfterMining(lostTx: TxHash)

  // The behaviour of chain and broker while one message is handled: the n-th submission, and whether
  // the completion can be published.
  datatype Env = Env(submit: nat -> Submission, publishWorks: bool)

  datatype State = State(
    completed: set<WithdrawalId>,
    payments: seq<(WithdrawalId, TxHash)>,
    log: seq<WithdrawalEvent>)

  // The first submission from n on that is not a retried NONCE_EXPIRED.
  function Decisive(submit: nat -> Submission, n: nat, maxRetries: nat): (last: nat)
    requires n <= maxRetries
    ensures n <= last <= maxRetries
    ensures forall k :: n <= k < last ==> submit(k).NonceExpired?
    ensures last < maxRetries ==> !submit(last).NonceExpired?
    decreases maxRetries - n
  {
    if submit(n).NonceExpired? && n < maxRetries then Decisive(submit, n + 1, maxRetries) else n
  }

  function TransferOf(s: Submission): Option<TxHash>
  {
    match s
    case Mined(tx) => Some(tx)
    case FailedAfterMining(tx) => Some(tx)
    case _ => None
  }

  function OnMessage(s: State, req: Request, env: Env, maxRetries: nat): State
  {
    if req.wallet.chain != Ethereum || req.id in s.completed then s
    else
      var last := env.submit(Decisive(env.submit, 0, maxRetries));
      var paid := TransferOf(last);
      var s1 := if paid.Some? then s.(payments := s.payments + [(req.id, paid.value)]) else s;
      if last.Mined? && env.publishWorks
      then s1.(log := s1.log + [WithdrawalEvent(req.id, req.wallet, req.amount, last.tx)],
               completed := s1.completed + {req.id})
      else s1
  }

  class PayoutWorker {
    var completed: set<WithdrawalId>
    var payments: seq<(WithdrawalId, TxHash)> // the chain
    var log: seq<WithdrawalEvent>             // the WithdrawalCompleted topic
    const maxRetries: nat

    constructor (maxRetries: nat)
      ensures Now() == State({}, [], []) && this.maxRetries == maxRetries
    {
      this.maxRetries := maxRetries;
      completed, payments, log := {}, [], [];
    }

    function Now(): State
      reads this
    {
      State(completed, payments, log)
    }

    // At most maxRetries + 1 submissions, at most one of them mined, and none after it.
    method SendPayout(id: WithdrawalId, submit: nat -> Submission) returns (tx: Option<TxHash>, submissions: nat)
      modifies this`payments
      ensures 1 <= submissions <= maxRetries + 1
      ensures submissions - 1 == Decisive(submit, 0, maxRetries)
      ensures forall n :: 0 <= n < submissions - 1 ==> submit(n).NonceExpired?
      ensures submissions <= maxRetries ==> !submit(submissions - 1).NonceExpired?
      ensures var last := submit(submissions - 1);
        && tx == (if last.Mined? then Some(last.tx) else None)
        && payments == old(payments) + (if TransferOf(last).Some? then [(id, TransferOf(last).value)] else [])
    {
      submissions := 0;
      for attempt := 0 to maxRetries + 1
        invariant submissions == attempt
        invariant forall n :: 0 <= n < attempt ==> submit(n).NonceExpired?
        invariant attempt <= maxRetries && Decisive(submit, 0, maxRetries) == Decisive(submit, attempt, maxRetries)
        invariant payments == old(payments)
      {
        submissions := attempt + 1;
        match submit(attempt) {
          case Mined(h) =>
            payments := payments + [(id, h)];
            return Some(h), submissions;
          case NonceExpired =>
            if attempt == maxRetries {
              return None, submissions;
            }
          case Failed =>
            return None, submissions;
          case FailedAfterMining(h) =>
            payments := payments + [(id, h)];
            return None, submissions;
        }
      }
      tx := None;
    }

    method EachMessage(req: Request, env: Env)
      modifies this
      ensures Now() == OnMessage(old(Now()), req, env, maxRetries)
      ensures var last := env.submit(Decisive(env.submit, 0, maxRetries));
        var known := req.wallet.chain != Ethereum || req.id in old(completed);
        var done := !known && last.Mined? && env.publishWorks;
        && log == old(log) + (if done then [WithdrawalEvent(req.id, req.wallet, req.amount, last.tx)] else [])
        && completed == old(completed) + (if done then {req.id} else {})
        && payments == old(payments) + (if !known && TransferOf(last).Some? then [(req.id, TransferOf(last).value)] else [])
    {
      if req.wallet.chain != Ethereum || req.id in completed {
        return;
      }
      var tx, submissions := SendPayout(req.id, env.submit);
      if tx.None? || !env.publishWorks {
        return;
      }
      log := log + [WithdrawalEvent(req.id, req.wallet, req.amount, tx.value)];
      completed := completed + {req.id};
    }
  }

  // ----- Runs -----

  // A delivery, or a restart of the worker, which forgets its session set.
  datatype Event = Deliver(req: Request, env: Env) | Restart

  function Next(s: State, e: Event, maxRetries: nat): State
  {
    match e
    case Deliver(req, env) => OnMessage(s, req, env, maxRetries)
    case Restart => s.(completed := {})
  }

  function Run(s: State, events: seq<Event>, maxRetries: nat): State
    decreases |events|
  {
    if events == [] then s else Run(Next(s, events[0], maxRetries), events[1..], maxRetries)
  }

  function PaymentsOf(payments: seq<(WithdrawalId, TxHash)>, id: WithdrawalId): nat
    decreases |payments|
  {
    if payments == [] then 0
    else PaymentsOf(payments[..|payments| - 1], id) + (if payments[|payments| - 1].0 == id then 1 else 0)
  }

  // The outcome of handling one delivered request, read from what chain and broker will answer.
  function Last(env: Env, maxRetries: nat): Submission { env.submit(Decisive(env.submit, 0, maxRetries)) }

  predicate Pays(e: Event, maxRetries: nat, id: WithdrawalId)
  {
    e.Deliver? && e.req.id == id && e.req.wallet.chain == Ethereum && TransferOf(Last(e.env, maxRetries)).Some?
  }

  predicate Completes(e: Event, maxRetries: nat, id: WithdrawalId)
  {
    Pays(e, maxRetries, id) && Last(e.env, maxRetries).Mined? && e.env.publishWorks
  }

  // The paying deliveries of id, without those between a completing one and the next restart.
  function PayingDeliveries(events: seq<Event>, maxRetries: nat, id: WithdrawalId, completed: bool): nat
    decreases |events|
  {
    if events == [] then 0
    else if events[0].Restart? then PayingDeliveries(events[1..], maxRetries, id, false)
    else if completed then PayingDeliveries(events[1..], maxRetries, id, true)
    else
      (if Pays(events[0], maxRetries, id) then 1 else 0)
      + PayingDeliveries(events[1..], maxRetries, id, Completes(events[0], maxRetries, id))
  }

  lemma DeliverPays(s: State, e: Event, maxRetries: nat, id: WithdrawalId)
    requires e.Deliver?
    ensures var next := Next(s, e, maxRetries);
      && PaymentsOf(next.payments, id)
           == PaymentsOf(s.payments, id) + (if id !in s.completed && Pays(e, maxRetries, id) then 1 else 0)
      && (id in next.completed <==> id in s.completed || Completes(e, maxRetries, id))
  {
    var next := Next(s, e, maxRetries);
    if next.payments != s.payments {
      assert next.payments[..|next.payments| - 1] == s.payments;
    }
  }

  // A completion is published exactly for a completing delivery of an id the worker does not know: with
  // the wallet and amount of the request, and the hash of the payment just made.
  lemma DeliverPublishes(s: State, e: Event, maxRetries: nat)
    requires e.Deliver?
    ensures var next := Next(s, e, maxRetries);
      if e.req.id !in s.completed && Completes(e, maxRetries, e.req.id)
      then
        && |next.payments| == |s.payments| + 1 && next.payments[..|s.payments|] == s.payments
        && next.payments[|s.payments|].0 == e.req.id
        && next.log == s.log + [WithdrawalEvent(e.req.id, e.req.wallet, e.req.amount, next.payments[|s.payments|].1)]
      else next.log == s.log
  {
  }

  function CompletionsOf(log: seq<WithdrawalEvent>, id: WithdrawalId): nat
    decreases |log|
  {
    if log == [] then 0 else CompletionsOf(log[..|log| - 1], id) + (if log[|log| - 1].id == id then 1 else 0)
  }

  // The completing deliveries of id, without those between one and the next restart.
  function CompletingDeliveries(events: seq<Event>, maxRetries: nat, id: WithdrawalId, completed: bool): nat
    decreases |events|
  {
    if events == [] then 0
    else if events[0].Restart? then CompletingDeliveries(events[1..], maxRetries, id, false)
    else if completed then CompletingDeliveries(events[1..], maxRetries, id, true)
    else
      var c := Completes(events[0], maxRetries, id);
      (if c then 1 else 0) + CompletingDeliveries(events[1..], maxRetries, id, c)
  }

  // Over any deliveries and restarts, the completions of an id are its completing deliveries.
  lemma {:induction false} CompletionsExact(s: State, events: seq<Event>, maxRetries: nat, id: WithdrawalId)
    ensures CompletionsOf(Run(s, events, maxRetries).log, id)
         == CompletionsOf(s.log, id) + CompletingDeliveries(events, maxRetries, id, id in s.completed)
    decreases |events|
  {
    if events != [] {
      var next := Next(s, events[0], maxRetries);
      if events[0].Deliver? {
        DeliverPays(s, events[0], maxRetries, id);
        DeliverPublishes(s, events[0], maxRetries);
        if next.log != s.log {
          assert next.log[..|next.log| - 1] == s.log;
        }
      }
      CompletionsExact(next, events[1..], maxRetries, id);
    }
  }

  // Every completion stands for a payment of its id under its hash.
  predicate Backed(s: State) { forall i :: 0 <= i < |s.log| ==> (s.log[i].id, s.log[i].tx) in s.payments }

  // And it carries the wallet and amount of a delivered request.
  predicate Requested(log: seq<WithdrawalEvent>, reqs: set<Request>)
  {
    forall i :: 0 <= i < |log| ==> Request(log[i].id, log[i].wallet, log[i].amount) in reqs
  }

  lemma {:induction false} CompletionsBacked(s: State, events: seq<Event>, maxRetries: nat, reqs: set<Request>)
    requires Backed(s) && Requested(s.log, reqs)
    requires forall i :: 0 <= i < |events| && events[i].Deliver? ==> events[i].req in reqs
    ensures Backed(Run(s, events, maxRetries)) && Requested(Run(s, events, maxRetries).log, reqs)
    decreases |events|
  {
    if events != [] {
      var next := Next(s, events[0], maxRetries);
      if events[0].Deliver? {
        DeliverPublishes(s, events[0], maxRetries);
        BackedNext(s, events[0], maxRetries);
        assert events[0].req in reqs;
      }
      CompletionsBacked(next, events[1..], maxRetries, reqs);
    }
  }

  lemma BackedNext(s: State, e: Event, maxRetries: nat)
    requires e.Deliver? && Backed(s)
    ensures Backed(Next(s, e, maxRetries))
  {
    var next := Next(s, e, maxRetries);
    DeliverPublishes(s, e, maxRetries);
    assert forall p :: p in s.payments ==> p in next.payments;
    if next.log != s.log {
      assert next.payments[|s.payments|] in next.payments;
    }
  }

  // Over any deliveries, redeliveries and restarts, an id is paid once for each of its paying
  // deliveries: no more, no fewer.
  lemma {:induction false} PaymentsExact(s: State, events: seq<Event>, maxRetries: nat, id: WithdrawalId)
    ensures PaymentsOf(Run(s, events, maxRetries).payments, id)
         == PaymentsOf(s.payments, id) + PayingDeliveries(events, maxRetries, id, id in s.completed)
    decreases |events|
  {
    if events != [] {
      if events[0].Deliver? {
        DeliverPays(s, events[0], maxRetries, id);
      }
      PaymentsExact(Next(s, events[0], maxRetries), events[1..], maxRetries, id);
    }
  }

  // No delivery would pay id (again): the worker knows it as completed, and is not restarted before
  // any delivery that would.
  predicate NoFurther(events: seq<Event>, maxRetries: nat, id: WithdrawalId, completed: bool)
  {
    forall j :: 0 <= j < |events| && Pays(events[j], maxRetries, id) ==>
      completed && forall k :: 0 <= k < j ==> events[k].Deliver?
  }

  lemma {:induction false} NoneLeft(events: seq<Event>, maxRetries: nat, id: WithdrawalId, completed: bool)
    ensures PayingDeliveries(events, maxRetries, id, completed) == 0 <==> NoFurther(events, maxRetries, id, completed)
    decreases |events|
  {
    if events != [] {
      var later, c := events[1..], events[0].Deliver? && (completed || Completes(events[0], maxRetries, id));
      NoneLeft(later, maxRetries, id, c);
      assert events == [events[0]] + later;
      if NoFurther(events, maxRetries, id, completed) {
        forall j | 0 <= j < |later| && Pays(later[j], maxRetries, id)
          ensures c && forall k :: 0 <= k < j ==> later[k].Deliver?
        {
          assert later[j] == events[j + 1] && events[0].Deliver?;
        }
      }
    }
  }

  // The input condition for one payment: after the first paying delivery, none would pay again.
  predicate PaysOnce(events: seq<Event>, maxRetries: nat, id: WithdrawalId)
    decreases |events|
  {
    events == []
    || if Pays(events[0], maxRetries, id)
       then NoFurther(events[1..], maxRetries, id, Completes(events[0], maxRetries, id))
       else PaysOnce(events[1..], maxRetries, id)
  }

  lemma {:induction false} AtMostOne(events: seq<Event>, maxRetries: nat, id: WithdrawalId)
    ensures PayingDeliveries(events, maxRetries, id, false) <= 1 <==> PaysOnce(events, maxRetries, id)
    decreases |events|
  {
    if events != [] {
      hide NoFurther;
      if Pays(events[0], maxRetries, id) {
        NoneLeft(events[1..], maxRetries, id, Completes(events[0], maxRetries, id));
      } else {
        AtMostOne(events[1..], maxRetries, id);
      }
    }
  }

  // From a fresh start, an id is paid at most once exactly under that condition.
  lemma PaidAtMostOnce(events: seq<Event>, maxRetries: nat, id: WithdrawalId)
    ensures PaymentsOf(Run(State({}, [], []), events, maxRetries).payments, id) <= 1 <==> PaysOnce(events, maxRetries, id)
  {
    PaymentsExact(State({}, [], []), events, maxRetries, id);
    AtMostOne(events, maxRetries, id);
  }

  // In one session, with receipts arriving and completions published, it always holds.
  lemma {:induction false} SmoothSession(events: seq<Event>, maxRetries: nat, id: WithdrawalId)
    requires forall i :: 0 <= i < |events| ==>
      events[i].Deliver? && events[i].env.publishWorks && !Last(events[i].env, maxRetries).FailedAfterMining?
    ensures PaysOnce(events, maxRetries, id)
    decreases |events|
  {
    if events != [] {
      assert events[0].Deliver?;
      SmoothSession(events[1..], maxRetries, id);
    }
  }

  // Otherwise a redelivery pays again, without a restart in between.
  lemma PaidTwice(req: Request, maxRetries: nat, h1: TxHash, h2: TxHash)
    requires req.wallet.chain == Ethereum
    ensures var lost, redelivered := Env(_ => Mined(h1), false), Env(_ => Mined(h2), true);
      PaymentsOf(Run(State({}, [], []), [Deliver(req, lost), Deliver(req, redelivered)], maxRetries).payments, req.id) == 2
  {
    var lost, redelivered := Env(_ => Mined(h1), false), Env(_ => Mined(h2), true);
    var events := [Deliver(req, lost), Deliver(req, redelivered)];
    PaymentsExact(State({}, [], []), events, maxRetries, req.id);
    assert events[1..] == [Deliver(req, redelivered)];
    assert PayingDeliveries(events[1..], maxRetries, req.id, false) == 1 + PayingDeliveries([], maxRetries, req.id, true);
  }
}
