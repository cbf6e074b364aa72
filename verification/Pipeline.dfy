/** On-chain deposits from the listener to Postgres, as an interleaving of listener calls, restarts and
    ledger deliveries: nothing is lost to duplicate suppression, nothing is credited twice. */
module Pipeline {
  import opened Domain
  import opened Ledger
  import opened Listener
  import LedgerProofs

  // `calls` are processDeposit calls past their duplicate checks, waiting for the broker.
  datatype Pipe = Pipe(seen: seq<TxHash>, calls: set<DepositEvent>, published: seq<DepositEvent>, db: Db)

  datatype Step =
    | Observe(ev: DepositEvent)
    | Send(ev: DepositEvent, tracked: bool)
    | SendFails(ev: DepositEvent)
    | Deliver(j: nat)
    | Restart

  // `Observe` covers rescans, reconnects and concurrent epochs. `tracked` is false when the process dies
  // between the broker's acknowledgement and the cache update.
  function Next(p: Pipe, limit: int, step: Step): Pipe
  {
    match step
    case Observe(ev) =>
      (match Check(p.seen, p.db.deposits.Keys, ev.tx)
       case InMemory => p
       case InDb => p.(seen := Track(p.seen, limit, ev.tx))
       case New => p.(calls := p.calls + {ev}))
    case Send(ev, tracked) =>
      if ev !in p.calls then p
      else p.(calls := p.calls - {ev}, published := p.published + [ev],
              seen := if tracked && ev.tx != NO_HASH then Track(p.seen, limit, ev.tx) else p.seen)
    case SendFails(ev) => p.(calls := p.calls - {ev})
    case Deliver(j) =>
      if j < |p.published| && ApplyDeposit(p.db, p.published[j]).Some?
      then p.(db := ApplyDeposit(p.db, p.published[j]).value)
      else p
    case Restart => p.(seen := [], calls := {})
  }

  function Run(p: Pipe, limit: int, steps: seq<Step>): Pipe
    decreases |steps|
  {
    if steps == [] then p else Run(Next(p, limit, steps[0]), limit, steps[1..])
  }

  // The event of one processDeposit call, and the steps it takes.
  function EventOf(d: ChainDeposit, env: CallEnv): DepositEvent
  {
    DepositEvent(env.id, if env.wallet.Some? then env.wallet.value else Wallet(0, Ethereum, ETH), d.amount, d.tx, d.block)
  }

  function StepsOf(p: Pipe, d: ChainDeposit, env: CallEnv): seq<Step>
  {
    var ev := EventOf(d, env);
    match Check(p.seen, p.db.deposits.Keys, d.tx)
    case InMemory => [Observe(ev)]
    case InDb => if env.dbWorks then [Observe(ev)] else []
    case New =>
      if !env.dbWorks || env.wallet.None? then []
      else [Observe(ev), if env.sendWorks then Send(ev, true) else SendFails(ev)]
  }

  // A call of the listener, whatever fails inside it, is a run of pipeline steps.
  lemma ProcessDepositRefines(p: Pipe, limit: int, d: ChainDeposit, env: CallEnv)
    requires EventOf(d, env) !in p.calls
    ensures var t := Run(p, limit, StepsOf(p, d, env));
      && (t.seen, t.published) == Handled(p.seen, p.published, p.db.deposits.Keys, limit, d, env)
      && t.calls == p.calls && t.db == p.db
  {
    var ev, steps := EventOf(d, env), StepsOf(p, d, env);
    if |steps| == 1 {
      assert Run(Next(p, limit, steps[0]), limit, []) == Next(p, limit, steps[0]);
    } else if |steps| == 2 {
      var q := Next(p, limit, steps[0]);
      assert q.calls - {ev} == p.calls;
      assert steps[1..] == [steps[1]];
      assert Run(q, limit, [steps[1]]) == Run(Next(q, limit, steps[1]), limit, []);
    }
  }

  predicate Distinct(s: seq<TxHash>) { forall i, j :: 0 <= i < j < |s| ==> s[i] != s[j] }

  predicate Inv(p: Pipe, limit: int)
  {
    && |p.seen| <= Max(1, limit) && Distinct(p.seen)
    && (forall h :: h in p.seen ==> Known(p.published, p.db.deposits.Keys, h))
    && (forall h :: h in p.db.deposits ==> p.db.deposits[h] in p.published && p.db.deposits[h].tx == h)
  }

  lemma TrackKeeps(seen: seq<TxHash>, limit: int, tx: TxHash)
    requires |seen| <= Max(1, limit) && Distinct(seen)
    ensures |Track(seen, limit, tx)| <= Max(1, limit) && Distinct(Track(seen, limit, tx))
    ensures forall h :: h in Track(seen, limit, tx) ==> h in seen || h == tx
    ensures tx in Track(seen, limit, tx)
  {
  }

  lemma StepKeeps(p: Pipe, limit: int, step: Step)
    requires Inv(p, limit)
    ensures Inv(Next(p, limit, step), limit)
  {
    match step
    case Observe(ev) => TrackKeeps(p.seen, limit, ev.tx);
    case Send(ev, tracked) =>
      TrackKeeps(p.seen, limit, ev.tx);
      var after := p.published + [ev];
      assert after[|p.published|].tx == ev.tx;
      KnownGrows(p.published, after, p.db.deposits.Keys);
    case SendFails(_) =>
    case Deliver(_) =>
    case Restart =>
  }

  lemma {:induction false} RunKeeps(p: Pipe, limit: int, steps: seq<Step>)
    requires Inv(p, limit)
    ensures Inv(Run(p, limit, steps), limit)
    decreases |steps|
  {
    if steps != [] {
      StepKeeps(p, limit, steps[0]);
      RunKeeps(Next(p, limit, steps[0]), limit, steps[1..]);
    }
  }

  function Start(wallets: map<Wallet, int>): Pipe { Pipe([], {}, [], Db(wallets, map[], map[], map[])) }

  // A scanned deposit that is not taken up has already been published or recorded, the cache stays
  // within its bound, and only published deposits are recorded.
  lemma NothingSuppressedWrongly(wallets: map<Wallet, int>, limit: int, steps: seq<Step>, ev: DepositEvent)
    ensures var p := Run(Start(wallets), limit, steps);
      && |p.seen| <= Max(1, limit)
      && (ev !in Next(p, limit, Observe(ev)).calls ==> Known(p.published, p.db.deposits.Keys, ev.tx))
      && (forall h :: h in p.db.deposits ==> p.db.deposits[h] in p.published)
  {
    RunKeeps(Start(wallets), limit, steps);
  }

  // How often a run adds a row, and with it a credit, for hash h.
  function Credits(p: Pipe, limit: int, steps: seq<Step>, h: TxHash): nat
    decreases |steps|
  {
    if steps == [] then 0
    else
      var next := Next(p, limit, steps[0]);
      (if next.db != p.db && steps[0].Deliver? && p.published[steps[0].j].tx == h then 1 else 0)
      + Credits(next, limit, steps[1..], h)
  }

  // At most one credit per transaction, over any rescans, evictions, restarts and redeliveries.
  lemma {:induction false} CreditedOnce(p: Pipe, limit: int, steps: seq<Step>, h: TxHash)
    ensures Credits(p, limit, steps, h) + (if h in p.db.deposits then 1 else 0)
         == if h in Run(p, limit, steps).db.deposits then 1 else 0
    decreases |steps|
  {
    if steps != [] {
      CreditedOnce(Next(p, limit, steps[0]), limit, steps[1..], h);
    }
  }

  // The credit is the amount that was on chain: balances are openings plus recorded deposits.
  lemma {:induction false} BalancesAreDeposits(p: Pipe, limit: int, steps: seq<Step>, w: Wallet)
    requires w in p.db.wallets
    ensures var last := Run(p, limit, steps).db;
      && w in last.wallets
      && last.wallets[w] - Formula(last, w) == p.db.wallets[w] - Formula(p.db, w)
    decreases |steps|
  {
    if steps != [] {
      var next := Next(p, limit, steps[0]);
      if next.db != p.db {
        LedgerProofs.ApplyFormula(p.db, LedgerProofs.Deposit(p.published[steps[0].j]), 0, w);
      }
      BalancesAreDeposits(next, limit, steps[1..], w);
    }
  }
}
