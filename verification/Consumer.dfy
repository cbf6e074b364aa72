/** The `eachBatch` handler of the ledger consumer: the sliced BetResolved loop, whose resolved offsets
    never pass an uncommitted slice, and the one-at-a-time loop for deposits and withdrawals, where a
    later success can resolve past an earlier failure.

    Offsets are positions in the partition. What happens around the handler (shutdown, staleness, a
    failing database or broker) is a parameter. */
module Consumer {
  import opened Domain
  import opened Ledger
  import Redis
  import LedgerProofs
  import Division

  // A message: skipped (no value, or not JSON), JSON that is no bet event, or an event.
  datatype Message = Skipped | Foreign | Bet(value: BetEvent)

  // What a foreign value amounts to: `batchInsertBets` fails on it as on an event without a valid row.
  const NO_EVENT: BetEvent := BetEvent(0, Wallet(0, Ethereum, ETH), 0, 0, 0, 0)

  function Events(m: Message): seq<BetEvent>
  {
    match m
    case Skipped => []
    case Foreign => [NO_EVENT]
    case Bet(ev) => [ev]
  }

  function Parse(messages: seq<Message>): seq<BetEvent>
    decreases |messages|
  {
    if messages == [] then []
    else
      Parse(messages[..|messages| - 1]) + Events(messages[|messages| - 1])
  }

  datatype SliceEnv = SliceEnv(active: bool, fault: Fault, commitWorks: bool)

  datatype Exit = Finished | Stopped | SliceFailed | CommitThrew

  // Part of a batch has been handled: `done` messages are resolved, and the events of the first
  // `applied` are in the tables (more than `done` only when an acknowledgement was lost).
  ghost predicate Session(before: Db, messages: seq<Message>, done: nat, applied: nat, after: Db)
  {
    && done <= applied <= |messages|
    && RowsOk(Parse(messages[..applied]))
    && after == InsertBets(before, Parse(messages[..applied]))
  }

  class BetConsumer {
    const db: LedgerDb
    var resolved: nat
    var committed: nat

    constructor (db: LedgerDb)
      ensures this.db == db && resolved == 0 && committed == 0
    {
      this.db := db;
      resolved, committed := 0, 0;
    }

    // The parse loop over one slice.
    static method SliceEvents(messages: seq<Message>, lo: nat, hi: nat) returns (events: seq<BetEvent>)
      requires lo <= hi <= |messages|
      ensures events == Parse(messages[lo..hi]) && |events| <= hi - lo
    {
      events := [];
      for j := lo to hi
        invariant events == Parse(messages[lo..j]) && |events| <= j - lo
      {
        assert messages[lo..j + 1][..j - lo] == messages[lo..j];
        if messages[j] != Skipped {
          events := events + Events(messages[j]);
        }
      }
    }

    // resolveOffset for every message of a slice.
    method ResolveSlice(base: nat, lo: nat, hi: nat)
      requires lo <= hi
      modifies this`resolved
      ensures resolved == if lo < hi then base + hi else old(resolved)
    {
      for j := lo to hi
        invariant resolved == if lo < j then base + j else old(resolved)
      {
        resolved := base + j + 1;
      }
    }

    // One slice, once the loop was found running: insert, resolve, commit. Without events the database
    // is not asked.
    method HandleSlice(messages: seq<Message>, base: nat, lo: nat, hi: nat, e: SliceEnv, ghost start: Db)
      returns (exit: Option<Exit>, ghost applied: nat)
      requires db.Valid() && lo <= hi <= |messages| && Session(start, messages, lo, lo, db.State())
      modifies this, db
      ensures db.Valid()
      ensures exit == if SliceRefused(old(db.State()), Parse(messages[lo..hi]), e) then Some(SliceFailed)
                      else if !e.commitWorks then Some(CommitThrew) else None
      ensures applied == if exit == Some(SliceFailed) && (e.fault != AckLost || ApplyBets(old(db.State()), Parse(messages[lo..hi])).None?)
                         then lo else hi
      ensures Session(start, messages, if exit == Some(SliceFailed) then lo else hi, applied, db.State())
      ensures resolved == if exit != Some(SliceFailed) && lo < hi then base + hi else old(resolved)
      ensures committed == if exit == None then resolved else old(committed)
    {
      hide Session, NonNegative, Parse, InsertBets;
      ghost var before := db.State();
      var events := SliceEvents(messages, lo, hi);
      if events != [] {
        var ok := db.BatchInsertBets(events, e.fault);
        if !ok {
          ghost var written := e.fault == AckLost && ApplyBets(before, events).Some?;
          if written {
            SessionGrows(start, messages, lo, hi, before);
          }
          return Some(SliceFailed), if written then hi else lo;
        }
      }
      SliceAccepted(before, events);
      SessionGrows(start, messages, lo, hi, before);
      ResolveSlice(base, lo, hi);
      if !e.commitWorks {
        return Some(CommitThrew), hi;
      }
      committed := resolved;
      return None, hi;
    }

    // `base` is the offset of the first message; `env(n)` is what happens around slice n. With slices
    // of size 0 the loop runs on the spot, until it is stopped (at `horizon`, at the latest).
    method EachBatch(messages: seq<Message>, base: nat, batchSize: nat, env: nat -> SliceEnv, ghost horizon: nat)
      returns (exit: Exit, done: nat, slices: nat, ghost applied: nat)
      requires db.Valid()
      requires batchSize == 0 ==> !env(horizon).active || !env(horizon).commitWorks
      modifies this, db
      ensures db.Valid()
      ensures Session(old(db.State()), messages, done, applied, db.State())
      ensures resolved == if done == 0 then old(resolved) else base + done
      ensures committed == if slices == 0 then old(committed)
                           else var from := SliceStart(slices, batchSize, |messages|);
                                if from == 0 then old(resolved) else base + from
      ensures 0 < slices && exit != CommitThrew ==> committed == resolved
      ensures forall n :: 0 <= n < slices ==>
        env(n).active && env(n).commitWorks && !RoundRefused(old(db.State()), messages, batchSize, env(n), n)
      ensures var from := SliceStart(slices, batchSize, |messages|);
        var more := from < |messages|;
        var refused := RoundRefused(old(db.State()), messages, batchSize, env(slices), slices);
        && (exit == Finished <==> !more)
        && (exit == Stopped <==> more && !env(slices).active)
        && (exit == SliceFailed <==> more && env(slices).active && refused)
        && (exit == CommitThrew <==> more && env(slices).active && !refused && !env(slices).commitWorks)
        && done == (if exit == CommitThrew then SliceStart(slices + 1, batchSize, |messages|) else from)
      ensures applied == if exit == SliceFailed && env(slices).fault == AckLost
                            && RoundAccepted(old(db.State()), messages, batchSize, slices)
                         then SliceStart(slices + 1, batchSize, |messages|) else done
      ensures batchSize == 0 && messages != [] ==> done == 0 && (exit == Stopped || exit == CommitThrew)
    {
      hide Session, NonNegative, Parse, InsertBets, SliceRefused, ApplyBets;
      var i := 0;
      done, slices, applied := 0, 0, 0;
      SessionStarts(db.State(), messages);
      while i < |messages|
        invariant i == done == applied <= |messages|
        invariant db.Valid()
        invariant Session(old(db.State()), messages, done, applied, db.State())
        invariant resolved == if done == 0 then old(resolved) else base + done
        invariant committed == if slices == 0 then old(committed) else resolved
        invariant i == SliceStart(slices, batchSize, |messages|)
        invariant forall n :: 0 <= n < slices ==>
          env(n).active && env(n).commitWorks && !RoundRefused(old(db.State()), messages, batchSize, env(n), n)
        invariant batchSize == 0 ==> i == 0 && slices <= horizon
        decreases |messages| - i, horizon - slices
      {
        if !env(slices).active {
          return Stopped, done, slices, applied;
        }
        var end := Min(i + batchSize, |messages|);
        RoundIs(old(db.State()), messages, batchSize, env(slices), slices, db.State());
        EmptyRound(old(db.State()), messages, env(slices), slices);
        var stop;
        stop, applied := HandleSlice(messages, base, i, end, env(slices), old(db.State()));
        if stop == Some(SliceFailed) {
          return SliceFailed, done, slices, applied;
        }
        done, i := end, end;
        if stop == Some(CommitThrew) {
          return CommitThrew, done, slices, applied;
        }
        slices := slices + 1;
      }
      exit := Finished;
    }
  }

  // Where slice n of the loop begins.
  function SliceStart(n: nat, batchSize: nat, len: nat): (i: nat)
    ensures i <= len
    ensures batchSize == 0 ==> i == 0
  {
    if n == 0 then 0 else Min(SliceStart(n - 1, batchSize, len) + batchSize, len)
  }

  lemma {:induction false} SliceStartIs(n: nat, batchSize: nat, len: nat)
    ensures SliceStart(n, batchSize, len) == Min(n * batchSize, len)
  {
    if 0 < n {
      SliceStartIs(n - 1, batchSize, len);
      Division.MulDistributes(n - 1, 1, batchSize);
    }
  }

  // The insert of a slice fails: there is something to insert, and the database refuses it or fails.
  predicate SliceRefused(before: Db, events: seq<BetEvent>, e: SliceEnv)
  {
    events != [] && (e.fault != NoFault || ApplyBets(before, events).None?)
  }

  // The insert of slice n fails, on the tables with everything before it.
  predicate RoundRefused(db: Db, messages: seq<Message>, batchSize: nat, e: SliceEnv, n: nat)
  {
    var from, to := SliceStart(n, batchSize, |messages|), SliceStart(n + 1, batchSize, |messages|);
    from <= to && SliceRefused(InsertBets(db, Parse(messages[..from])), Parse(messages[from..to]), e)
  }

  predicate RoundAccepted(db: Db, messages: seq<Message>, batchSize: nat, n: nat)
  {
    var from, to := SliceStart(n, batchSize, |messages|), SliceStart(n + 1, batchSize, |messages|);
    from <= to && ApplyBets(InsertBets(db, Parse(messages[..from])), Parse(messages[from..to])).Some?
  }

  lemma RoundIs(db: Db, messages: seq<Message>, batchSize: nat, e: SliceEnv, n: nat, now: Db)
    requires var from := SliceStart(n, batchSize, |messages|); Session(db, messages, from, from, now)
    ensures var from := SliceStart(n, batchSize, |messages|);
      RoundRefused(db, messages, batchSize, e, n) <==>
        SliceRefused(now, Parse(messages[from..Min(from + batchSize, |messages|)]), e)
    ensures var from := SliceStart(n, batchSize, |messages|);
      RoundAccepted(db, messages, batchSize, n) <==>
        ApplyBets(now, Parse(messages[from..Min(from + batchSize, |messages|)])).Some?
  {
    hide SliceRefused, Parse, InsertBets, ApplyBets;
  }

  lemma EmptyRound(db: Db, messages: seq<Message>, e: SliceEnv, n: nat)
    ensures !RoundRefused(db, messages, 0, e, n)
  {
    hide InsertBets, ApplyBets;
    assert SliceStart(n, 0, |messages|) == SliceStart(n + 1, 0, |messages|) == 0;
    assert Parse(messages[0..0]) == [];
  }

  lemma SliceAccepted(before: Db, events: seq<BetEvent>)
    requires events == [] || ApplyBets(before, events).Some?
    ensures RowsOk(events) && (events == [] ==> InsertBets(before, events) == before)
  {
  }

  lemma {:induction false} ParseAppend(a: seq<Message>, b: seq<Message>)
    ensures Parse(a + b) == Parse(a) + Parse(b)
    decreases |b|
  {
    if b == [] {
      assert a + b == a;
    } else {
      assert (a + b)[..|a + b| - 1] == a + b[..|b| - 1];
      ParseAppend(a, b[..|b| - 1]);
    }
  }

  lemma {:induction false} InsertAppend(db: Db, a: seq<BetEvent>, b: seq<BetEvent>)
    ensures InsertBets(db, a + b) == InsertBets(InsertBets(db, a), b)
    decreases |b|
  {
    if b == [] {
      assert a + b == a;
    } else {
      assert (a + b)[..|a + b| - 1] == a + b[..|b| - 1];
      InsertAppend(db, a, b[..|b| - 1]);
    }
  }

  lemma SessionStarts(db: Db, messages: seq<Message>)
    ensures Session(db, messages, 0, 0, db)
  {
    assert messages[..0] == [];
  }

  // A slice that the ledger accepted extends the session to its end.
  lemma SessionGrows(start: Db, messages: seq<Message>, lo: nat, hi: nat, before: Db)
    requires lo <= hi <= |messages|
    requires Session(start, messages, lo, lo, before)
    requires RowsOk(Parse(messages[lo..hi]))
    ensures Session(start, messages, hi, hi, InsertBets(before, Parse(messages[lo..hi])))
    ensures Session(start, messages, lo, hi, InsertBets(before, Parse(messages[lo..hi])))
  {
    assert messages[..hi] == messages[..lo] + messages[lo..hi];
    ParseAppend(messages[..lo], messages[lo..hi]);
    InsertAppend(start, Parse(messages[..lo]), Parse(messages[lo..hi]));
  }

  // The handler sees a batch, the schedules below the whole rest of the log.
  lemma SessionOfBatch(db: Db, log: seq<Message>, start: nat, end: nat, done: nat, applied: nat, after: Db)
    requires start <= end <= |log| && Session(db, log[start..end], done, applied, after)
    ensures Session(db, log[start..], done, applied, after)
  {
    assert log[start..end][..applied] == log[start..][..applied];
  }

  // ----- Exactly once over any schedule of sessions -----

  // A consumer session over log[start..]: a run of the handler on some batches from `start` on, ended
  // by a crash, a rebalance or the end of the batch.
  datatype Attempt = Attempt(start: nat, done: nat, applied: nat)

  ghost predicate Schedule(db: Db, log: seq<Message>, frontier: nat, attempts: seq<Attempt>, after: Db, last: nat)
    decreases |attempts|
  {
    if attempts == [] then after == db && last == frontier
    else
      var a := attempts[0];
      && a.start <= frontier && a.start <= |log|
      && exists mid :: Session(db, log[a.start..], a.done, a.applied, mid)
                       && Schedule(mid, log, Max(frontier, a.start + a.done), attempts[1..], after, last)
  }

  ghost predicate Recorded(db: Db, log: seq<Message>, frontier: nat)
  {
    frontier <= |log| && forall j :: 0 <= j < frontier && log[j].Bet? ==> log[j].value.id in db.transactions
  }

  lemma {:induction false} Parsed(messages: seq<Message>, k: nat)
    requires k < |messages|
    ensures forall ev :: ev in Events(messages[k]) ==> ev in Parse(messages)
    decreases |messages|
  {
    var front := messages[..|messages| - 1];
    if k < |front| {
      assert front[k] == messages[k];
      Parsed(front, k);
    }
  }

  lemma SessionRecords(db: Db, log: seq<Message>, frontier: nat, a: Attempt, after: Db)
    requires Recorded(db, log, frontier) && a.start <= frontier
    requires Session(db, log[a.start..], a.done, a.applied, after)
    ensures Recorded(after, log, Max(frontier, a.start + a.done))
  {
    hide RowsOk, InsertBets, Parse;
    var taken := log[a.start..][..a.applied];
    LedgerProofs.InsertedAll(db, Parse(taken));
    forall j | 0 <= j < Max(frontier, a.start + a.done) && log[j].Bet?
      ensures log[j].value.id in after.transactions
    {
      if frontier <= j {
        assert taken[j - a.start] == log[j];
        Parsed(taken, j - a.start);
        assert log[j].value in Events(log[j]);
      }
    }
  }

  lemma SessionMoves(db: Db, messages: seq<Message>, done: nat, applied: nat, after: Db)
    requires Session(db, messages, done, applied, after)
    ensures after.wallets.Keys == db.wallets.Keys
    ensures forall w :: w in db.wallets ==> after.wallets[w] - Formula(after, w) == db.wallets[w] - Formula(db, w)
  {
    var evs := Parse(messages[..applied]);
    LedgerProofs.InsertBetsWalletKeys(db, evs);
    forall w | w in db.wallets
      ensures after.wallets[w] - Formula(after, w) == db.wallets[w] - Formula(db, w)
    {
      LedgerProofs.InsertBetsFormula(db, evs, w);
    }
  }

  // Any number of sessions, each resuming at or before the resolved offset: every parseable event
  // below the final offset is recorded, and each wallet moved by the P&L of the new rows exactly.
  lemma {:induction false} AtLeastOnceExactlyOnce(db: Db, log: seq<Message>, frontier: nat, attempts: seq<Attempt>,
                                                  after: Db, last: nat)
    requires Recorded(db, log, frontier) && Schedule(db, log, frontier, attempts, after, last)
    ensures Recorded(after, log, last) && frontier <= last
    ensures after.wallets.Keys == db.wallets.Keys
    ensures forall w :: w in db.wallets ==> after.wallets[w] - Formula(after, w) == db.wallets[w] - Formula(db, w)
    decreases |attempts|
  {
    hide Session, Formula, Recorded;
    if attempts != [] {
      var a := attempts[0];
      var mid :| Session(db, log[a.start..], a.done, a.applied, mid)
                 && Schedule(mid, log, Max(frontier, a.start + a.done), attempts[1..], after, last);
      hide Schedule;
      SessionRecords(db, log, frontier, a, mid);
      SessionMoves(db, log[a.start..], a.done, a.applied, mid);
      AtLeastOnceExactlyOnce(mid, log, Max(frontier, a.start + a.done), attempts[1..], after, last);
    }
  }

  // ----- A row that breaks a CHECK -----

  predicate Unstorable(m: Message) { m.Foreign? || (m.Bet? && !RowOk(m.value)) }

  lemma StorableParts(messages: seq<Message>, k: nat)
    requires k < |messages| && RowsOk(Parse(messages))
    ensures !Unstorable(messages[k])
  {
    Parsed(messages, k);
    if !messages[k].Skipped? {
      var ev := Events(messages[k])[0];
      assert ev in Parse(messages);
      var i :| 0 <= i < |Parse(messages)| && Parse(messages)[i] == ev;
      assert RowOk(Parse(messages)[i]);
    }
  }

  lemma NotApplied(db: Db, log: seq<Message>, a: Attempt, after: Db, p: nat)
    requires a.start <= p < |log| && Unstorable(log[p])
    requires Session(db, log[a.start..], a.done, a.applied, after)
    ensures a.done <= a.applied && a.start + a.applied <= p
  {
    var messages := log[a.start..];
    if p < a.start + a.applied {
      assert messages[..a.applied][p - a.start] == log[p];
      StorableParts(messages[..a.applied], p - a.start);
    }
  }

  // One event whose row the schema refuses (a wager that rounded to 0, say), or one value that is no
  // event at all, stops the partition: no schedule of sessions, with any slice sizes, ever resolves past it.
  lemma {:induction false} Blocked(db: Db, log: seq<Message>, frontier: nat, attempts: seq<Attempt>,
                                   after: Db, last: nat, p: nat)
    requires Schedule(db, log, frontier, attempts, after, last)
    requires p < |log| && frontier <= p && Unstorable(log[p])
    ensures last <= p
    decreases |attempts|
  {
    hide Session, Unstorable;
    if attempts != [] {
      var a := attempts[0];
      var mid :| Session(db, log[a.start..], a.done, a.applied, mid)
                 && Schedule(mid, log, Max(frontier, a.start + a.done), attempts[1..], after, last);
      hide Schedule;
      NotApplied(db, log, a, mid, p);
      Blocked(mid, log, Max(frontier, a.start + a.done), attempts[1..], after, last, p);
    }
  }

  // ----- Deposits and withdrawals, one message at a time -----

  datatype Single = DepositMessage(dep: DepositEvent) | WithdrawalMessage(wd: WithdrawalEvent)

  // A message: without a value, not JSON (or JSON null, on which the handler's own error path throws),
  // or an event. Other JSON values are read as events that the tables refuse.
  datatype Record = Empty | Malformed | Event(value: Single)

  // `connects` is false when no database connection can be had.
  datatype SingleEnv = SingleEnv(active: bool, connects: bool, fault: Fault, redisFails: bool, publishFails: bool, commitWorks: bool)

  // The event has its row, or a row of the same transaction hash stands for it.
  predicate Present(db: Db, m: Single)
  {
    match m
    case DepositMessage(ev) => ev.tx in db.deposits
    case WithdrawalMessage(ev) => PaidHash(db, ev.tx)
  }

  function TrySingle(db: Db, m: Single): Option<Db>
  {
    match m
    case DepositMessage(ev) => ApplyDeposit(db, ev)
    case WithdrawalMessage(ev) => ApplyWithdrawal(db, ev)
  }

  // What the handler of one event returns: only the first recording goes on to Redis.
  predicate SingleOk(db: Db, m: Single, env: SingleEnv)
  {
    && env.connects && env.fault == NoFault && TrySingle(db, m).Some?
    && match m
       case DepositMessage(ev) =>
         NewDeposit(db, ev) && ev.wallet in db.wallets ==> !env.redisFails && !env.publishFails
       case WithdrawalMessage(ev) =>
         !PaidHash(db, ev.tx) && ev.wallet in db.wallets ==> !env.publishFails
  }

  // The offset of a message is resolved when its handler succeeds, but also when it throws: the catch
  // block meant for malformed messages takes a failed connection for one.
  predicate Resolves(db: Db, m: Record, env: SingleEnv)
  {
    m.Event? && env.connects ==> SingleOk(db, m.value, env)
  }

  // The statement of an event is sent.
  predicate Sends(env: SingleEnv) { env.connects && env.fault != Refused }

  function AfterSingle(db: Db, m: Record, env: SingleEnv): Db
  {
    if !m.Event? || !Sends(env) || TrySingle(db, m.value).None? then db else TrySingle(db, m.value).value
  }

  // Tables and verdicts after the first n messages.
  function After(db: Db, messages: seq<Record>, env: nat -> SingleEnv, n: nat): (Db, seq<bool>)
    requires n <= |messages|
  {
    if n == 0 then (db, [])
    else
      var (before, oks) := After(db, messages, env, n - 1);
      var m := messages[n - 1];
      (AfterSingle(before, m, env(n - 1)), oks + [Resolves(before, m, env(n - 1))])
  }

  // What the handler adds to the Redis balance of w.
  function CreditTo(db: Db, m: Record, env: SingleEnv, w: Wallet): int
  {
    if m.Event? && m.value.DepositMessage? && m.value.dep.wallet == w && w in db.wallets
       && NewDeposit(db, m.value.dep) && env.connects && env.fault == NoFault && !env.redisFails
    then m.value.dep.amount else 0
  }

  function CreditsTo(db: Db, messages: seq<Record>, env: nat -> SingleEnv, n: nat, w: Wallet): int
    requires n <= |messages|
  {
    if n == 0 then 0
    else CreditsTo(db, messages, env, n - 1, w)
         + CreditTo(After(db, messages, env, n - 1).0, messages[n - 1], env(n - 1), w)
  }

  class SingleConsumer {
    const db: LedgerDb
    const redis: Redis.RedisStore
    var resolved: nat
    var committed: nat

    constructor (db: LedgerDb, redis: Redis.RedisStore)
      ensures this.db == db && this.redis == redis && resolved == 0 && committed == 0
    {
      this.db, this.redis := db, redis;
      resolved, committed := 0, 0;
    }

    // One message, malformed ones included: `ok` tells whether its offset is resolved. A wallet key present in Redis moves by the deposit's
    // amount or stays.
    method Process(m: Record, env: SingleEnv) returns (ok: bool)
      requires db.Valid()
      modifies db, redis
      ensures db.Valid()
      ensures db.State() == AfterSingle(old(db.State()), m, env)
      ensures ok <==> Resolves(old(db.State()), m, env)
      ensures forall w :: w in old(redis.balance) ==>
        w in redis.balance
        && redis.Acct(w) == Redis.Credit(old(redis.Acct(w)), CreditTo(old(db.State()), m, env, w))
    {
      if !m.Event? {
        return true;
      }
      var threw, skew;
      match m.value {
        case DepositMessage(ev) =>
          threw, ok, skew := db.ProcessDepositReceived(ev, redis, env.connects, env.fault, env.redisFails, env.publishFails);
        case WithdrawalMessage(ev) =>
          threw, ok := db.ProcessWithdrawalCompleted(ev, env.connects, env.fault, env.publishFails);
      }
      if threw {
        ok := true; // resolved by the catch block
      }
    }

    // The state after the messages that `oks` judges, from tables `start` and accounts `accts`.
    predicate Progress(start: Db, accts: map<Wallet, Redis.Account>, messages: seq<Record>,
                       env: nat -> SingleEnv, oks: seq<bool>)
      reads db, redis
    {
      && |oks| <= |messages|
      && (db.State(), oks) == After(start, messages, env, |oks|)
      && forall w :: w in accts ==>
           w in redis.balance && redis.Acct(w) == Redis.Credit(accts[w], CreditsTo(start, messages, env, |oks|, w))
    }

    method ProcessNext(messages: seq<Record>, env: nat -> SingleEnv, oks: seq<bool>,
                       ghost start: Db, ghost accts: map<Wallet, Redis.Account>) returns (ok: bool)
      requires db.Valid() && |oks| < |messages| && Progress(start, accts, messages, env, oks)
      modifies db, redis
      ensures db.Valid() && Progress(start, accts, messages, env, oks + [ok])
    {
      hide AfterSingle, Resolves, CreditTo, NonNegative;
      ok := Process(messages[|oks|], env(|oks|));
    }

    // The loop itself: the offset follows the last resolved message, whatever failed before it.
    method ProcessFrom(messages: seq<Record>, base: nat, env: nat -> SingleEnv,
                       ghost start: Db, ghost accts: map<Wallet, Redis.Account>) returns (oks: seq<bool>)
      requires db.Valid() && Progress(start, accts, messages, env, [])
      modifies this, db, redis
      ensures db.Valid() && |oks| <= |messages| && Progress(start, accts, messages, env, oks)
      ensures EndsWith(messages, env, |oks|)
      ensures resolved == Offset(old(resolved), base, oks)
      ensures committed == var k := CommittedAfter(messages, env, |oks|);
        if k == 0 then old(committed) else Offset(old(resolved), base, oks[..k])
    {
      hide Progress, NonNegative, Offset;
      oks := [];
      OffsetNone(resolved, base);
      for i := 0 to |messages|
        invariant db.Valid() && |oks| == i && Progress(start, accts, messages, env, oks)
        invariant forall k :: 0 <= k < i ==> Continues(messages, env, k)
        invariant 0 < i ==> Continues(messages, env, i - 1)
        invariant resolved == Offset(old(resolved), base, oks)
        invariant committed == var k := CommittedAfter(messages, env, i);
          if k == 0 then old(committed) else Offset(old(resolved), base, oks[..k])
      {
        if !env(i).active {
          return;
        }
        var ok := ProcessNext(messages, env, oks, start, accts);
        OffsetNext(old(resolved), base, oks, ok);
        if ok {
          resolved := base + i + 1;
        }
        ghost var before := oks;
        oks := oks + [ok];
        assert forall k :: 0 <= k <= i ==> oks[..k] == before[..k];
        if messages[i].Empty? {
          continue;
        }
        if !env(i).commitWorks {
          return;
        }
        committed := resolved;
        assert oks[..i + 1] == oks;
      }
    }

    // `oks[i]` tells whether message i was resolved (handled, malformed, or without a connection).
    method EachBatch(messages: seq<Record>, base: nat, env: nat -> SingleEnv) returns (oks: seq<bool>)
      requires db.Valid()
      modifies this, db, redis
      ensures db.Valid()
      ensures |oks| <= |messages| && EndsWith(messages, env, |oks|)
      ensures (db.State(), oks) == After(old(db.State()), messages, env, |oks|)
      ensures forall w :: w in old(redis.balance) ==>
        redis.Acct(w) == Redis.Credit(old(redis.Acct(w)), CreditsTo(old(db.State()), messages, env, |oks|, w))
      ensures resolved == Offset(old(resolved), base, oks)
      ensures committed == var k := CommittedAfter(messages, env, |oks|);
        if k == 0 then old(committed) else Offset(old(resolved), base, oks[..k])
    {
      hide AfterSingle, Resolves, CreditTo, NonNegative, Offset, CommittedAfter, EndsWith;
      ghost var start, accts := db.State(), map w | w in redis.balance :: redis.Acct(w);
      oks := ProcessFrom(messages, base, env, start, accts);
    }
  }

  // The loop goes on after message i: it was started, and the commit after it, if any, worked.
  predicate Continues(messages: seq<Record>, env: nat -> SingleEnv, i: nat)
    requires i < |messages|
  {
    env(i).active && (messages[i].Empty? || env(i).commitWorks)
  }

  // The loop handles n messages: all of them, or until it is stopped or a commit throws.
  predicate EndsWith(messages: seq<Record>, env: nat -> SingleEnv, n: nat)
    requires n <= |messages|
  {
    && (forall i :: 0 <= i < n - 1 ==> Continues(messages, env, i))
    && (0 < n ==> env(n - 1).active)
    && (n < |messages| ==> (0 < n && !Continues(messages, env, n - 1)) || !env(n).active)
  }

  // How many messages were handled when the offset was last committed.
  function CommittedAfter(messages: seq<Record>, env: nat -> SingleEnv, n: nat): (k: nat)
    requires n <= |messages|
    ensures k <= n
  {
    if n == 0 then 0
    else if !messages[n - 1].Empty? && env(n - 1).commitWorks then n
    else CommittedAfter(messages, env, n - 1)
  }

  // It is the last message after which a commit was made and worked.
  lemma {:induction false} CommittedAfterIs(messages: seq<Record>, env: nat -> SingleEnv, n: nat)
    requires n <= |messages|
    ensures var k := CommittedAfter(messages, env, n);
      && (0 < k ==> !messages[k - 1].Empty? && env(k - 1).commitWorks)
      && forall j :: k <= j < n ==> messages[j].Empty? || !env(j).commitWorks
  {
    if 0 < n {
      CommittedAfterIs(messages, env, n - 1);
    }
  }

  // The resolved offset after a batch from `base` on, from what it was before.
  function Offset(before: nat, base: nat, oks: seq<bool>): nat
  {
    if ResolvedTo(oks) == 0 then before else base + ResolvedTo(oks)
  }

  // A message of the batch lies below the resolved offset exactly if it or a later one was resolved.
  lemma OffsetCovers(before: nat, base: nat, oks: seq<bool>, i: nat)
    requires before <= base
    ensures base + i < Offset(before, base, oks) <==> exists k :: i <= k < |oks| && oks[k]
    ensures (forall k :: 0 <= k < |oks| ==> !oks[k]) ==> Offset(before, base, oks) == before
  {
    ResolvedToSpec(oks, i);
    ResolvedToSpec(oks, 0);
  }

  lemma OffsetNone(before: nat, base: nat)
    ensures Offset(before, base, []) == before
  {
  }

  lemma OffsetNext(before: nat, base: nat, oks: seq<bool>, ok: bool)
    ensures Offset(before, base, oks + [ok]) == if ok then base + |oks| + 1 else Offset(before, base, oks)
  {
    assert (oks + [ok])[..|oks|] == oks;
  }

  lemma SinglePresence(db: Db, m: Record, env: SingleEnv)
    ensures m.Event? && SingleOk(db, m.value, env) ==> Present(AfterSingle(db, m, env), m.value)
    ensures forall n :: Present(db, n) ==> Present(AfterSingle(db, m, env), n)
  {
    var after := AfterSingle(db, m, env);
    if m.Event? && m.value.WithdrawalMessage? && after != db {
      assert after.withdrawals[m.value.wd.id] == m.value.wd;
      forall i | i in db.withdrawals
        ensures i in after.withdrawals && after.withdrawals[i] == db.withdrawals[i]
      {
      }
    }
  }

  // Every event that was resolved by its own success is recorded.
  lemma {:induction false} ResolvedArePresent(db: Db, messages: seq<Record>, env: nat -> SingleEnv, n: nat)
    requires n <= |messages|
    ensures var (after, oks) := After(db, messages, env, n);
      && |oks| == n
      && forall i :: 0 <= i < n && messages[i].Event? && env(i).connects && oks[i] ==> Present(after, messages[i].value)
  {
    if 0 < n {
      ResolvedArePresent(db, messages, env, n - 1);
      SinglePresence(After(db, messages, env, n - 1).0, messages[n - 1], env(n - 1));
    }
  }

  // One past the last resolved message.
  function ResolvedTo(oks: seq<bool>): (r: nat)
    ensures r <= |oks|
    decreases |oks|
  {
    if oks == [] then 0
    else if oks[|oks| - 1] then |oks|
    else ResolvedTo(oks[..|oks| - 1])
  }

  lemma {:induction false} ResolvedToSpec(oks: seq<bool>, i: nat)
    ensures i < ResolvedTo(oks) <==> exists k :: i <= k < |oks| && oks[k]
    decreases |oks|
  {
    if oks != [] {
      var last := |oks| - 1;
      ResolvedToSpec(oks[..last], i);
      if k :| i <= k < |oks| && oks[k] {
        assert k < last ==> oks[..last][k];
      }
      if k :| i <= k < last && oks[..last][k] {
        assert oks[k];
      }
    }
  }
}
