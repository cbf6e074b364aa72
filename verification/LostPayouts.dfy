/** The completions that the one-at-a-time loop loses, and those it must not: a redelivered completion is
    always resolved, and which first ones are lost is told from the balance they meet and the faults. */
module LostPayouts {
  import opened Domain
  import opened Ledger
  import opened Consumer
  import opened Lost

  // ----- Redelivery -----

  // A message whose transaction is recorded changes nothing and is resolved, whatever fails after its
  // statement.
  lemma RedeliveryResolves(db: Db, e: Single, env: SingleEnv)
    requires Present(db, e) && env.connects && env.fault == NoFault
    requires 0 < if e.DepositMessage? then e.dep.amount else e.wd.amount
    ensures Resolves(db, Event(e), env) && AfterSingle(db, Event(e), env) == db
  {
  }

  // So is every redelivery after a message of the same transaction was written.
  lemma RedeliveredResolved(db: Db, messages: seq<Record>, env: nat -> SingleEnv, i: nat, j: nat)
    requires i < j < |messages| && messages[i].Event? && messages[j].Event?
    requires SameHash(messages[i].value, messages[j].value) && Writes(db, messages, env, i)
    requires env(j).connects && env(j).fault == NoFault
    requires var e := messages[j].value; 0 < if e.DepositMessage? then e.dep.amount else e.wd.amount
    ensures IsResolved(db, messages, env, j)
    ensures After(db, messages, env, j + 1).0 == After(db, messages, env, j).0
  {
    PresentExactly(db, messages, env, j, messages[j].value);
    hide Writes, SameHash;
    RedeliveryResolves(After(db, messages, env, j).0, messages[j].value, env(j));
  }

  // ----- First completions -----

  // A completion batch: positive amounts, and an id belongs to one transaction.
  predicate ProperWithdrawals(db: Db, messages: seq<Record>)
  {
    forall j :: 0 <= j < |messages| && messages[j].Event? ==>
      && messages[j].value.WithdrawalMessage?
      && 0 < messages[j].value.wd.amount
      && (messages[j].value.wd.id in db.withdrawals ==> db.withdrawals[messages[j].value.wd.id].tx == messages[j].value.wd.tx)
      && (forall k :: 0 <= k < |messages| && messages[k].Event? && messages[k].value.WithdrawalMessage?
                      && messages[k].value.wd.id == messages[j].value.wd.id ==>
            messages[k].value.wd.tx == messages[j].value.wd.tx)
  }

  // The wallet has a row that does not cover the debit.
  predicate Short(db: Db, ev: WithdrawalEvent) { ev.wallet in db.wallets && db.wallets[ev.wallet] < ev.amount }

  // The debit of message j is sent, and its wallet covers it then.
  predicate Debits(db: Db, messages: seq<Record>, env: nat -> SingleEnv, j: nat)
    requires j < |messages| && messages[j].Event? && messages[j].value.WithdrawalMessage?
  {
    Sends(env(j)) && !Short(After(db, messages, env, j).0, messages[j].value.wd)
  }

  // A row is an old one, or an earlier message.
  predicate PaidFrom(db: Db, messages: seq<Record>, n: nat, after: Db)
    requires n <= |messages|
  {
    forall i :: i in after.withdrawals ==>
      || (i in db.withdrawals && after.withdrawals[i] == db.withdrawals[i])
      || exists k :: 0 <= k < n && messages[k] == Event(WithdrawalMessage(after.withdrawals[i])) && after.withdrawals[i].id == i
  }

  lemma PaidNext(db: Db, messages: seq<Record>, n: nat, before: Db, env: SingleEnv)
    requires n < |messages| && ProperWithdrawals(db, messages) && PaidFrom(db, messages, n, before)
    ensures PaidFrom(db, messages, n + 1, AfterSingle(before, messages[n], env))
  {
    hide PaidHash;
    var after := AfterSingle(before, messages[n], env);
    assert messages[n].Event? ==> messages[n] == Event(WithdrawalMessage(messages[n].value.wd));
    forall i | i in after.withdrawals && !(i in db.withdrawals && after.withdrawals[i] == db.withdrawals[i])
      ensures exists k :: 0 <= k < n + 1 && messages[k] == Event(WithdrawalMessage(after.withdrawals[i])) && after.withdrawals[i].id == i
    {
      if i in before.withdrawals && after.withdrawals[i] == before.withdrawals[i] {
        var k :| 0 <= k < n && messages[k] == Event(WithdrawalMessage(before.withdrawals[i])) && before.withdrawals[i].id == i;
      }
    }
  }

  lemma {:induction false} PaidRows(db: Db, messages: seq<Record>, env: nat -> SingleEnv, n: nat)
    requires n <= |messages| && ProperWithdrawals(db, messages)
    ensures PaidFrom(db, messages, n, After(db, messages, env, n).0)
  {
    hide ProperWithdrawals, AfterSingle, Resolves;
    if 0 < n {
      hide PaidFrom;
      PaidRows(db, messages, env, n - 1);
      PaidNext(db, messages, n - 1, After(db, messages, env, n - 1).0, env(n - 1));
    }
  }

  // So only a short wallet makes the tables refuse an unrecorded completion.
  lemma RefusedIfShort(db: Db, messages: seq<Record>, j: nat, now: Db)
    requires j < |messages| && messages[j].Event? && ProperWithdrawals(db, messages) && PaidFrom(db, messages, j, now)
    ensures var ev := messages[j].value.wd;
      TrySingle(now, messages[j].value).Some? <==> PaidHash(now, ev.tx) || !Short(now, ev)
  {
  }

  // A hash is recorded if it was, or if a debit under it was sent and covered.
  lemma {:induction false} RecordedExactly(db: Db, messages: seq<Record>, env: nat -> SingleEnv, n: nat, tx: TxHash)
    requires n <= |messages| && ProperWithdrawals(db, messages)
    ensures PaidHash(After(db, messages, env, n).0, tx) <==>
      PaidHash(db, tx)
      || exists j :: 0 <= j < n && messages[j].Event? && messages[j].value.wd.tx == tx && Debits(db, messages, env, j)
  {
    if 0 < n {
      RecordedExactly(db, messages, env, n - 1, tx);
      RecordedNext(db, messages, env, n - 1, tx);
      hide ProperWithdrawals, After, PaidHash, Debits;
    }
  }

  lemma RecordedNext(db: Db, messages: seq<Record>, env: nat -> SingleEnv, n: nat, tx: TxHash)
    requires n < |messages| && ProperWithdrawals(db, messages)
    ensures PaidHash(After(db, messages, env, n + 1).0, tx) <==>
      PaidHash(After(db, messages, env, n).0, tx)
      || (messages[n].Event? && messages[n].value.wd.tx == tx && Debits(db, messages, env, n))
  {
    var now := After(db, messages, env, n).0;
    PaidRows(db, messages, env, n);
    var wd := if messages[n].Event? then messages[n].value.wd else WithdrawalEvent(0, Wallet(0, Ethereum, ETH), 0, tx);
    PresentNext(now, messages[n], env(n), WithdrawalMessage(wd.(tx := tx)));
    if messages[n].Event? {
      RefusedIfShort(db, messages, n, now);
    }
    hide PaidHash, AfterSingle, TrySingle, Short, PaidFrom;
  }

  // Message k is resolved, told from the faults, the start tables, and the balances that debits met.
  predicate Answered(db: Db, messages: seq<Record>, env: nat -> SingleEnv, k: nat)
    requires k < |messages| && ProperWithdrawals(db, messages)
  {
    messages[k].Event? && env(k).connects ==>
      var ev := messages[k].value.wd;
      && env(k).fault == NoFault
      && (PaidHash(db, ev.tx)
          || (exists j :: 0 <= j < k && messages[j].Event? && messages[j].value.wd.tx == ev.tx && Debits(db, messages, env, j))
          || (Debits(db, messages, env, k) && (ev.wallet in After(db, messages, env, k).0.wallets ==> !env(k).publishFails)))
  }

  lemma AnsweredExactly(db: Db, messages: seq<Record>, env: nat -> SingleEnv, k: nat)
    requires k < |messages| && ProperWithdrawals(db, messages)
    ensures IsResolved(db, messages, env, k) <==> Answered(db, messages, env, k)
  {
    var now := After(db, messages, env, k).0;
    PaidRows(db, messages, env, k);
    if messages[k].Event? {
      assert messages[k].value == WithdrawalMessage(messages[k].value.wd);
      RefusedIfShort(db, messages, k, now);
      RecordedExactly(db, messages, env, k, messages[k].value.wd.tx);
      hide PaidHash, After, PaidFrom, TrySingle, Short, ProperWithdrawals;
    }
  }

  // After n completions, completion i is lost exactly if its hash was not recorded before, no debit
  // under it was both sent and covered, and it had no connection or a later message is resolved.
  lemma LostWithdrawal(db: Db, messages: seq<Record>, env: nat -> SingleEnv, n: nat, i: nat)
    requires i < n <= |messages| && messages[i].Event? && ProperWithdrawals(db, messages)
    ensures IsLost(db, messages, env, n, i) <==>
      && !PaidHash(db, messages[i].value.wd.tx)
      && (forall j :: 0 <= j < n && messages[j].Event? && messages[j].value.wd.tx == messages[i].value.wd.tx ==>
            !Debits(db, messages, env, j))
      && (!env(i).connects || exists k :: i < k < n && Answered(db, messages, env, k))
  {
    var tx := messages[i].value.wd.tx;
    assert messages[i].value == WithdrawalMessage(messages[i].value.wd);
    LostExactly(db, messages, env, n, i);
    PresentExactly(db, messages, env, n, messages[i].value);
    RecordedExactly(db, messages, env, n, tx);
    forall k | 0 <= k < n
      ensures IsResolved(db, messages, env, k) <==> Answered(db, messages, env, k)
    {
      AnsweredExactly(db, messages, env, k);
    }
    hide IsLost, Writes, IsResolved, Answered, Debits, ProperWithdrawals, After, PaidHash, SameHash;
  }

  // ----- With enough in every wallet -----

  // What the first n messages ask of wallet w.
  function Demand(messages: seq<Record>, n: nat, w: Wallet): int
    requires n <= |messages|
  {
    if n == 0 then 0
    else
      var m := messages[n - 1];
      Demand(messages, n - 1, w)
      + (if m.Event? && m.value.WithdrawalMessage? && m.value.wd.wallet == w then m.value.wd.amount else 0)
  }

  lemma {:induction false} DemandGrows(db: Db, messages: seq<Record>, n: nat, m: nat, w: Wallet)
    requires n <= m <= |messages| && ProperWithdrawals(db, messages)
    ensures Demand(messages, n, w) <= Demand(messages, m, w)
  {
    if n < m {
      DemandGrows(db, messages, n, m - 1, w);
    }
  }

  lemma {:induction false} BalanceLeft(db: Db, messages: seq<Record>, env: nat -> SingleEnv, n: nat, w: Wallet)
    requires n <= |messages| && ProperWithdrawals(db, messages)
    ensures var now := After(db, messages, env, n).0;
      now.wallets.Keys == db.wallets.Keys
      && (w in db.wallets ==> db.wallets[w] - Demand(messages, n, w) <= now.wallets[w])
  {
    if 0 < n {
      BalanceLeft(db, messages, env, n - 1, w);
      DemandGrows(db, messages, n - 1, n, w);
      hide PaidHash;
    }
  }

  // If the start balances cover the whole batch, a debit is covered whenever it is sent, so the faults
  // and the recorded hashes alone tell what is lost.
  lemma CoveredDebits(db: Db, messages: seq<Record>, env: nat -> SingleEnv, j: nat)
    requires j < |messages| && messages[j].Event? && ProperWithdrawals(db, messages)
    requires forall w :: w in db.wallets ==> Demand(messages, |messages|, w) <= db.wallets[w]
    ensures Debits(db, messages, env, j) <==> Sends(env(j))
  {
    var w := messages[j].value.wd.wallet;
    BalanceLeft(db, messages, env, j, w);
    DemandGrows(db, messages, j + 1, |messages|, w);
    hide After;
  }
}
