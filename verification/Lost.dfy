/** Which deposits and withdrawals the one-at-a-time loop of the ledger consumer loses: they are below
    the resolved offset, absent from the tables, and no later session sees them again. */
module Lost {
  import opened Domain
  import opened Ledger
  import opened Consumer

  // Two messages about the same transaction.
  predicate SameHash(a: Single, b: Single)
  {
    match a
    case DepositMessage(ev) => b.DepositMessage? && b.dep.tx == ev.tx
    case WithdrawalMessage(ev) => b.WithdrawalMessage? && b.wd.tx == ev.tx
  }

  // The statement of message j reaches the tables: it is sent, and they accept it.
  predicate Writes(db: Db, messages: seq<Record>, env: nat -> SingleEnv, j: nat)
    requires j < |messages|
  {
    && messages[j].Event? && Sends(env(j))
    && TrySingle(After(db, messages, env, j).0, messages[j].value).Some?
  }

  // Message j is resolved.
  predicate IsResolved(db: Db, messages: seq<Record>, env: nat -> SingleEnv, j: nat)
    requires j < |messages|
  {
    Resolves(After(db, messages, env, j).0, messages[j], env(j))
  }

  lemma PresentNext(db: Db, m: Record, env: SingleEnv, e: Single)
    ensures Present(AfterSingle(db, m, env), e) <==>
      Present(db, e) || (m.Event? && Sends(env) && TrySingle(db, m.value).Some? && SameHash(m.value, e))
  {
    var after := AfterSingle(db, m, env);
    if m.Event? && m.value.WithdrawalMessage? && after != db {
      assert after.withdrawals[m.value.wd.id] == m.value.wd;
      forall i | i in db.withdrawals
        ensures i in after.withdrawals && after.withdrawals[i] == db.withdrawals[i]
      {
      }
    }
  }

  // An event is in the tables if it was, or if a statement for its transaction reached them.
  lemma {:induction false} PresentExactly(db: Db, messages: seq<Record>, env: nat -> SingleEnv, n: nat, e: Single)
    requires n <= |messages|
    ensures Present(After(db, messages, env, n).0, e) <==>
      Present(db, e) || exists j :: 0 <= j < n && Writes(db, messages, env, j) && SameHash(messages[j].value, e)
  {
    if 0 < n {
      hide AfterSingle, Present, TrySingle, SameHash, Resolves;
      PresentExactly(db, messages, env, n - 1, e);
      PresentNext(After(db, messages, env, n - 1).0, messages[n - 1], env(n - 1), e);
    }
  }

  lemma {:induction false} VerdictsExactly(db: Db, messages: seq<Record>, env: nat -> SingleEnv, n: nat)
    requires n <= |messages|
    ensures |After(db, messages, env, n).1| == n
    ensures forall k :: 0 <= k < n ==> (After(db, messages, env, n).1[k] <==> IsResolved(db, messages, env, k))
  {
    if 0 < n {
      hide AfterSingle, Resolves;
      VerdictsExactly(db, messages, env, n - 1);
    }
  }

  // Resolved past, and in no table.
  predicate IsLost(db: Db, messages: seq<Record>, env: nat -> SingleEnv, n: nat, i: nat)
    requires i < n <= |messages| && messages[i].Event?
  {
    var (after, oks) := After(db, messages, env, n);
    i < ResolvedTo(oks) && !Present(after, messages[i].value)
  }

  lemma LostVerdicts(db: Db, messages: seq<Record>, env: nat -> SingleEnv, n: nat, i: nat)
    requires n <= |messages|
    ensures i < ResolvedTo(After(db, messages, env, n).1) <==> exists k :: i <= k < n && IsResolved(db, messages, env, k)
  {
    var oks := After(db, messages, env, n).1;
    VerdictsExactly(db, messages, env, n);
    ResolvedToSpec(oks, i);
    hide After, IsResolved, ResolvedTo;
    if k :| i <= k < n && IsResolved(db, messages, env, k) {
      assert oks[k];
    }
  }

  // After n messages, message i is lost exactly if it was not recorded before, no statement for its
  // transaction reached the tables, and either its handler had no connection (which resolves it at
  // once) or a later message is resolved.
  lemma LostExactly(db: Db, messages: seq<Record>, env: nat -> SingleEnv, n: nat, i: nat)
    requires i < n <= |messages| && messages[i].Event?
    ensures IsLost(db, messages, env, n, i) <==>
      && !Present(db, messages[i].value)
      && (forall j :: 0 <= j < n && Writes(db, messages, env, j) ==> !SameHash(messages[j].value, messages[i].value))
      && (!env(i).connects || exists k :: i < k < n && IsResolved(db, messages, env, k))
  {
    PresentExactly(db, messages, env, n, messages[i].value);
    LostVerdicts(db, messages, env, n, i);
    if env(i).connects {
      ResolvedArePresent(db, messages, env, n);
      VerdictsExactly(db, messages, env, n);
      hide After, Present, Writes, IsResolved, SameHash, ResolvedTo;
    } else {
      assert IsResolved(db, messages, env, i);
      hide After, Present, Writes, IsResolved, SameHash, ResolvedTo;
    }
  }

  // ----- Deposits: from the start tables and the faults alone -----

  // A deposit batch as the listener publishes it: positive amounts, and an id belongs to one transaction.
  predicate ProperDeposits(db: Db, messages: seq<Record>)
  {
    forall j :: 0 <= j < |messages| && messages[j].Event? ==>
      && messages[j].value.DepositMessage?
      && 0 < messages[j].value.dep.amount
      && (forall h :: h in db.deposits && db.deposits[h].id == messages[j].value.dep.id ==> h == messages[j].value.dep.tx)
      && (forall k :: 0 <= k < |messages| && messages[k].Event? && messages[k].value.DepositMessage?
                      && messages[k].value.dep.id == messages[j].value.dep.id ==>
            messages[k].value.dep.tx == messages[j].value.dep.tx)
  }

  // A row is an old one, or an earlier message.
  predicate RowsFrom(db: Db, messages: seq<Record>, n: nat, after: Db)
    requires n <= |messages|
  {
    forall h :: h in after.deposits ==>
      || (h in db.deposits && after.deposits[h] == db.deposits[h])
      || exists k :: 0 <= k < n && messages[k] == Event(DepositMessage(after.deposits[h])) && after.deposits[h].tx == h
  }

  lemma IdsFree(db: Db, messages: seq<Record>, j: nat, now: Db)
    requires j < |messages| && messages[j].Event? && ProperDeposits(db, messages) && RowsFrom(db, messages, j, now)
    ensures TrySingle(now, messages[j].value).Some?
  {
  }

  lemma RowsNext(db: Db, messages: seq<Record>, n: nat, before: Db, env: SingleEnv)
    requires n < |messages| && ProperDeposits(db, messages) && RowsFrom(db, messages, n, before)
    ensures var after := AfterSingle(before, messages[n], env);
      RowsFrom(db, messages, n + 1, after) && after.wallets.Keys == before.wallets.Keys
  {
    hide DepositIdUsed;
    var after := AfterSingle(before, messages[n], env);
    assert messages[n].Event? ==> messages[n] == Event(DepositMessage(messages[n].value.dep));
    forall h | h in after.deposits && !(h in db.deposits && after.deposits[h] == db.deposits[h])
      ensures exists k :: 0 <= k < n + 1 && messages[k] == Event(DepositMessage(after.deposits[h])) && after.deposits[h].tx == h
    {
      if h in before.deposits && after.deposits[h] == before.deposits[h] {
        var k :| 0 <= k < n && messages[k] == Event(DepositMessage(before.deposits[h])) && before.deposits[h].tx == h;
      }
    }
  }

  lemma {:induction false} DepositRows(db: Db, messages: seq<Record>, env: nat -> SingleEnv, n: nat)
    requires n <= |messages| && ProperDeposits(db, messages)
    ensures RowsFrom(db, messages, n, After(db, messages, env, n).0)
    ensures After(db, messages, env, n).0.wallets.Keys == db.wallets.Keys
  {
    hide ProperDeposits, AfterSingle, Resolves;
    if 0 < n {
      hide RowsFrom;
      DepositRows(db, messages, env, n - 1);
      RowsNext(db, messages, n - 1, After(db, messages, env, n - 1).0, env(n - 1));
    }
  }

  // The tables refuse none of them, so a statement writes if it is sent.
  lemma DepositWrites(db: Db, messages: seq<Record>, env: nat -> SingleEnv, j: nat)
    requires j < |messages| && ProperDeposits(db, messages)
    ensures Writes(db, messages, env, j) <==> messages[j].Event? && Sends(env(j))
  {
    hide ProperDeposits, RowsFrom, TrySingle, After;
    DepositRows(db, messages, env, j);
    if messages[j].Event? {
      IdsFree(db, messages, j, After(db, messages, env, j).0);
    }
  }

  // No statement for the transaction of message k was sent before it, nor is there an old row.
  predicate Unsent(db: Db, messages: seq<Record>, env: nat -> SingleEnv, k: nat)
    requires k < |messages| && ProperDeposits(db, messages) && messages[k].Event?
  {
    && messages[k].value.dep.tx !in db.deposits
    && forall j :: 0 <= j < k && messages[j].Event? && messages[j].value.dep.tx == messages[k].value.dep.tx ==>
         !Sends(env(j))
  }

  // Message k is resolved, told from start tables and faults.
  predicate Handled(db: Db, messages: seq<Record>, env: nat -> SingleEnv, k: nat)
    requires k < |messages| && ProperDeposits(db, messages)
  {
    messages[k].Event? && env(k).connects ==>
      && env(k).fault == NoFault
      && (Unsent(db, messages, env, k) && messages[k].value.dep.wallet in db.wallets ==>
            !env(k).redisFails && !env(k).publishFails)
  }

  lemma HandledExactly(db: Db, messages: seq<Record>, env: nat -> SingleEnv, k: nat)
    requires k < |messages| && ProperDeposits(db, messages)
    ensures IsResolved(db, messages, env, k) <==> Handled(db, messages, env, k)
  {
    var now := After(db, messages, env, k).0;
    DepositRows(db, messages, env, k);
    if messages[k].Event? {
      var ev := messages[k].value.dep;
      assert messages[k].value == DepositMessage(ev);
      IdsFree(db, messages, k, now);
      PresentExactly(db, messages, env, k, messages[k].value);
      forall j | 0 <= j < k
        ensures Writes(db, messages, env, j) <==> messages[j].Event? && Sends(env(j))
      {
        DepositWrites(db, messages, env, j);
      }
      hide After, RowsFrom, Writes;
      assert NewDeposit(now, ev) <==> Unsent(db, messages, env, k);
    }
  }

  // After n deposit messages, message i is lost exactly if its transaction was not recorded before,
  // no statement for it was sent, and it had no connection or a later message is resolved.
  lemma LostDeposit(db: Db, messages: seq<Record>, env: nat -> SingleEnv, n: nat, i: nat)
    requires i < n <= |messages| && messages[i].Event? && ProperDeposits(db, messages)
    ensures IsLost(db, messages, env, n, i) <==>
      && messages[i].value.dep.tx !in db.deposits
      && (forall j :: 0 <= j < n && messages[j].Event? && messages[j].value.dep.tx == messages[i].value.dep.tx ==>
            !Sends(env(j)))
      && (!env(i).connects || exists k :: i < k < n && Handled(db, messages, env, k))
  {
    LostExactly(db, messages, env, n, i);
    forall j | 0 <= j < n
      ensures Writes(db, messages, env, j) <==> messages[j].Event? && Sends(env(j))
      ensures IsResolved(db, messages, env, j) <==> Handled(db, messages, env, j)
    {
      DepositWrites(db, messages, env, j);
      HandledExactly(db, messages, env, j);
    }
    hide IsLost, Writes, IsResolved, Handled;
  }

  // The first of two deposits meets an unreachable database, the second is recorded and credited.
  lemma LostWitness(w: Wallet, balance: int)
    ensures var messages := [Event(DepositMessage(DepositEvent(1, w, 5, 7, 0))), Event(DepositMessage(DepositEvent(2, w, 5, 8, 0)))];
      var env := (k: nat) => SingleEnv(true, true, if k == 0 then Refused else NoFault, false, false, true);
      IsLost(Db(map[w := balance], map[], map[], map[]), messages, env, 2, 0)
  {
    var messages := [Event(DepositMessage(DepositEvent(1, w, 5, 7, 0))), Event(DepositMessage(DepositEvent(2, w, 5, 8, 0)))];
    var env := (k: nat) => SingleEnv(true, true, if k == 0 then Refused else NoFault, false, false, true);
    var db := Db(map[w := balance], map[], map[], map[]);
    LostDeposit(db, messages, env, 2, 0);
    assert Handled(db, messages, env, 1);
  }

  // One deposit and no connection: it is lost without any other message.
  lemma LostAtOnce(db: Db, d: DepositEvent)
    requires d.tx !in db.deposits
    ensures IsLost(db, [Event(DepositMessage(d))], (k: nat) => SingleEnv(true, false, NoFault, false, false, true), 1, 0)
  {
    var messages, env := [Event(DepositMessage(d))], (k: nat) => SingleEnv(true, false, NoFault, false, false, true);
    LostExactly(db, messages, env, 1, 0);
  }

  // ----- Over sessions -----

  // A session over log[start..start + count]: a run of the handler on what it was given from there.
  datatype Run = Run(start: nat, count: nat, env: nat -> SingleEnv)

  predicate Within(log: seq<Record>, runs: seq<Run>)
  {
    forall r :: 0 <= r < |runs| ==> runs[r].start + runs[r].count <= |log|
  }

  function Deliver(db: Db, log: seq<Record>, runs: seq<Run>): Db
    requires Within(log, runs)
    decreases |runs|
  {
    if runs == [] then db
    else
      var r := runs[0];
      assert runs[0].start + runs[0].count <= |log|;
      Deliver(After(db, log[r.start..], r.env, r.count).0, log, runs[1..])
  }

  // Sessions that start at or after an offset past every message of a transaction never record it.
  lemma {:induction false} NotSeenAgain(db: Db, log: seq<Record>, runs: seq<Run>, from: nat, e: Single)
    requires Within(log, runs) && !Present(db, e)
    requires forall r :: 0 <= r < |runs| ==> from <= runs[r].start
    requires forall j :: from <= j < |log| && log[j].Event? ==> !SameHash(log[j].value, e)
    ensures !Present(Deliver(db, log, runs), e)
    decreases |runs|
  {
    if runs != [] {
      hide Present, SameHash, After;
      var r := runs[0];
      assert r.start + r.count <= |log| && from <= r.start;
      PresentExactly(db, log[r.start..], r.env, r.count, e);
      NotSeenAgain(After(db, log[r.start..], r.env, r.count).0, log, runs[1..], from, e);
    }
  }

  // Where a session left the resolved offset.
  function NextOffset(db: Db, log: seq<Record>, run: Run): nat
    requires run.start + run.count <= |log|
  {
    run.start + ResolvedTo(After(db, log[run.start..], run.env, run.count).1)
  }

  // A lost event stays lost: if its transaction has no message after the resolved offset, no later
  // session that starts there or further on ever records it.
  lemma {:induction false} LostForever(db: Db, log: seq<Record>, first: Run, i: nat, later: seq<Run>)
    requires first.start + first.count <= |log| && Within(log, later)
    requires first.start <= i < first.start + first.count && log[i].Event?
    requires IsLost(db, log[first.start..], first.env, first.count, i - first.start)
    requires forall r :: 0 <= r < |later| ==> NextOffset(db, log, first) <= later[r].start
    requires forall j :: NextOffset(db, log, first) <= j < |log| && log[j].Event? ==> !SameHash(log[j].value, log[i].value)
    ensures !Present(Deliver(After(db, log[first.start..], first.env, first.count).0, log, later), log[i].value)
  {
    var after := After(db, log[first.start..], first.env, first.count).0;
    NotSeenAgain(after, log, later, NextOffset(db, log, first), log[i].value);
  }
}
