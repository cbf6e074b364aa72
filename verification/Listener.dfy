/** The EVM deposit listener: two-layer duplicate suppression with a bounded FIFO cache, and the
    block-range scan with rollback, over any number of connections (epochs). */
module Listener {
  import opened Domain

  // A transaction hash that is the empty string.
  const NO_HASH: TxHash := 0

  // ----- The bounded cache: a JavaScript Set in insertion order -----

  function Kept(seen: seq<TxHash>, limit: int): seq<TxHash> { if limit <= |seen| && seen != [] then seen[1..] else seen }

  function Track(seen: seq<TxHash>, limit: int, tx: TxHash): seq<TxHash>
  {
    var kept := Kept(seen, limit);
    if tx in kept then kept else kept + [tx]
  }

  function TrackAll(limit: int, txs: seq<TxHash>): seq<TxHash>
    decreases |txs|
  {
    if txs == [] then [] else Track(TrackAll(limit, txs[..|txs| - 1]), limit, txs[|txs| - 1])
  }

  // The newest of a list, oldest first.
  function Newest(txs: seq<TxHash>, n: nat): seq<TxHash> { if |txs| <= n then txs else txs[|txs| - n..] }

  lemma TrackNewest(txs: seq<TxHash>, limit: int, tx: TxHash)
    requires tx !in Newest(txs, Max(1, limit))
    ensures Track(Newest(txs, Max(1, limit)), limit, tx) == Newest(txs + [tx], Max(1, limit))
  {
    var n, kept := Max(1, limit), Newest(txs, Max(1, limit));
    if n <= |txs| {
      assert kept[1..] == txs[|txs| - n + 1..];
      assert (txs + [tx])[|txs| + 1 - n..] == txs[|txs| - n + 1..] + [tx];
    }
  }

  // No hash is tracked while it is cached; it may be again after an eviction.
  predicate OnlyUncached(limit: int, txs: seq<TxHash>)
    decreases |txs|
  {
    txs == []
    || (OnlyUncached(limit, txs[..|txs| - 1]) && txs[|txs| - 1] !in TrackAll(limit, txs[..|txs| - 1]))
  }

  lemma TrackAllNext(limit: int, front: seq<TxHash>, last: TxHash)
    ensures TrackAll(limit, front + [last]) == Track(TrackAll(limit, front), limit, last)
    ensures OnlyUncached(limit, front + [last]) <==> OnlyUncached(limit, front) && last !in TrackAll(limit, front)
  {
    hide Track;
    assert (front + [last])[..|front|] == front;
  }

  // Then eviction is first in, first out: the cache holds the last max(1, limit) of the tracked hashes.
  lemma {:induction false} KeepsNewest(limit: int, txs: seq<TxHash>)
    requires OnlyUncached(limit, txs)
    ensures TrackAll(limit, txs) == Newest(txs, Max(1, limit))
    decreases |txs|
  {
    if txs != [] {
      var front, last := txs[..|txs| - 1], txs[|txs| - 1];
      assert txs == front + [last];
      hide Newest, Track, TrackAll, OnlyUncached;
      TrackAllNext(limit, front, last);
      KeepsNewest(limit, front);
      TrackNewest(front, limit, last);
    }
  }

  // Concurrent calls for one hash may also track it while it is cached: then the oldest goes and
  // nothing is added. These are the hashes that were added.
  function Added(limit: int, txs: seq<TxHash>): seq<TxHash>
    decreases |txs|
  {
    if txs == [] then []
    else
      var front, last := txs[..|txs| - 1], txs[|txs| - 1];
      Added(limit, front) + (if last in Kept(TrackAll(limit, front), limit) then [] else [last])
  }

  predicate IsNewestOf(seen: seq<TxHash>, added: seq<TxHash>)
  {
    |seen| <= |added| && seen == added[|added| - |seen|..]
  }

  lemma TrackKeepsNewest(seen: seq<TxHash>, limit: int, tx: TxHash, added: seq<TxHash>)
    requires IsNewestOf(seen, added) && |seen| <= Max(1, limit)
    ensures var kept := Kept(seen, limit);
      |Track(seen, limit, tx)| <= Max(1, limit)
      && IsNewestOf(Track(seen, limit, tx), added + (if tx in kept then [] else [tx]))
  {
    var kept := Kept(seen, limit);
    if seen != [] {
      assert seen[1..] == added[|added| - |seen| + 1..];
    }
    assert IsNewestOf(kept, added);
    assert added + [] == added;
    assert (added + [tx])[|added| - |kept|..] == added[|added| - |kept|..] + [tx];
  }

  // Whatever is tracked, the cache is within its bound and holds the newest of the added hashes.
  lemma {:induction false} EvictsOldest(limit: int, txs: seq<TxHash>)
    ensures IsNewestOf(TrackAll(limit, txs), Added(limit, txs)) && |TrackAll(limit, txs)| <= Max(1, limit)
    decreases |txs|
  {
    if txs != [] {
      var front, last := txs[..|txs| - 1], txs[|txs| - 1];
      hide Kept, Track, IsNewestOf;
      EvictsOldest(limit, front);
      TrackKeepsNewest(TrackAll(limit, front), limit, last, Added(limit, front));
    }
  }

  datatype Verdict = InMemory | InDb | New

  function Check(seen: seq<TxHash>, deposited: set<TxHash>, tx: TxHash): Verdict
  {
    if tx != NO_HASH && tx in seen then InMemory
    else if tx != NO_HASH && tx in deposited then InDb
    else New
  }

  // ----- The scan of one epoch -----

  // `covered` lists the block ranges whose log query succeeded.
  datatype Scan = Scan(head: int, covered: seq<(int, int)>)

  // A notification of block n; a failed query rolls the head back, so its range is retried.
  function OnBlock(s: Scan, n: int, works: bool): Scan
  {
    if n <= s.head || !works then s else Scan(n, s.covered + [(s.head + 1, n)])
  }

  // The start of an epoch: one query from block 0 to the current block, whose failure is not fatal.
  function Begin(current: int, historyWorks: bool): Scan
  {
    Scan(current, if historyWorks then [(0, current)] else [])
  }

  datatype Notification = Notification(block: int, works: bool)

  function ScanAll(s: Scan, ns: seq<Notification>): Scan
    decreases |ns|
  {
    if ns == [] then s
    else OnBlock(ScanAll(s, ns[..|ns| - 1]), ns[|ns| - 1].block, ns[|ns| - 1].works)
  }

  // How many successful queries looked at block b.
  function Looks(covered: seq<(int, int)>, b: int): nat
    decreases |covered|
  {
    if covered == [] then 0
    else
      var r := covered[|covered| - 1];
      Looks(covered[..|covered| - 1], b) + (if r.0 <= b <= r.1 then 1 else 0)
  }

  // Whatever notifications arrive, repeated, skipped or out of order, and whatever queries fail:
  // every block from the first covered one to the head is looked at exactly once, no other ever.
  lemma {:induction false} ScanCoverage(current: nat, historyWorks: bool, ns: seq<Notification>, b: int)
    ensures var s := ScanAll(Begin(current, historyWorks), ns);
      && current <= s.head
      && Looks(s.covered, b) == if (if historyWorks then 0 else current + 1) <= b <= s.head then 1 else 0
    decreases |ns|
  {
    if ns == [] {
      assert historyWorks ==> Begin(current, historyWorks).covered[..0] == [];
    } else {
      var front := ScanAll(Begin(current, historyWorks), ns[..|ns| - 1]);
      ScanCoverage(current, historyWorks, ns[..|ns| - 1], b);
      var s := ScanAll(Begin(current, historyWorks), ns);
      if s != front {
        assert s.covered[..|s.covered| - 1] == front.covered;
      }
    }
  }

  // The head is the newest block that a successful query reached.
  lemma {:induction false} HeadIsNewest(s: Scan, ns: seq<Notification>)
    ensures s.head <= ScanAll(s, ns).head
    ensures forall i :: 0 <= i < |ns| && ns[i].works ==> ns[i].block <= ScanAll(s, ns).head
    ensures ScanAll(s, ns).head == s.head || exists i :: 0 <= i < |ns| && ns[i].works && ns[i].block == ScanAll(s, ns).head
    decreases |ns|
  {
    if ns != [] {
      var front, last := ns[..|ns| - 1], ns[|ns| - 1];
      HeadIsNewest(s, front);
      if ScanAll(s, front).head != s.head && ScanAll(s, ns).head == ScanAll(s, front).head {
        var i :| 0 <= i < |front| && front[i].works && front[i].block == ScanAll(s, front).head;
        assert ns[i] == front[i];
      }
      forall i | 0 <= i < |ns| && ns[i].works
        ensures ns[i].block <= ScanAll(s, ns).head
      {
        if i < |front| {
          assert front[i] == ns[i];
        }
      }
    }
  }

  // ----- A deposit over epochs -----

  // One epoch, seen from one deposit: its scan, the notification in whose range it ended after it had
  // handled the deposit (if it did), and whether a processDeposit call for it would go through.
  datatype EpochRun = EpochRun(current: nat, historyWorks: bool, ns: seq<Notification>, cut: Option<int>, callWorks: bool)

  function EndOf(e: EpochRun): Scan { ScanAll(Begin(e.current, e.historyWorks), e.ns) }

  // The epoch calls processDeposit for the deposits of block b. A call that throws is not repeated in
  // this epoch: its range counts as covered.
  predicate Calls(e: EpochRun, b: int)
  {
    0 < Looks(EndOf(e).covered, b) || (e.cut.Some? && EndOf(e).head < b <= e.cut.value)
  }

  function LastBlock(e: EpochRun): int { if e.cut.Some? then Max(EndOf(e).head, e.cut.value) else EndOf(e).head }

  // A deposit of block b has been published by one of the epochs.
  predicate Taken(epochs: seq<EpochRun>, b: int)
    decreases |epochs|
  {
    epochs != [] && (Taken(epochs[..|epochs| - 1], b) || (Calls(epochs[|epochs| - 1], b) && epochs[|epochs| - 1].callWorks))
  }

  lemma CallsExactly(e: EpochRun, b: int)
    ensures Calls(e, b) <==> (if e.historyWorks then 0 else e.current + 1) <= b <= LastBlock(e)
  {
    ScanCoverage(e.current, e.historyWorks, e.ns, b);
  }

  // Published exactly if in some epoch the call goes through and the block is among those that its
  // historical scan, if that worked, and its notifications reach.
  lemma {:induction false} TakenExactly(epochs: seq<EpochRun>, b: int)
    ensures Taken(epochs, b) <==>
      exists k :: 0 <= k < |epochs| && epochs[k].callWorks
                  && (if epochs[k].historyWorks then 0 else epochs[k].current + 1) <= b <= LastBlock(epochs[k])
    decreases |epochs|
  {
    if epochs != [] {
      var front, last := epochs[..|epochs| - 1], epochs[|epochs| - 1];
      hide Calls, LastBlock;
      TakenExactly(front, b);
      CallsExactly(last, b);
      assert forall k :: 0 <= k < |front| ==> epochs[k] == front[k];
    }
  }

  // Once its block lies before the start of an epoch, only a working historical scan can make up for a
  // failed call, and the first one whose call goes through does.
  lemma MadeUpByHistory(epochs: seq<EpochRun>, e: EpochRun, b: int)
    requires 0 <= b <= e.current && !Taken(epochs, b)
    ensures Taken(epochs + [e], b) <==> e.historyWorks && e.callWorks
  {
    assert (epochs + [e])[..|epochs|] == epochs;
    CallsExactly(e, b);
    ScanCoverage(e.current, e.historyWorks, e.ns, b);
  }

  // ----- The listener process -----

  datatype ChainDeposit = ChainDeposit(tx: TxHash, amount: int, block: nat)

  // What the await points of one processDeposit call return: the wallet of the player (or none), and
  // whether the database and the broker answer.
  datatype CallEnv = CallEnv(dbWorks: bool, wallet: Option<Wallet>, id: DepositId, sendWorks: bool)

  // Cache and published events after one processDeposit call.
  function Handled(seen: seq<TxHash>, published: seq<DepositEvent>, deposited: set<TxHash>, limit: int,
                   d: ChainDeposit, env: CallEnv): (seq<TxHash>, seq<DepositEvent>)
  {
    var tracked := if d.tx == NO_HASH then seen else Track(seen, limit, d.tx);
    match Check(seen, deposited, d.tx)
    case InMemory => (seen, published)
    case InDb => (if env.dbWorks then tracked else seen, published)
    case New =>
      if env.dbWorks && env.wallet.Some? && env.sendWorks
      then (tracked, published + [DepositEvent(env.id, env.wallet.value, d.amount, d.tx, d.block)])
      else (seen, published)
  }

  // A deposit is new if neither the cache nor the database knows its hash, and its call goes through if
  // database, user lookup and broker answer.
  predicate IsNew(seen: seq<TxHash>, deposited: set<TxHash>, tx: TxHash)
  {
    tx == NO_HASH || (tx !in seen && tx !in deposited)
  }

  predicate Answers(env: CallEnv) { env.dbWorks && env.wallet.Some? && env.sendWorks }

  // Cache and published events after the first n deposits of a query.
  function AfterAll(seen: seq<TxHash>, published: seq<DepositEvent>, deposited: set<TxHash>, limit: int,
                    ds: seq<ChainDeposit>, env: nat -> CallEnv, n: nat): (seq<TxHash>, seq<DepositEvent>)
    requires n <= |ds|
  {
    if n == 0 then (seen, published)
    else
      var (s, p) := AfterAll(seen, published, deposited, limit, ds, env, n - 1);
      Handled(s, p, deposited, limit, ds[n - 1], env(n - 1))
  }

  lemma {:induction false} AfterAllPrefix(seen: seq<TxHash>, published: seq<DepositEvent>, deposited: set<TxHash>, limit: int,
                                          ds: seq<ChainDeposit>, env: nat -> CallEnv, n: nat, m: nat)
    requires n <= m <= |ds|
    ensures AfterAll(seen, published, deposited, limit, ds[..m], env, n) == AfterAll(seen, published, deposited, limit, ds, env, n)
  {
    if 0 < n {
      AfterAllPrefix(seen, published, deposited, limit, ds, env, n - 1, m);
    }
  }

  // The deposits, by position, that were new when their turn came and whose calls went through.
  function Picks(seen: seq<TxHash>, published: seq<DepositEvent>, deposited: set<TxHash>, limit: int,
                 ds: seq<ChainDeposit>, env: nat -> CallEnv, n: nat): (picks: seq<nat>)
    requires n <= |ds|
    ensures forall k :: 0 <= k < |picks| ==> picks[k] < n
    ensures forall k, l :: 0 <= k < l < |picks| ==> picks[k] < picks[l]
  {
    if n == 0 then []
    else
      Picks(seen, published, deposited, limit, ds, env, n - 1)
      + (if IsNew(AfterAll(seen, published, deposited, limit, ds, env, n - 1).0, deposited, ds[n - 1].tx) && Answers(env(n - 1))
         then [n - 1] else [])
  }

  // Published is, in order, one event for each of them and nothing else: the wallet and id of the call,
  // and the amount, hash and block of the deposit.
  lemma {:induction false} PublishesPicks(seen: seq<TxHash>, published: seq<DepositEvent>, deposited: set<TxHash>, limit: int,
                                          ds: seq<ChainDeposit>, env: nat -> CallEnv, n: nat)
    requires n <= |ds|
    ensures var picks := Picks(seen, published, deposited, limit, ds, env, n);
      var after := AfterAll(seen, published, deposited, limit, ds, env, n).1;
      && |after| == |published| + |picks| && after[..|published|] == published
      && forall k :: 0 <= k < |picks| ==>
           var i := picks[k];
           && env(i).wallet.Some?
           && after[|published| + k] == DepositEvent(env(i).id, env(i).wallet.value, ds[i].amount, ds[i].tx, ds[i].block)
  {
    if 0 < n {
      PublishesPicks(seen, published, deposited, limit, ds, env, n - 1);
      hide Track;
      var before := AfterAll(seen, published, deposited, limit, ds, env, n - 1).1;
      var after := AfterAll(seen, published, deposited, limit, ds, env, n).1;
      assert after[..|before|] == before;
    }
  }

  // Every published event repeats a deposit that is on chain.
  predicate OnChain(published: seq<DepositEvent>, chain: set<ChainDeposit>)
  {
    forall i :: 0 <= i < |published| ==> ChainDeposit(published[i].tx, published[i].amount, published[i].block) in chain
  }

  lemma {:induction false} StaysOnChain(seen: seq<TxHash>, published: seq<DepositEvent>, deposited: set<TxHash>, limit: int,
                                        ds: seq<ChainDeposit>, env: nat -> CallEnv, n: nat, chain: set<ChainDeposit>)
    requires n <= |ds| && OnChain(published, chain)
    requires forall i :: 0 <= i < |ds| ==> ds[i] in chain
    ensures OnChain(AfterAll(seen, published, deposited, limit, ds, env, n).1, chain)
  {
    if 0 < n {
      StaysOnChain(seen, published, deposited, limit, ds, env, n - 1, chain);
      var d := ds[n - 1];
      assert ChainDeposit(d.tx, d.amount, d.block) == d && d in chain;
    }
  }

  class Epoch {
    const number: nat
    var scanHead: int
    ghost var covered: seq<(int, int)>

    constructor (number: nat, current: int)
      ensures this.number == number && scanHead == current && covered == []
    {
      this.number := number;
      scanHead := current;
      covered := [];
    }
  }

  class EvmListener {
    var seen: seq<TxHash>
    var published: seq<DepositEvent>
    var listenerEpoch: nat
    const limit: int

    constructor (limit: int)
      ensures seen == [] && published == [] && listenerEpoch == 0 && this.limit == limit
    {
      this.limit := limit;
      seen, published, listenerEpoch := [], [], 0;
    }

    method TrackTxHash(tx: TxHash)
      modifies this`seen
      ensures seen == Track(old(seen), limit, tx)
    {
      if |seen| >= limit && |seen| > 0 {
        seen := seen[1..];
      }
      if tx !in seen {
        seen := seen + [tx];
      }
    }

    // `known` after a call: published, or already recorded. A call that meets no trouble leaves its
    // hash known; whatever it does, nothing published is forgotten.
    method ProcessDeposit(d: ChainDeposit, deposited: set<TxHash>, env: CallEnv) returns (threw: bool)
      requires forall h :: h in seen ==> Known(published, deposited, h)
      modifies this`seen, this`published
      ensures forall h :: h in seen ==> Known(published, deposited, h)
      ensures !threw && (Check(old(seen), deposited, d.tx) != New || env.wallet.Some?) ==> Known(published, deposited, d.tx)
      ensures (seen, published) == Handled(old(seen), old(published), deposited, limit, d, env)
      ensures published == old(published) + (if IsNew(old(seen), deposited, d.tx) && Answers(env)
                                             then [DepositEvent(env.id, env.wallet.value, d.amount, d.tx, d.block)] else [])
      ensures seen == if d.tx != NO_HASH && d.tx !in old(seen) && env.dbWorks && (d.tx in deposited || Answers(env))
                      then Track(old(seen), limit, d.tx) else old(seen)
      ensures var verdict := Check(old(seen), deposited, d.tx);
        threw <==> !verdict.InMemory? && (!env.dbWorks || (verdict.New? && env.wallet.Some? && !env.sendWorks))
    {
      if d.tx != NO_HASH && d.tx in seen {
        return false;
      }
      if !env.dbWorks {
        return true;
      }
      if d.tx != NO_HASH && d.tx in deposited {
        TrackTxHash(d.tx);
        return false;
      }
      if env.wallet.None? {
        return false;
      }
      if !env.sendWorks {
        return true;
      }
      var event := DepositEvent(env.id, env.wallet.value, d.amount, d.tx, d.block);
      ghost var before := published;
      published := published + [event];
      assert published[|published| - 1] == event;
      assert forall h :: Known(before, deposited, h) ==> Known(published, deposited, h) by {
        forall h | Known(before, deposited, h)
          ensures Known(published, deposited, h)
        {
          if h !in deposited {
            var j :| 0 <= j < |before| && before[j].tx == h;
            assert published[j].tx == h;
          }
        }
      }
      if d.tx != NO_HASH {
        TrackTxHash(d.tx);
      }
      return false;
    }

    // The loop over the deposits of one query: an exception in one call does not stop the others.
    method ProcessAll(ds: seq<ChainDeposit>, deposited: set<TxHash>, env: nat -> CallEnv)
      requires forall h :: h in seen ==> Known(published, deposited, h)
      modifies this`seen, this`published
      ensures forall h :: h in seen ==> Known(published, deposited, h)
      ensures (seen, published) == AfterAll(old(seen), old(published), deposited, limit, ds, env, |ds|)
      ensures old(published) <= published
      ensures forall i :: 0 <= i < |ds| && env(i).dbWorks && env(i).sendWorks && env(i).wallet.Some? ==>
        Known(published, deposited, ds[i].tx)
    {
      for i := 0 to |ds|
        invariant forall h :: h in seen ==> Known(published, deposited, h)
        invariant (seen, published) == AfterAll(old(seen), old(published), deposited, limit, ds, env, i)
        invariant old(published) <= published
        invariant forall k :: 0 <= k < i && env(k).dbWorks && env(k).sendWorks && env(k).wallet.Some? ==>
          Known(published, deposited, ds[k].tx)
      {
        ghost var before := published;
        var threw := ProcessDeposit(ds[i], deposited, env(i));
        KnownGrows(before, published, deposited);
      }
    }

    // connect() succeeded: a new epoch, and the historical scan from block 0.
    method Listen(current: nat, history: Option<seq<ChainDeposit>>, deposited: set<TxHash>, env: nat -> CallEnv)
      returns (e: Epoch)
      requires forall h :: h in seen ==> Known(published, deposited, h)
      modifies this
      ensures forall h :: h in seen ==> Known(published, deposited, h)
      ensures fresh(e) && listenerEpoch == old(listenerEpoch) + 1 && e.number == listenerEpoch
      ensures Scan(e.scanHead, e.covered) == Begin(current, history.Some?)
      ensures (seen, published) ==
        if history.Some? then AfterAll(old(seen), old(published), deposited, limit, history.value, env, |history.value|)
        else (old(seen), old(published))
      ensures history.Some? ==>
        forall i :: 0 <= i < |history.value| && env(i).dbWorks && env(i).sendWorks && env(i).wallet.Some? ==>
          Known(published, deposited, history.value[i].tx)
    {
      listenerEpoch := listenerEpoch + 1;
      e := new Epoch(listenerEpoch, current);
      if history.Some? {
        e.covered := [(0, current)];
        ProcessAll(history.value, deposited, env);
      }
    }

    // provider.on('error'): the epoch is over.
    method ProviderError(e: Epoch)
      modifies this`listenerEpoch
      ensures listenerEpoch == old(listenerEpoch) + (if old(listenerEpoch) == e.number then 1 else 0)
    {
      if e.number == listenerEpoch {
        listenerEpoch := listenerEpoch + 1;
      }
    }

    // One block notification for epoch e. `query` is the answer to the log query for the new range;
    // the epoch lasts for `lasts` of its deposits, and may so end while the answer is awaited.
    method BlockNotified(e: Epoch, n: int, query: Option<seq<ChainDeposit>>, lasts: nat, deposited: set<TxHash>,
                         env: nat -> CallEnv)
      requires forall h :: h in seen ==> Known(published, deposited, h)
      modifies this, e
      ensures forall h :: h in seen ==> Known(published, deposited, h)
      ensures var asked := e.number == old(listenerEpoch) && old(e.scanHead) < n;
        var ended := asked && query.Some? && lasts < |query.value|;
        && listenerEpoch == old(listenerEpoch) + (if ended then 1 else 0)
        && Scan(e.scanHead, e.covered) ==
             (if !asked then old(Scan(e.scanHead, e.covered))
              else if ended then Scan(n, old(e.covered))
              else OnBlock(old(Scan(e.scanHead, e.covered)), n, query.Some?))
        && (seen, published) ==
             (if asked && query.Some?
              then AfterAll(old(seen), old(published), deposited, limit, query.value, env, Min(lasts, |query.value|))
              else (old(seen), old(published)))
        && (asked && query.Some? ==>
              forall i :: 0 <= i < Min(lasts, |query.value|) && env(i).dbWorks && env(i).sendWorks && env(i).wallet.Some? ==>
                Known(published, deposited, query.value[i].tx))
    {
      if e.number != listenerEpoch || n <= e.scanHead {
        return;
      }
      var from := e.scanHead + 1;
      e.scanHead := n;
      if query.None? {
        e.scanHead := from - 1;
        return;
      }
      if lasts < |query.value| {
        AfterAllPrefix(seen, published, deposited, limit, query.value, env, lasts, lasts);
        ProcessAll(query.value[..lasts], deposited, env);
        listenerEpoch := listenerEpoch + 1; // elsewhere, by provider.on('error')
        return;
      }
      e.covered := e.covered + [(from, n)];
      ProcessAll(query.value, deposited, env);
    }
  }

  // The picked deposits are cached now, were unknown before, and have different hashes.
  predicate PickedOnce(ds: seq<ChainDeposit>, picks: seq<nat>, cache: seq<TxHash>, seen: seq<TxHash>, deposited: set<TxHash>)
  {
    && (forall k :: 0 <= k < |picks| ==>
          picks[k] < |ds| && ds[picks[k]].tx in cache && ds[picks[k]].tx !in seen && ds[picks[k]].tx !in deposited)
    && (forall k, l :: 0 <= k < l < |picks| ==> ds[picks[k]].tx != ds[picks[l]].tx)
  }

  lemma PickOneMore(ds: seq<ChainDeposit>, picks: seq<nat>, cache: seq<TxHash>, seen: seq<TxHash>, deposited: set<TxHash>,
                    next: seq<TxHash>, i: nat)
    requires PickedOnce(ds, picks, cache, seen, deposited) && i < |ds|
    requires (forall h :: h in seen ==> h in cache) && (forall h :: h in cache ==> h in next)
    ensures PickedOnce(ds, picks, next, seen, deposited)
    ensures ds[i].tx !in cache && ds[i].tx !in deposited && ds[i].tx in next ==>
      PickedOnce(ds, picks + [i], next, seen, deposited)
  {
  }

  // While the cache has room, what was published or recorded is not published again: no hash twice in
  // one query, and none that the database knew.
  lemma {:induction false} NoRepeats(seen: seq<TxHash>, published: seq<DepositEvent>, deposited: set<TxHash>, limit: int,
                                     ds: seq<ChainDeposit>, env: nat -> CallEnv, n: nat)
    requires n <= |ds| && |seen| + n <= limit
    requires forall i :: 0 <= i < |ds| ==> ds[i].tx != NO_HASH
    ensures var cache := AfterAll(seen, published, deposited, limit, ds, env, n).0;
      && |cache| <= |seen| + n && (forall h :: h in seen ==> h in cache)
      && PickedOnce(ds, Picks(seen, published, deposited, limit, ds, env, n), cache, seen, deposited)
  {
    hide PickedOnce, Handled;
    if n == 0 {
      assert PickedOnce(ds, [], seen, seen, deposited) by { NonePicked(ds, seen, deposited); }
    } else {
      NoRepeats(seen, published, deposited, limit, ds, env, n - 1);
      var (cache, p) := AfterAll(seen, published, deposited, limit, ds, env, n - 1);
      var before := Picks(seen, published, deposited, limit, ds, env, n - 1);
      var next := Handled(cache, p, deposited, limit, ds[n - 1], env(n - 1)).0;
      RoomToTrack(cache, p, deposited, limit, ds[n - 1], env(n - 1));
      PickOneMore(ds, before, cache, seen, deposited, next, n - 1);
      assert before + [] == before;
    }
  }

  lemma NonePicked(ds: seq<ChainDeposit>, seen: seq<TxHash>, deposited: set<TxHash>)
    ensures PickedOnce(ds, [], seen, seen, deposited)
  {
  }

  lemma RoomToTrack(seen: seq<TxHash>, published: seq<DepositEvent>, deposited: set<TxHash>, limit: int,
                    d: ChainDeposit, env: CallEnv)
    requires |seen| < limit && d.tx != NO_HASH
    ensures var next := Handled(seen, published, deposited, limit, d, env).0;
      && |next| <= |seen| + 1 && (forall h :: h in seen ==> h in next)
      && (IsNew(seen, deposited, d.tx) && Answers(env) ==> d.tx in next)
  {
  }

  predicate Known(published: seq<DepositEvent>, deposited: set<TxHash>, h: TxHash)
  {
    h in deposited || exists j :: 0 <= j < |published| && published[j].tx == h
  }

  lemma KnownGrows(before: seq<DepositEvent>, after: seq<DepositEvent>, deposited: set<TxHash>)
    requires before <= after
    ensures forall h :: Known(before, deposited, h) ==> Known(after, deposited, h)
  {
    forall h | Known(before, deposited, h)
      ensures Known(after, deposited, h)
    {
      if h !in deposited {
        var j :| 0 <= j < |before| && before[j].tx == h;
        assert after[j].tx == h;
      }
    }
  }
}
