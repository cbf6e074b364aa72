/** The Redis side of a wallet: the atomic Lua scripts of the gateway and of the ledger consumer.

    `Account` is what the three keys of one wallet hold together; the functions say what each script
    does to it. `RedisStore` is the keyed store the scripts run on, missing keys included. */
module Redis {
  import opened Domain
  import Division

  datatype Account = Account(balance: int, escrowed: int, nonce: int)

  datatype EscrowReply = EscrowReply(success: bool, newBalance: int, newEscrowed: int, nonce: int)

  predicate CanEscrow(a: Account, wager: int) { wager <= a.balance }

  function Escrow(a: Account, wager: int): Account
  {
    if CanEscrow(a, wager)
    then Account(a.balance - wager, a.escrowed + wager, a.nonce + 1)
    else a
  }

  function Settle(a: Account, wager: int, payout: int): Account
  {
    a.(balance := a.balance + payout, escrowed := Max(0, a.escrowed - wager))
  }

  function Release(a: Account, wager: int): Account
  {
    a.(balance := a.balance + wager, escrowed := Max(0, a.escrowed - wager))
  }

  function Deduct(a: Account, amount: int): Account
  {
    if amount <= a.balance then a.(balance := a.balance - amount) else a
  }

  function Credit(a: Account, amount: int): Account
  {
    a.(balance := a.balance + amount)
  }

  class RedisStore {
    var balance: map<Wallet, int>
    var escrowed: map<Wallet, int>
    var nonce: map<Wallet, int>
    var serverSeed: map<UserId, nat>

    constructor ()
      ensures balance == map[] && escrowed == map[] && nonce == map[] && serverSeed == map[]
    {
      balance, escrowed, nonce, serverSeed := map[], map[], map[], map[];
    }

    // GET or '0' on each key of the wallet.
    function Acct(w: Wallet): Account
      reads this
    {
      Account(if w in balance then balance[w] else 0,
              if w in escrowed then escrowed[w] else 0,
              if w in nonce then nonce[w] else 0)
    }

    // No script touches the keys of another wallet.
    twostate predicate OnlyTouches(w: Wallet)
      reads this
    {
      forall v :: v != w ==> Acct(v) == old(Acct(v)) && (v in balance <==> v in old(balance))
    }

    method AtomicEscrowBet(w: Wallet, wager: int) returns (r: EscrowReply)
      modifies this`balance, this`escrowed, this`nonce
      ensures Acct(w) == Escrow(old(Acct(w)), wager)
      ensures r == EscrowReply(CanEscrow(old(Acct(w)), wager), Acct(w).balance, Acct(w).escrowed, Acct(w).nonce)
      ensures OnlyTouches(w)
      ensures !r.success ==> balance == old(balance) && escrowed == old(escrowed) && nonce == old(nonce)
    {
      var bal := if w in balance then balance[w] else 0;
      if bal < wager {
        return EscrowReply(false, bal, if w in escrowed then escrowed[w] else 0, if w in nonce then nonce[w] else 0);
      }
      var newBalance := bal - wager;
      balance := balance[w := newBalance];
      var esc := if w in escrowed then escrowed[w] else 0;
      var newEscrowed := esc + wager;
      escrowed := escrowed[w := newEscrowed];
      var newNonce := (if w in nonce then nonce[w] else 0) + 1;
      nonce := nonce[w := newNonce];
      return EscrowReply(true, newBalance, newEscrowed, newNonce);
    }

    method AtomicSettleBet(w: Wallet, wager: int, payout: int)
      modifies this`balance, this`escrowed
      ensures Acct(w) == Settle(old(Acct(w)), wager, payout)
      ensures OnlyTouches(w)
    {
      var esc := if w in escrowed then escrowed[w] else 0;
      escrowed := escrowed[w := Max(0, esc - wager)];
      var bal := if w in balance then balance[w] else 0;
      balance := balance[w := bal + payout];
    }

    method AtomicReleaseEscrow(w: Wallet, wager: int)
      modifies this`balance, this`escrowed
      ensures Acct(w) == Release(old(Acct(w)), wager)
      ensures OnlyTouches(w)
    {
      var esc := if w in escrowed then escrowed[w] else 0;
      escrowed := escrowed[w := Max(0, esc - wager)];
      var bal := if w in balance then balance[w] else 0;
      balance := balance[w := bal + wager];
    }

    method AtomicBalanceDeduct(w: Wallet, amount: int) returns (success: bool)
      modifies this`balance
      ensures success <==> amount <= old(Acct(w)).balance
      ensures Acct(w) == Deduct(old(Acct(w)), amount)
      ensures OnlyTouches(w)
    {
      var bal := if w in balance then balance[w] else 0;
      if bal < amount {
        return false;
      }
      balance := balance[w := bal - amount];
      return true;
    }

    method AtomicBalanceCredit(w: Wallet, amount: int)
      modifies this`balance
      ensures Acct(w) == Credit(old(Acct(w)), amount)
      ensures OnlyTouches(w)
    {
      var bal := if w in balance then balance[w] else 0;
      balance := balance[w := bal + amount];
    }

    // A missing balance is written, a missing nonce or a zero escrow is written as 0: an account in
    // use keeps its funds, escrow and nonce.
    method HydrateWallet(w: Wallet, initial: int)
      modifies this`balance, this`escrowed, this`nonce
      ensures Acct(w) == if w in old(balance) then old(Acct(w)) else old(Acct(w)).(balance := initial)
      ensures w in balance
      ensures OnlyTouches(w)
    {
      if w !in balance {
        balance := balance[w := initial];
      }
      if w !in nonce {
        nonce := nonce[w := 0];
      }
      if w !in escrowed || escrowed[w] == 0 {
        escrowed := escrowed[w := 0];
      }
    }

    // Hydration at login: both wallets where they are missing, and the seed always.
    method InitUserRedisState(user: UserId, seed: nat, ethBalance: int, solBalance: int)
      modifies this
      ensures serverSeed == old(serverSeed)[user := seed]
      ensures var (eth, sol) := (Wallet(user, Ethereum, ETH), Wallet(user, Solana, SOL));
        && eth in balance && sol in balance
        && Acct(eth) == (if eth in old(balance) then old(Acct(eth)) else old(Acct(eth)).(balance := ethBalance))
        && Acct(sol) == (if sol in old(balance) then old(Acct(sol)) else old(Acct(sol)).(balance := solBalance))
        && forall w :: w != eth && w != sol ==> Acct(w) == old(Acct(w)) && (w in balance <==> w in old(balance))
    {
      HydrateWallet(Wallet(user, Ethereum, ETH), ethBalance);
      HydrateWallet(Wallet(user, Solana, SOL), solBalance);
      serverSeed := serverSeed[user := seed];
    }

    // DEPOSIT_CREDIT_LUA: add to an existing key, but adopt the Postgres balance when the key is gone.
    method DepositCredit(w: Wallet, amount: int, pgBalance: int) returns (newBalance: int)
      modifies this`balance
      ensures w in old(balance) ==> Acct(w) == Credit(old(Acct(w)), amount)
      ensures w !in old(balance) ==> Acct(w) == old(Acct(w)).(balance := pgBalance)
      ensures newBalance == Acct(w).balance && w in balance
      ensures OnlyTouches(w)
    {
      if w !in balance {
        balance := balance[w := pgBalance];
        return pgBalance;
      }
      newBalance := balance[w] + amount;
      balance := balance[w := newBalance];
    }
  }

  // ----- No double spend -----

  // What reaches one wallet while bets race: escrow attempts, and credits of any origin.
  datatype Request = Attempt(wager: int) | Income(amount: int)

  datatype Grant = Grant(wager: int, nonce: int)

  function Serve(a: Account, reqs: seq<Request>): (Account, seq<Grant>)
    decreases |reqs|
  {
    if reqs == [] then (a, [])
    else
      match reqs[0]
      case Income(x) => Serve(Credit(a, x), reqs[1..])
      case Attempt(w) =>
        var a1 := Escrow(a, w);
        var (a2, rest) := Serve(a1, reqs[1..]);
        (a2, if CanEscrow(a, w) then [Grant(w, a1.nonce)] + rest else rest)
  }

  function Incomes(reqs: seq<Request>): int
  {
    if reqs == [] then 0
    else (if reqs[0].Income? then reqs[0].amount else 0) + Incomes(reqs[1..])
  }

  function Granted(gs: seq<Grant>): int
  {
    if gs == [] then 0 else gs[0].wager + Granted(gs[1..])
  }

  // Whatever the order of arrival: every accepted wager was covered, not a unit is spent twice, and
  // the accepted bets carry consecutive nonces.
  lemma {:induction false} NoOverspend(a: Account, reqs: seq<Request>)
    requires 0 <= a.balance
    requires forall r :: r in reqs && r.Income? ==> 0 <= r.amount
    ensures var (b, gs) := Serve(a, reqs);
      && 0 <= b.balance
      && b.balance + Granted(gs) == a.balance + Incomes(reqs)
      && Granted(gs) <= a.balance + Incomes(reqs)
      && b.escrowed == a.escrowed + Granted(gs)
      && b.nonce == a.nonce + |gs|
      && forall i :: 0 <= i < |gs| ==> gs[i].nonce == a.nonce + 1 + i
    decreases |reqs|
  {
    if reqs != [] {
      match reqs[0]
      case Income(x) =>
        NoOverspend(Credit(a, x), reqs[1..]);
      case Attempt(w) =>
        NoOverspend(Escrow(a, w), reqs[1..]);
        var (b, rest) := Serve(Escrow(a, w), reqs[1..]);
        if CanEscrow(a, w) {
          var gs := [Grant(w, a.nonce + 1)] + rest;
          assert gs[1..] == rest;
        }
    }
  }

  // m equal wagers are served greedily: the k accepted ones are paid for, and a refusal means that
  // less than one wager was left.
  lemma {:induction false} EqualWagersGreedy(a: Account, wager: int, m: nat)
    requires 0 < wager && 0 <= a.balance
    ensures var (b, gs) := Serve(a, seq(m, _ => Attempt(wager)));
      && |gs| <= m
      && Granted(gs) == wager * |gs|
      && (|gs| < m ==> b.balance < wager)
    decreases m
  {
    var reqs := seq(m, _ => Attempt(wager));
    if m > 0 {
      var later := seq(m - 1, _ => Attempt(wager));
      assert reqs[1..] == later;
      var (b, rest) := Serve(Escrow(a, wager), later);
      EqualWagersGreedy(Escrow(a, wager), wager, m - 1);
      if CanEscrow(a, wager) {
        var gs := [Grant(wager, a.nonce + 1)] + rest;
        assert gs[1..] == rest;
        Division.MulDistributes(|rest|, 1, wager);
        assert Serve(a, reqs) == (b, gs);
      } else {
        AllRefused(a, later);
      }
    }
  }

  lemma {:induction false} AllRefused(a: Account, reqs: seq<Request>)
    requires forall r :: r in reqs ==> r.Attempt? && a.balance < r.wager
    ensures Serve(a, reqs) == (a, [])
    decreases |reqs|
  {
    if reqs != [] {
      AllRefused(a, reqs[1..]);
    }
  }

  // m equal wagers racing on one balance: exactly as many are accepted as the balance pays for.
  lemma EqualWagers(a: Account, wager: int, m: nat)
    requires 0 < wager && 0 <= a.balance
    ensures var (b, gs) := Serve(a, seq(m, _ => Attempt(wager)));
      && |gs| == Min(m, a.balance / wager)
      && b.balance == a.balance - wager * |gs|
      && b.nonce == a.nonce + |gs|
  {
    var reqs := seq(m, _ => Attempt(wager));
    var (b, gs) := Serve(a, reqs);
    EqualWagersGreedy(a, wager, m);
    NoOverspend(a, reqs);
    NoIncome(reqs);
    if |gs| < m {
      Division.QuotientUnique(a.balance, wager, |gs|, b.balance);
    } else {
      Division.QuotientAtLeast(a.balance, wager, m);
    }
  }

  lemma {:induction false} NoIncome(reqs: seq<Request>)
    requires forall r :: r in reqs ==> r.Attempt?
    ensures Incomes(reqs) == 0
    decreases |reqs|
  {
    if reqs != [] {
      assert reqs[0] in reqs;
      NoIncome(reqs[1..]);
    }
  }
}
