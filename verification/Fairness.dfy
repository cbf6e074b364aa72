/** The provably fair cycle: seed commitments, bets by nonce, rotation with its reveal, and the
    client's verification of the bets it saw. Hash functions are parameters. */
module Fairness {
  import opened Domain
  import opened Audit
  import Odds

  // SHA-256 of a seed, HMAC-SHA-256 of "clientSeed:nonce", and the first five hex digits of a digest.
  datatype Crypto = Crypto(commit: Seed -> Hash, hmac: (Seed, string, nat) -> Hash, prefix: Hash -> nat)

  datatype ClientBet = ClientBet(wallet: Wallet, clientSeed: string, nonce: nat, hash: Hash, result: int)

  function Result(c: Crypto, seed: Seed, clientSeed: string, nonce: nat): int
  {
    Odds.GameResult(c.prefix(c.hmac(seed, clientSeed, nonce)))
  }

  // One user: the seed in the database and in Redis, the nonce keys, and the bets the client has seen
  // since it last verified.
  datatype Player = Player(dbSeed: Seed, previousSeed: Option<Seed>, redisSeed: Seed,
                           nonces: map<Wallet, nat>, history: seq<ClientBet>)

  function Nonce(p: Player, w: Wallet): nat { if w in p.nonces then p.nonces[w] else 0 }

  // A bet consumes a nonce; it is seen by the client unless it fails after that.
  function DoBet(c: Crypto, p: Player, w: Wallet, clientSeed: string, seen: bool): Player
  {
    var n := Nonce(p, w) + 1;
    var bet := ClientBet(w, clientSeed, n, c.hmac(p.redisSeed, clientSeed, n), Result(c, p.redisSeed, clientSeed, n));
    p.(nonces := p.nonces[w := n], history := if seen then p.history + [bet] else p.history)
  }

  // How far a rotation gets before a write fails: the seed in the database, the reveal, the new
  // commitment, the seed in Redis, the nonces. A database write whose acknowledgement is lost counts
  // as done, but fails the request; of the new commitment that is `Unacknowledged`.
  datatype Reach = NoWrite | SeedWritten | Revealed | Unacknowledged | Committed | RedisSeeded | Complete

  predicate Answered(reach: Reach) { reach.Committed? || reach.RedisSeeded? || reach.Complete? }

  function DoRotate(p: Player, newSeed: Seed, reach: Reach): Player
  {
    if reach.NoWrite? then p
    else
      Player(newSeed, Some(p.redisSeed),
             if reach.RedisSeeded? || reach.Complete? then newSeed else p.redisSeed,
             if reach.Complete? then map w | w in p.nonces :: 0 else p.nonces,
             if Answered(reach) then [] else p.history)
  }

  function RotatedAudit(c: Crypto, rows: seq<AuditRow>, user: UserId, p: Player, newSeed: Seed, now: nat,
                        reach: Reach): seq<AuditRow>
  {
    if reach.NoWrite? || reach.SeedWritten? then rows
    else
      RevealAll(rows, user, c.commit(p.redisSeed), p.redisSeed, now)
      + (if reach.Unacknowledged? || Answered(reach) then [AuditRow(|rows|, user, c.commit(newSeed), now, None, None)] else [])
  }

  // Login: the database seed overwrites the Redis seed, existing nonces stay.
  function DoLogin(p: Player): Player { p.(redisSeed := p.dbSeed) }

  function Register(seed: Seed): Player { Player(seed, None, seed, map[], []) }

  class SeedService {
    const crypto: Crypto
    const user: UserId
    const audit: AuditTable
    var dbSeed: Seed
    var previousSeed: Option<Seed>
    var redisSeed: Seed
    var nonces: map<Wallet, nat>
    var history: seq<ClientBet>

    // createUserWithWallets and the first initUserRedisState.
    constructor (crypto: Crypto, user: UserId, audit: AuditTable, seed: Seed, now: nat)
      modifies audit
      ensures this.crypto == crypto && this.user == user && this.audit == audit
      ensures State() == Register(seed)
      ensures audit.rows == old(audit.rows) + [AuditRow(|old(audit.rows)|, user, crypto.commit(seed), now, None, None)]
    {
      this.crypto, this.user, this.audit := crypto, user, audit;
      dbSeed, previousSeed, redisSeed, nonces, history := seed, None, seed, map[], [];
      new;
      audit.InsertSeedCommitment(user, crypto.commit(seed), now);
    }

    function State(): Player
      reads this
    {
      Player(dbSeed, previousSeed, redisSeed, nonces, history)
    }

    method PlaceBet(w: Wallet, clientSeed: string, seen: bool)
      modifies this
      ensures State() == DoBet(crypto, old(State()), w, clientSeed, seen)
    {
      var n := (if w in nonces then nonces[w] else 0) + 1;
      nonces := nonces[w := n];
      if seen {
        var hash := crypto.hmac(redisSeed, clientSeed, n);
        history := history + [ClientBet(w, clientSeed, n, hash, Odds.GameResult(crypto.prefix(hash)))];
      }
    }

    // The scan of the nonce keys and the pipeline that sets them to 0.
    method ResetNonces()
      modifies this`nonces
      ensures nonces == map w | w in old(nonces) :: 0
    {
      var keys := nonces.Keys;
      while keys != {}
        invariant nonces.Keys == old(nonces).Keys && keys <= nonces.Keys
        invariant forall w :: w in nonces ==> nonces[w] == if w in keys then old(nonces)[w] else 0
      {
        var w :| w in keys;
        nonces := nonces[w := 0];
        keys := keys - {w};
      }
    }

    // POST /api/pf/rotate-seed, with the client's verification of what an answered request reveals.
    method RotateSeed(newSeed: Seed, now: nat, reach: Reach) returns (answered: bool, serverVerified: bool, allPass: bool)
      modifies this, audit
      ensures State() == DoRotate(old(State()), newSeed, reach)
      ensures audit.rows == RotatedAudit(crypto, old(audit.rows), user, old(State()), newSeed, now, reach)
      ensures answered <==> Answered(reach)
      ensures answered ==> serverVerified
      ensures answered ==> (allPass <==> Accepts(crypto, old(redisSeed), old(history)))
    {
      answered, serverVerified, allPass := false, false, false;
      var currentSeed := redisSeed;
      var previousCommitment := crypto.commit(currentSeed);
      var revealedSeed := currentSeed;
      serverVerified := crypto.commit(revealedSeed) == previousCommitment;
      if reach.NoWrite? {
        return;
      }
      dbSeed, previousSeed := newSeed, Some(revealedSeed);
      if reach.SeedWritten? {
        return;
      }
      audit.RevealSeedInAudit(user, previousCommitment, revealedSeed, now);
      if reach.Revealed? {
        return;
      }
      audit.InsertSeedCommitment(user, crypto.commit(newSeed), now);
      if reach.Unacknowledged? {
        return;
      }
      if !reach.Committed? {
        redisSeed := newSeed;
        if !reach.RedisSeeded? {
          ResetNonces();
        }
      }
      answered := true;
      allPass := VerifyHistory(crypto, revealedSeed, history);
      history := [];
    }

    method Login()
      modifies this`redisSeed
      ensures State() == DoLogin(old(State()))
    {
      redisSeed := dbSeed;
    }
  }

  predicate Verified(c: Crypto, seed: Seed, bet: ClientBet)
  {
    Result(c, seed, bet.clientSeed, bet.nonce) == bet.result
  }

  predicate Accepts(c: Crypto, seed: Seed, history: seq<ClientBet>)
  {
    forall i :: 0 <= i < |history| ==> Verified(c, seed, history[i])
  }

  // The client's loop over its bet history.
  method VerifyHistory(c: Crypto, revealedSeed: Seed, history: seq<ClientBet>) returns (allPass: bool)
    ensures allPass <==> Accepts(c, revealedSeed, history)
  {
    allPass := true;
    for i := 0 to |history|
      invariant allPass <==> Accepts(c, revealedSeed, history[..i])
    {
      assert history[..i + 1][..i] == history[..i] && history[..i + 1][i] == history[i];
      var recomputed := c.hmac(revealedSeed, history[i].clientSeed, history[i].nonce);
      var verified := Odds.GameResult(c.prefix(recomputed)) == history[i].result;
      AcceptsNext(c, revealedSeed, history, i);
      if !verified {
        allPass := false;
      }
    }
    assert history[..|history|] == history;
  }

  lemma AcceptsNext(c: Crypto, seed: Seed, history: seq<ClientBet>, i: nat)
    requires i < |history|
    ensures Accepts(c, seed, history[..i + 1]) <==> Accepts(c, seed, history[..i]) && Verified(c, seed, history[i])
  {
    forall k | 0 <= k < i
      ensures history[..i + 1][k] == history[..i][k]
    {
    }
    assert history[..i + 1][i] == history[i];
  }

  // ----- The cycle over runs -----

  // Every revealed seed is the one that was committed to.
  predicate RevealsFit(c: Crypto, rows: seq<AuditRow>, user: UserId)
  {
    forall i :: 0 <= i < |rows| && rows[i].user == user && rows[i].revealedSeed.Some? ==>
      c.commit(rows[i].revealedSeed.value) == rows[i].commitment
  }

  // The user's commitment to `seed` is its only open row, and every revealed seed fits its row.
  predicate AuditOk(c: Crypto, rows: seq<AuditRow>, user: UserId, seed: Seed)
  {
    && RevealsFit(c, rows, user)
    && (forall i, j :: 0 <= i < j < |rows| && rows[i].user == user && rows[j].user == user ==>
          rows[i].revealedSeed.Some? || rows[j].revealedSeed.Some?)
    && (exists i :: 0 <= i < |rows| && Matches(rows[i], user, c.commit(seed)))
  }

  // The bets the client saw are those of the current seed, with growing nonces on every wallet.
  predicate HistoryOk(c: Crypto, p: Player)
  {
    && (forall i :: 0 <= i < |p.history| ==>
          var b := p.history[i];
          b.hash == c.hmac(p.dbSeed, b.clientSeed, b.nonce) && Verified(c, p.dbSeed, b) && b.nonce <= Nonce(p, b.wallet))
    && (forall i, j :: 0 <= i < j < |p.history| && p.history[i].wallet == p.history[j].wallet ==>
          p.history[i].nonce < p.history[j].nonce)
  }

  // Every bet in the history has the hash that `seed` gives it.
  predicate PlayedUnder(c: Crypto, seed: Seed, history: seq<ClientBet>)
  {
    forall i :: 0 <= i < |history| ==> history[i].hash == c.hmac(seed, history[i].clientSeed, history[i].nonce)
  }

  predicate Inv(c: Crypto, rows: seq<AuditRow>, user: UserId, p: Player)
  {
    p.redisSeed == p.dbSeed && HistoryOk(c, p) && AuditOk(c, rows, user, p.dbSeed)
  }

  // Another user's rows may be inserted and revealed at any time.
  datatype Step = Bet(wallet: Wallet, clientSeed: string, seen: bool)
                | Rotate(newSeed: Seed, now: nat, reach: Reach)
                | Login
                | Foreign(op: Op)

  datatype Cycle = Cycle(rows: seq<AuditRow>, player: Player)

  predicate ForeignOp(rows: seq<AuditRow>, user: UserId, op: Op)
  {
    match op
    case Insert(r) => r.user != user
    case Update(i, to) => i < |rows| ==> rows[i].user != user
    case Delete(_) => true
  }

  function Next(c: Crypto, user: UserId, s: Cycle, step: Step): Cycle
  {
    match step
    case Bet(w, cs, seen) => s.(player := DoBet(c, s.player, w, cs, seen))
    case Rotate(newSeed, now, reach) =>
      Cycle(RotatedAudit(c, s.rows, user, s.player, newSeed, now, reach), DoRotate(s.player, newSeed, reach))
    case Login => s.(player := DoLogin(s.player))
    case Foreign(op) => if ForeignOp(s.rows, user, op) then s.(rows := Attempt(s.rows, op)) else s
  }

  lemma BetKeeps(c: Crypto, p: Player, w: Wallet, clientSeed: string, seen: bool)
    requires HistoryOk(c, p) && p.redisSeed == p.dbSeed
    ensures HistoryOk(c, DoBet(c, p, w, clientSeed, seen))
  {
  }

  lemma RotateAuditKeeps(c: Crypto, rows: seq<AuditRow>, user: UserId, p: Player, newSeed: Seed, now: nat, reach: Reach)
    requires AuditOk(c, rows, user, p.redisSeed) && (reach.Unacknowledged? || Answered(reach))
    ensures AuditOk(c, RotatedAudit(c, rows, user, p, newSeed, now, reach), user, newSeed)
  {
    var after := RotatedAudit(c, rows, user, p, newSeed, now, reach);
    var open :| 0 <= open < |rows| && Matches(rows[open], user, c.commit(p.redisSeed));
    forall i | 0 <= i < |rows| && rows[i].user == user
      ensures after[i].revealedSeed.Some? && c.commit(after[i].revealedSeed.value) == after[i].commitment
    {
      assert i == open || rows[i].revealedSeed.Some?;
    }
    assert Matches(after[|rows|], user, c.commit(newSeed));
  }

  lemma ForeignKeeps(c: Crypto, rows: seq<AuditRow>, user: UserId, seed: Seed, op: Op)
    requires AuditOk(c, rows, user, seed) && ForeignOp(rows, user, op)
    ensures AuditOk(c, Attempt(rows, op), user, seed)
  {
    var after := Attempt(rows, op);
    var open :| 0 <= open < |rows| && Matches(rows[open], user, c.commit(seed));
    assert after[open] == rows[open];
  }

  // After a complete rotation every wallet starts again at nonce 1 under the new seed, and the old seed
  // is the one on record as previous.
  lemma FreshNonces(c: Crypto, p: Player, newSeed: Seed, w: Wallet, clientSeed: string)
    ensures var q := DoBet(c, DoRotate(p, newSeed, Complete), w, clientSeed, true);
      && q.dbSeed == newSeed && q.redisSeed == newSeed && q.previousSeed == Some(p.redisSeed)
      && |q.history| == 1
      && q.history[0] == ClientBet(w, clientSeed, 1, c.hmac(newSeed, clientSeed, 1), Result(c, newSeed, clientSeed, 1))
  {
  }

  // Every bet takes the nonce after the last one of its wallet, and no other wallet's.
  lemma NextNonce(c: Crypto, p: Player, w: Wallet, v: Wallet, clientSeed: string, seen: bool)
    ensures Nonce(DoBet(c, p, w, clientSeed, seen), v) == Nonce(p, v) + (if v == w then 1 else 0)
  {
  }

  // A rotation that stops before the new commitment leaves no open row for the new seed.
  lemma NothingOpen(c: Crypto, rows: seq<AuditRow>, user: UserId, p: Player, newSeed: Seed, now: nat, reach: Reach)
    requires AuditOk(c, rows, user, p.redisSeed)
    requires reach.Revealed? || (reach.SeedWritten? && c.commit(newSeed) != c.commit(p.redisSeed))
    ensures !AuditOk(c, RotatedAudit(c, rows, user, p, newSeed, now, reach), user, newSeed)
  {
    var after := RotatedAudit(c, rows, user, p, newSeed, now, reach);
    var open :| 0 <= open < |rows| && Matches(rows[open], user, c.commit(p.redisSeed));
    forall i | 0 <= i < |rows|
      ensures !Matches(after[i], user, c.commit(newSeed))
    {
      assert i == open || rows[i].user != user || rows[i].revealedSeed.Some?;
    }
  }

  // A rotation keeps the cycle sound exactly when it wrote nothing, or everything up to the Redis
  // seed; stopping in between does so only where the new seed happens to be the old one.
  lemma RotateExact(c: Crypto, user: UserId, s: Cycle, newSeed: Seed, now: nat, reach: Reach)
    requires Inv(c, s.rows, user, s.player)
    ensures var t := Next(c, user, s, Rotate(newSeed, now, reach));
      Inv(c, t.rows, user, t.player) <==>
        reach.NoWrite? || reach.RedisSeeded? || reach.Complete? || (!reach.Revealed? && newSeed == s.player.dbSeed)
  {
    if reach.Unacknowledged? || Answered(reach) {
      RotateAuditKeeps(c, s.rows, user, s.player, newSeed, now, reach);
    } else if reach.Revealed? {
      NothingOpen(c, s.rows, user, s.player, newSeed, now, reach);
    }
  }

  // A login directly after it repairs every rotation that was answered, for a fresh seed none that
  // failed half-way in the database, and one whose last write was not acknowledged if the bets before
  // it fit the new seed. What may happen before that login is the subject of `Recovery`.
  lemma LoginRepairs(c: Crypto, user: UserId, s: Cycle, newSeed: Seed, now: nat, reach: Reach)
    requires Inv(c, s.rows, user, s.player) && c.commit(newSeed) != c.commit(s.player.dbSeed)
    ensures var t := Next(c, user, Next(c, user, s, Rotate(newSeed, now, reach)), Login);
      Inv(c, t.rows, user, t.player) <==>
        reach.NoWrite? || Answered(reach) || (reach.Unacknowledged? && PlayedUnder(c, newSeed, s.player.history))
  {
    if reach.Unacknowledged? || Answered(reach) {
      RotateAuditKeeps(c, s.rows, user, s.player, newSeed, now, reach);
    } else if !reach.NoWrite? {
      NothingOpen(c, s.rows, user, s.player, newSeed, now, reach);
    }
  }

  function Run(c: Crypto, user: UserId, s: Cycle, steps: seq<Step>): Cycle
    decreases |steps|
  {
    if steps == [] then s else Run(c, user, Next(c, user, s, steps[0]), steps[1..])
  }

  predicate Synced(steps: seq<Step>)
  {
    forall i :: 0 <= i < |steps| && steps[i].Rotate? ==>
      steps[i].reach.NoWrite? || steps[i].reach.RedisSeeded? || steps[i].reach.Complete?
  }

  lemma {:induction false} RunKeeps(c: Crypto, user: UserId, s: Cycle, steps: seq<Step>)
    requires Inv(c, s.rows, user, s.player) && Synced(steps)
    ensures var t := Run(c, user, s, steps); Inv(c, t.rows, user, t.player)
    decreases |steps|
  {
    if steps != [] {
      match steps[0] {
        case Bet(w, cs, seen) => BetKeeps(c, s.player, w, cs, seen);
        case Rotate(newSeed, now, reach) => RotateExact(c, user, s, newSeed, now, reach);
        case Login =>
        case Foreign(op) =>
          if ForeignOp(s.rows, user, op) {
            ForeignKeeps(c, s.rows, user, s.player.dbSeed, op);
          }
      }
      RunKeeps(c, user, Next(c, user, s, steps[0]), steps[1..]);
    }
  }

  // However rotations fail, a revealed seed always hashes to the commitment of its row.
  lemma {:induction false} RevealsAlwaysFit(c: Crypto, user: UserId, s: Cycle, steps: seq<Step>)
    requires RevealsFit(c, s.rows, user)
    ensures RevealsFit(c, Run(c, user, s, steps).rows, user)
    decreases |steps|
  {
    if steps != [] {
      RevealsAlwaysFit(c, user, Next(c, user, s, steps[0]), steps[1..]);
    }
  }

  // From registration on, whatever is bet and rotated: the seed the next rotation reveals verifies
  // every bet the client has seen, and it is the seed behind the only open commitment of the user.
  lemma VerificationComplete(c: Crypto, user: UserId, rows: seq<AuditRow>, seed: Seed, now: nat, steps: seq<Step>)
    requires forall i :: 0 <= i < |rows| ==> rows[i].user != user
    requires Synced(steps)
    ensures var s := Run(c, user, Cycle(rows + [AuditRow(|rows|, user, c.commit(seed), now, None, None)], Register(seed)), steps);
      && s.player.redisSeed == s.player.dbSeed
      && Accepts(c, s.player.redisSeed, s.player.history)
      && HistoryOk(c, s.player)
      && (exists i :: 0 <= i < |s.rows| && Matches(s.rows[i], user, c.commit(s.player.redisSeed)))
      && (forall i :: 0 <= i < |s.rows| && s.rows[i].user == user && s.rows[i].revealedSeed.None? ==>
            s.rows[i].commitment == c.commit(s.player.redisSeed))
  {
    var row := AuditRow(|rows|, user, c.commit(seed), now, None, None);
    var s0 := Cycle(rows + [row], Register(seed));
    assert s0.rows[|rows|] == row;
    assert Matches(s0.rows[|rows|], user, c.commit(seed));
    RunKeeps(c, user, s0, steps);
    var s := Run(c, user, s0, steps);
    var open :| 0 <= open < |s.rows| && Matches(s.rows[open], user, c.commit(s.player.dbSeed));
  }

  // A reveal cannot be replaced by another seed: with a collision-free commitment, what is accepted
  // for a published commitment is the seed that was committed to.
  lemma CommitmentBinds(c: Crypto, committed: Seed, revealed: Seed, history: seq<ClientBet>)
    requires forall a, b :: c.commit(a) == c.commit(b) ==> a == b
    requires c.commit(revealed) == c.commit(committed)
    ensures Accepts(c, revealed, history) <==> Accepts(c, committed, history)
  {
    assert revealed == committed;
  }
}
