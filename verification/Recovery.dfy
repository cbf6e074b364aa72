/** "Recovers on re-auth": what the next login makes of a seed rotation whose Redis part failed, after
    everything the user and the service may do in between.

    Until that login Redis serves the seed that the rotation has just revealed, and the new seed is
    known to the database only. */
module Recovery {
  import opened Domain
  import opened Audit
  import opened Fairness
  import Odds

  predicate WritingRotation(step: Step) { step.Rotate? && !step.reach.NoWrite? }

  predicate NoLogin(steps: seq<Step>) { forall i :: 0 <= i < |steps| ==> !steps[i].Login? }

  predicate NoRotation(steps: seq<Step>) { forall i :: 0 <= i < |steps| ==> !WritingRotation(steps[i]) }

  // Every bet the client sees has the same hash under both seeds.
  predicate SameHashes(c: Crypto, nonces: map<Wallet, nat>, steps: seq<Step>, a: Seed, b: Seed)
    decreases |steps|
  {
    steps == []
    || if steps[0].Bet?
       then
         var w, n := steps[0].wallet, (if steps[0].wallet in nonces then nonces[steps[0].wallet] else 0) + 1;
         (steps[0].seen ==> c.hmac(a, steps[0].clientSeed, n) == c.hmac(b, steps[0].clientSeed, n))
         && SameHashes(c, nonces[w := n], steps[1..], a, b)
       else SameHashes(c, nonces, steps[1..], a, b)
  }

  // No later rotation draws a seed with commitment h.
  predicate Avoids(c: Crypto, steps: seq<Step>, h: Hash)
  {
    forall i :: 0 <= i < |steps| && WritingRotation(steps[i]) ==> c.commit(steps[i].newSeed) != h
  }

  // ----- A commitment that is never revealed -----

  // An open row of the user whose seed neither store holds any more.
  ghost predicate Orphan(c: Crypto, user: UserId, s: Cycle, h: Hash)
  {
    && (exists i :: 0 <= i < |s.rows| && Matches(s.rows[i], user, h))
    && c.commit(s.player.dbSeed) != h && c.commit(s.player.redisSeed) != h
  }

  lemma OrphanBreaks(c: Crypto, user: UserId, s: Cycle, h: Hash)
    requires Orphan(c, user, s, h)
    ensures !Inv(c, s.rows, user, s.player)
  {
    var i :| 0 <= i < |s.rows| && Matches(s.rows[i], user, h);
    forall j | 0 <= j < |s.rows| && Matches(s.rows[j], user, c.commit(s.player.dbSeed))
      ensures s.rows[i].revealedSeed.None? && s.rows[j].revealedSeed.None? && i != j
    {
    }
  }

  lemma OrphanStep(c: Crypto, user: UserId, s: Cycle, step: Step, h: Hash)
    requires Orphan(c, user, s, h) && Avoids(c, [step], h)
    ensures Orphan(c, user, Next(c, user, s, step), h)
  {
    var t := Next(c, user, s, step);
    var i :| 0 <= i < |s.rows| && Matches(s.rows[i], user, h);
    assert Matches(t.rows[i], user, h);
    assert WritingRotation(step) ==> c.commit([step][0].newSeed) != h;
  }

  // It stays open and breaks the cycle for good.
  lemma {:induction false} OrphanForever(c: Crypto, user: UserId, s: Cycle, steps: seq<Step>, h: Hash)
    requires Orphan(c, user, s, h) && Avoids(c, steps, h)
    ensures Orphan(c, user, Fairness.Run(c, user, s, steps), h)
    ensures var t := Fairness.Run(c, user, s, steps); !Inv(c, t.rows, user, t.player)
    decreases |steps|
  {
    OrphanBreaks(c, user, s, h);
    if steps != [] {
      OrphanStep(c, user, s, steps[0], h);
      OrphanForever(c, user, Next(c, user, s, steps[0]), steps[1..], h);
    }
  }

  // ----- Between the rotation and the login -----

  // What holds of the client's history under whatever seeds it was played.
  predicate Shape(c: Crypto, p: Player)
  {
    && (forall i :: 0 <= i < |p.history| ==>
          p.history[i].result == Odds.GameResult(c.prefix(p.history[i].hash)) && p.history[i].nonce <= Nonce(p, p.history[i].wallet))
    && (forall i, j :: 0 <= i < j < |p.history| && p.history[i].wallet == p.history[j].wallet ==>
          p.history[i].nonce < p.history[j].nonce)
  }

  // Redis is one seed behind the database, whose commitment is the only open one.
  predicate Behind(c: Crypto, user: UserId, s: Cycle)
  {
    AuditOk(c, s.rows, user, s.player.dbSeed) && Shape(c, s.player)
    && c.commit(s.player.redisSeed) != c.commit(s.player.dbSeed)
  }

  predicate HashesFit(c: Crypto, p: Player) { PlayedUnder(c, p.dbSeed, p.history) }

  lemma HistoryByHash(c: Crypto, p: Player)
    requires Shape(c, p)
    ensures HistoryOk(c, p) <==> HashesFit(c, p)
  {
  }

  lemma BetWhileBehind(c: Crypto, p: Player, w: Wallet, clientSeed: string, seen: bool)
    requires Shape(c, p)
    ensures var q, n := DoBet(c, p, w, clientSeed, seen), Nonce(p, w) + 1;
      && Shape(c, q)
      && (HashesFit(c, q) <==>
            HashesFit(c, p) && (seen ==> c.hmac(p.redisSeed, clientSeed, n) == c.hmac(p.dbSeed, clientSeed, n)))
  {
    var q := DoBet(c, p, w, clientSeed, seen);
    if seen {
      var n := |p.history|;
      assert forall i :: 0 <= i < n ==> q.history[i] == p.history[i];
      assert q.history[n].hash == c.hmac(p.redisSeed, clientSeed, q.history[n].nonce);
    }
  }

  // Every other step leaves both seeds alone.
  lemma StaysBehind(c: Crypto, user: UserId, s: Cycle, step: Step)
    requires Behind(c, user, s) && !step.Login? && !WritingRotation(step)
    ensures var t := Next(c, user, s, step);
      && Behind(c, user, t)
      && t.player.dbSeed == s.player.dbSeed && t.player.redisSeed == s.player.redisSeed
      && (if step.Bet? then t.player == DoBet(c, s.player, step.wallet, step.clientSeed, step.seen) else t.player == s.player)
  {
    match step
    case Bet(w, cs, seen) => BetWhileBehind(c, s.player, w, cs, seen);
    case Foreign(op) =>
      if ForeignOp(s.rows, user, op) {
        ForeignKeeps(c, s.rows, user, s.player.dbSeed, op);
      }
    case _ =>
  }

  lemma RotationWhileBehind(c: Crypto, user: UserId, s: Cycle, step: Step)
    requires Behind(c, user, s) && WritingRotation(step) && c.commit(step.newSeed) != c.commit(s.player.dbSeed)
    ensures Orphan(c, user, Next(c, user, s, step), c.commit(s.player.dbSeed))
  {
    var h, t := c.commit(s.player.dbSeed), Next(c, user, s, step);
    var i :| 0 <= i < |s.rows| && Matches(s.rows[i], user, h);
    assert Matches(t.rows[i], user, h);
  }

  lemma WrittenWhileBehind(c: Crypto, user: UserId, s: Cycle, step: Step, later: seq<Step>)
    requires Behind(c, user, s) && WritingRotation(step) && Avoids(c, [step] + later, c.commit(s.player.dbSeed))
    ensures var t := Fairness.Run(c, user, Next(c, user, s, step), later);
      Orphan(c, user, t, c.commit(s.player.dbSeed)) && !Inv(c, t.rows, user, t.player)
  {
    assert ([step] + later)[0] == step;
    assert forall i :: 0 <= i < |later| ==> later[i] == ([step] + later)[i + 1];
    RotationWhileBehind(c, user, s, step);
    hide Inv;
    OrphanForever(c, user, Next(c, user, s, step), later, c.commit(s.player.dbSeed));
  }

  lemma LoginWhileBehind(c: Crypto, user: UserId, s: Cycle)
    requires Behind(c, user, s)
    ensures var t := Next(c, user, s, Login); Inv(c, t.rows, user, t.player) <==> HashesFit(c, s.player)
  {
    HistoryByHash(c, DoLogin(s.player));
  }

  // The next login restores the cycle exactly if no rotation wrote anything since, and the bets that
  // the client saw (and those in its history before) fit the new seed.
  lemma {:induction false} NextLogin(c: Crypto, user: UserId, s: Cycle, mid: seq<Step>)
    requires Behind(c, user, s) && NoLogin(mid) && Avoids(c, mid, c.commit(s.player.dbSeed))
    ensures var t := Next(c, user, Fairness.Run(c, user, s, mid), Login);
      Inv(c, t.rows, user, t.player) <==>
        && NoRotation(mid)
        && SameHashes(c, s.player.nonces, mid, s.player.redisSeed, s.player.dbSeed)
        && HashesFit(c, s.player)
    decreases |mid|
  {
    hide Inv, Behind, HashesFit, Next, DoBet;
    if mid == [] {
      LoginWhileBehind(c, user, s);
    } else {
      var later, next := mid[1..], Next(c, user, s, mid[0]);
      assert mid == [mid[0]] + later;
      if WritingRotation(mid[0]) {
        WrittenThenLogin(c, user, s, mid[0], later);
      } else {
        StaysBehind(c, user, s, mid[0]);
        if mid[0].Bet? {
          BetStep(c, user, s, mid[0]);
        }
        NextLogin(c, user, next, later);
      }
    }
  }

  lemma BetStep(c: Crypto, user: UserId, s: Cycle, step: Step)
    requires Behind(c, user, s) && step.Bet?
    ensures var n := Nonce(s.player, step.wallet) + 1;
      && Next(c, user, s, step).player.nonces == s.player.nonces[step.wallet := n]
      && (HashesFit(c, Next(c, user, s, step).player) <==>
            HashesFit(c, s.player)
            && (step.seen ==> c.hmac(s.player.redisSeed, step.clientSeed, n) == c.hmac(s.player.dbSeed, step.clientSeed, n)))
  {
    BetWhileBehind(c, s.player, step.wallet, step.clientSeed, step.seen);
  }

  lemma WrittenThenLogin(c: Crypto, user: UserId, s: Cycle, step: Step, later: seq<Step>)
    requires Behind(c, user, s) && WritingRotation(step) && Avoids(c, [step] + later, c.commit(s.player.dbSeed))
    ensures var t := Next(c, user, Fairness.Run(c, user, Next(c, user, s, step), later), Login);
      !Inv(c, t.rows, user, t.player)
  {
    var h, last := c.commit(s.player.dbSeed), Fairness.Run(c, user, Next(c, user, s, step), later);
    WrittenWhileBehind(c, user, s, step, later);
    OrphanStep(c, user, last, Login, h);
    OrphanBreaks(c, user, Next(c, user, last, Login), h);
  }

  // Rotations that opened the new commitment and did not reach Redis.
  predicate DatabaseOnly(reach: Reach) { reach.Unacknowledged? || reach.Committed? }

  // The whole story of a rotation that did not reach Redis: from a sound state, whatever happens up to
  // the next login, that login restores the cycle exactly if no rotation wrote anything in between and
  // every bet in the client's history has the same hash under the new seed: those it saw in between,
  // and, when the request failed, those from before.
  lemma LoginRecoversExactly(c: Crypto, user: UserId, s: Cycle, newSeed: Seed, now: nat, reach: Reach, mid: seq<Step>)
    requires Inv(c, s.rows, user, s.player) && NoLogin(mid) && DatabaseOnly(reach)
    requires c.commit(s.player.dbSeed) != c.commit(newSeed) && Avoids(c, mid, c.commit(newSeed))
    ensures var r := Next(c, user, s, Rotate(newSeed, now, reach));
      var t := Next(c, user, Fairness.Run(c, user, r, mid), Login);
      Inv(c, t.rows, user, t.player) <==>
        && NoRotation(mid)
        && SameHashes(c, s.player.nonces, mid, s.player.dbSeed, newSeed)
        && (reach.Unacknowledged? ==> PlayedUnder(c, newSeed, s.player.history))
  {
    BehindAfter(c, user, s, newSeed, now, reach);
    hide Inv, Behind;
    NextLogin(c, user, Next(c, user, s, Rotate(newSeed, now, reach)), mid);
  }

  lemma BehindAfter(c: Crypto, user: UserId, s: Cycle, newSeed: Seed, now: nat, reach: Reach)
    requires Inv(c, s.rows, user, s.player) && DatabaseOnly(reach) && c.commit(s.player.dbSeed) != c.commit(newSeed)
    ensures Behind(c, user, Next(c, user, s, Rotate(newSeed, now, reach)))
  {
    RotateAuditKeeps(c, s.rows, user, s.player, newSeed, now, reach);
  }

  // A rotation that writes before the login does damage no continuation repairs, logins included.
  lemma RetryOrphans(c: Crypto, user: UserId, s: Cycle, newSeed: Seed, now: nat, reach: Reach, retry: Step, later: seq<Step>)
    requires Inv(c, s.rows, user, s.player) && DatabaseOnly(reach) && WritingRotation(retry)
    requires c.commit(s.player.dbSeed) != c.commit(newSeed) && Avoids(c, [retry] + later, c.commit(newSeed))
    ensures var r := Next(c, user, Next(c, user, s, Rotate(newSeed, now, reach)), retry);
      var t := Fairness.Run(c, user, r, later);
      !Inv(c, t.rows, user, t.player)
  {
    BehindAfter(c, user, s, newSeed, now, reach);
    WrittenWhileBehind(c, user, Next(c, user, s, Rotate(newSeed, now, reach)), retry, later);
  }

  // ----- A rotation that failed between its database writes -----

  // The database holds a seed whose commitment is not open.
  predicate Unopened(c: Crypto, user: UserId, s: Cycle)
  {
    forall i :: 0 <= i < |s.rows| ==> !Matches(s.rows[i], user, c.commit(s.player.dbSeed))
  }

  lemma {:induction false} UnopenedStays(c: Crypto, user: UserId, s: Cycle, steps: seq<Step>)
    requires Unopened(c, user, s) && NoRotation(steps)
    ensures var t := Fairness.Run(c, user, s, steps); !Inv(c, t.rows, user, t.player)
    decreases |steps|
  {
    if steps != [] {
      assert !WritingRotation(steps[0]);
      UnopenedStays(c, user, Next(c, user, s, steps[0]), steps[1..]);
    }
  }

  // Neither bets nor logins repair it; only another rotation can.
  lemma HalfwayStaysBroken(c: Crypto, user: UserId, s: Cycle, newSeed: Seed, now: nat, reach: Reach, steps: seq<Step>)
    requires Inv(c, s.rows, user, s.player) && c.commit(newSeed) != c.commit(s.player.dbSeed)
    requires (reach.SeedWritten? || reach.Revealed?) && NoRotation(steps)
    ensures var t := Fairness.Run(c, user, Next(c, user, s, Rotate(newSeed, now, reach)), steps);
      !Inv(c, t.rows, user, t.player)
  {
    var r := Next(c, user, s, Rotate(newSeed, now, reach));
    forall i | 0 <= i < |r.rows|
      ensures !Matches(r.rows[i], user, c.commit(newSeed))
    {
      NotOpen(c, s.rows, user, s.player.dbSeed, i);
    }
    UnopenedStays(c, user, r, steps);
  }

  lemma NotOpen(c: Crypto, rows: seq<AuditRow>, user: UserId, seed: Seed, i: nat)
    requires AuditOk(c, rows, user, seed) && i < |rows|
    ensures rows[i].user == user && rows[i].revealedSeed.None? ==> rows[i].commitment == c.commit(seed)
  {
    var open :| 0 <= open < |rows| && Matches(rows[open], user, c.commit(seed));
  }

  // ----- Both failures on concrete runs -----

  // Seeds are their own commitments, and a digest is the seed.
  function Plain(): Crypto { Crypto(s => s, (s, clientSeed, n) => s, h => h) }

  function Registered(user: UserId): Cycle { Cycle([AuditRow(0, user, 7, 0, None, None)], Register(7)) }

  lemma RegisteredIsSound(user: UserId)
    ensures Inv(Plain(), Registered(user).rows, user, Registered(user).player)
  {
    assert Matches(Registered(user).rows[0], user, 7);
  }

  // One bet between the rotation and the login: it was played with the seed that had just been made
  // public, and the seed that the next rotation reveals does not verify it.
  lemma BetWithRevealedSeed(user: UserId, w: Wallet, now: nat)
    ensures var s := Fairness.Run(Plain(), user, Registered(user), [Rotate(8, now, Committed), Bet(w, "x", true), Login]);
      && !Inv(Plain(), s.rows, user, s.player)
      && s.player.redisSeed == s.player.dbSeed == 8
      && !Accepts(Plain(), s.player.redisSeed, s.player.history)
  {
    var c, s0 := Plain(), Registered(user);
    var r := Next(c, user, s0, Rotate(8, now, Committed));
    var b := Next(c, user, r, Bet(w, "x", true));
    var steps := [Rotate(8, now, Committed), Bet(w, "x", true), Login];
    assert steps[1..] == [Bet(w, "x", true), Login] && [Bet(w, "x", true), Login][1..] == [Login];
    assert Fairness.Run(c, user, s0, steps) == Fairness.Run(c, user, r, steps[1..]) == Fairness.Run(c, user, b, [Login]);
    assert Fairness.Run(c, user, b, [Login]) == Fairness.Run(c, user, Next(c, user, b, Login), [Login][1..]);
    assert b.player.history == [ClientBet(w, "x", 1, 7, 8)];
    assert !Verified(c, 8, b.player.history[0]);
  }

  // A second rotation instead, complete this time: the row of seed 8 stays open beside that of 9.
  lemma TwoOpenRows(user: UserId, now: nat)
    ensures var s := Fairness.Run(Plain(), user, Registered(user), [Rotate(8, now, Committed), Rotate(9, now, Complete), Login]);
      && !Inv(Plain(), s.rows, user, s.player)
      && |s.rows| == 3 && Matches(s.rows[1], user, 8) && Matches(s.rows[2], user, 9)
  {
    var c, s0 := Plain(), Registered(user);
    var steps := [Rotate(8, now, Committed), Rotate(9, now, Complete), Login];
    var r := Next(c, user, s0, steps[0]);
    var q := Next(c, user, r, steps[1]);
    assert steps[1..] == [Rotate(9, now, Complete), Login] && [Rotate(9, now, Complete), Login][1..] == [Login];
    assert Fairness.Run(c, user, s0, steps) == Fairness.Run(c, user, r, steps[1..]) == Fairness.Run(c, user, q, [Login]);
    assert Fairness.Run(c, user, q, [Login]) == Fairness.Run(c, user, Next(c, user, q, Login), [Login][1..]);
    assert q.rows[1].revealedSeed.None? && q.rows[2].revealedSeed.None?;
  }
}
