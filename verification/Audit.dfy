/** The seed commitment audit table: an append-only log whose trigger admits one reveal per row. */
module Audit {
  import opened Domain

  type Seed = nat
  type Hash = nat

  datatype AuditRow = AuditRow(id: nat, user: UserId, commitment: Hash, committedAt: nat,
                               revealedSeed: Option<Seed>, revealedAt: Option<nat>)

  // revealed_pair_check
  predicate PairOk(r: AuditRow) { r.revealedSeed.Some? <==> r.revealedAt.Some? }

  predicate SameIdentity(r: AuditRow, s: AuditRow)
  {
    r.id == s.id && r.user == s.user && r.commitment == s.commitment && r.committedAt == s.committedAt
  }

  // prevent_audit_mutation on UPDATE.
  predicate TriggerAllows(was: AuditRow, now: AuditRow)
  {
    && was.revealedSeed.None?
    && now.revealedSeed.Some? && now.revealedAt.Some?
    && SameIdentity(was, now)
  }

  // A statement somebody tries to run on the table.
  datatype Op = Insert(row: AuditRow) | Update(i: nat, to: AuditRow) | Delete(i: nat)

  function Attempt(rows: seq<AuditRow>, op: Op): seq<AuditRow>
  {
    match op
    case Insert(r) => if PairOk(r) then rows + [r.(id := |rows|)] else rows
    case Update(i, to) => if i < |rows| && TriggerAllows(rows[i], to) then rows[i := to] else rows
    case Delete(_) => rows
  }

  function Run(rows: seq<AuditRow>, ops: seq<Op>): seq<AuditRow>
    decreases |ops|
  {
    if ops == [] then rows else Run(Attempt(rows, ops[0]), ops[1..])
  }

  function Reveal(r: AuditRow, seed: Seed, now: nat): AuditRow
  {
    r.(revealedSeed := Some(seed), revealedAt := Some(now))
  }

  predicate Matches(r: AuditRow, user: UserId, commitment: Hash)
  {
    r.user == user && r.commitment == commitment && r.revealedSeed.None?
  }

  // UPDATE ... WHERE user_id AND seed_commitment AND revealed_seed IS NULL.
  function RevealAll(rows: seq<AuditRow>, user: UserId, commitment: Hash, seed: Seed, now: nat): seq<AuditRow>
  {
    seq(|rows|, i requires 0 <= i < |rows| =>
      if Matches(rows[i], user, commitment) then Reveal(rows[i], seed, now) else rows[i])
  }

  class AuditTable {
    var rows: seq<AuditRow>

    constructor ()
      ensures rows == []
    {
      rows := [];
    }

    method InsertRow(r: AuditRow) returns (ok: bool)
      modifies this
      ensures ok <==> PairOk(r)
      ensures rows == Attempt(old(rows), Insert(r))
    {
      if r.revealedSeed.Some? != r.revealedAt.Some? {
        return false;
      }
      rows := rows + [r.(id := |rows|)];
      return true;
    }

    method UpdateRow(i: nat, to: AuditRow) returns (ok: bool)
      requires i < |rows|
      modifies this
      ensures ok <==> TriggerAllows(old(rows)[i], to)
      ensures rows == Attempt(old(rows), Update(i, to))
    {
      var was := rows[i];
      if was.revealedSeed.Some? {
        return false;
      }
      if to.revealedSeed.None? || to.revealedAt.None? {
        return false;
      }
      if was.id != to.id || was.user != to.user || was.commitment != to.commitment || was.committedAt != to.committedAt {
        return false;
      }
      rows := rows[i := to];
      return true;
    }

    method DeleteRow(i: nat) returns (ok: bool)
      requires i < |rows|
      ensures !ok && rows == Attempt(rows, Delete(i))
    {
      return false;
    }

    method InsertSeedCommitment(user: UserId, commitment: Hash, now: nat)
      modifies this
      ensures rows == old(rows) + [AuditRow(|old(rows)|, user, commitment, now, None, None)]
    {
      var ok := InsertRow(AuditRow(0, user, commitment, now, None, None));
    }

    method RevealSeedInAudit(user: UserId, commitment: Hash, seed: Seed, now: nat)
      modifies this
      ensures rows == RevealAll(old(rows), user, commitment, seed, now)
    {
      for i := 0 to |rows|
        invariant |rows| == |old(rows)|
        invariant forall k :: 0 <= k < i ==> rows[k] == RevealAll(old(rows), user, commitment, seed, now)[k]
        invariant forall k :: i <= k < |rows| ==> rows[k] == old(rows)[k]
      {
        if Matches(rows[i], user, commitment) {
          var ok := UpdateRow(i, Reveal(rows[i], seed, now));
        }
      }
    }
  }

  // ----- The trail is monotone -----

  predicate Grows(before: seq<AuditRow>, after: seq<AuditRow>)
  {
    && |before| <= |after|
    && forall i :: 0 <= i < |before| ==>
         && after[i].id == before[i].id && after[i].user == before[i].user
         && after[i].commitment == before[i].commitment && after[i].committedAt == before[i].committedAt
         && (before[i].revealedSeed.Some? ==> after[i] == before[i])
  }

  // Whatever statements are attempted: no row disappears, no identity changes, no reveal is undone
  // or redone.
  lemma {:induction false} TrailGrows(rows: seq<AuditRow>, ops: seq<Op>)
    ensures Grows(rows, Run(rows, ops))
    decreases |ops|
  {
    if ops != [] {
      TrailGrows(Attempt(rows, ops[0]), ops[1..]);
    }
  }

  predicate Paired(rows: seq<AuditRow>)
  {
    forall i :: 0 <= i < |rows| ==> (rows[i].revealedSeed.Some? <==> rows[i].revealedAt.Some?)
  }

  lemma PairsNext(rows: seq<AuditRow>, op: Op)
    requires Paired(rows)
    ensures Paired(Attempt(rows, op))
  {
  }

  // Whatever statements are attempted, a row has both its seed and the time of its reveal, or neither.
  lemma {:induction false} PairsAlways(rows: seq<AuditRow>, ops: seq<Op>)
    requires Paired(rows)
    ensures Paired(Run(rows, ops))
    decreases |ops|
  {
    if ops != [] {
      PairsNext(rows, ops[0]);
      PairsAlways(Attempt(rows, ops[0]), ops[1..]);
    }
  }

  // The row updates of one reveal statement, among the first n rows.
  function RevealOps(rows: seq<AuditRow>, user: UserId, commitment: Hash, seed: Seed, now: nat, n: nat): seq<Op>
    requires n <= |rows|
  {
    if n == 0 then []
    else
      RevealOps(rows, user, commitment, seed, now, n - 1)
      + (if Matches(rows[n - 1], user, commitment) then [Update(n - 1, Reveal(rows[n - 1], seed, now))] else [])
  }

  lemma {:induction false} RunAppend(rows: seq<AuditRow>, ops: seq<Op>, more: seq<Op>)
    ensures Run(rows, ops + more) == Run(Run(rows, ops), more)
    decreases |ops|
  {
    if ops == [] {
      assert ops + more == more;
    } else {
      assert (ops + more)[1..] == ops[1..] + more;
      RunAppend(Attempt(rows, ops[0]), ops[1..], more);
    }
  }

  // The trigger lets every one of them pass, so the statement reveals all rows it matches.
  lemma {:induction false} RevealPasses(rows: seq<AuditRow>, user: UserId, commitment: Hash, seed: Seed, now: nat, n: nat)
    requires n <= |rows|
    ensures Run(rows, RevealOps(rows, user, commitment, seed, now, n))
         == RevealAll(rows, user, commitment, seed, now)[..n] + rows[n..]
  {
    if n == 0 {
      assert RevealAll(rows, user, commitment, seed, now)[..0] + rows[0..] == rows;
    } else {
      var ops := RevealOps(rows, user, commitment, seed, now, n - 1);
      var before := Run(rows, ops);
      RevealPasses(rows, user, commitment, seed, now, n - 1);
      if Matches(rows[n - 1], user, commitment) {
        var op := Update(n - 1, Reveal(rows[n - 1], seed, now));
        RunAppend(rows, ops, [op]);
        assert Run(Attempt(before, op), []) == Attempt(before, op);
      } else {
        assert ops + [] == ops;
      }
    }
  }

  // How often row i changes.
  function Changes(rows: seq<AuditRow>, ops: seq<Op>, i: nat): nat
    requires i < |rows|
    decreases |ops|
  {
    if ops == [] then 0
    else
      var next := Attempt(rows, ops[0]);
      (if next[i] != rows[i] then 1 else 0) + Changes(next, ops[1..], i)
  }

  // A row changes once, when it is revealed, or never.
  lemma {:induction false} RevealedOnce(rows: seq<AuditRow>, ops: seq<Op>, i: nat)
    requires i < |rows|
    ensures i < |Run(rows, ops)|
    ensures Changes(rows, ops, i) + (if rows[i].revealedSeed.Some? then 1 else 0)
         == if Run(rows, ops)[i].revealedSeed.Some? then 1 else 0
    decreases |ops|
  {
    if ops != [] {
      RevealedOnce(Attempt(rows, ops[0]), ops[1..], i);
    }
  }
}
