/** What each transaction does to the session rows, told by the rows alone. */
module SessionEffects {
  import opened Queries
  import opened Sessions

  /** The session that stands so many replacements after this one. */
  ghost function Replaced(rows: map<nat, Session>, id: nat, times: nat): Option<nat>
    decreases times
  {
    if id !in rows then None
    else if times == 0 then Some(id)
    else if rows[id].next.None? then None
    else Replaced(rows, rows[id].next.value, times - 1)
  }

  /** The session itself or one that came to replace it. */
  ghost predicate ComesOf(rows: map<nat, Session>, id: nat, y: nat) {
    exists times: nat :: Replaced(rows, id, times) == Some(y)
  }

  lemma {:induction false} ReplacementsAreThere(rows: map<nat, Session>, id: nat, times: nat)
    ensures Replaced(rows, id, times).Some? ==> id in rows && Replaced(rows, id, times).value in rows
    decreases times
  {
    if id in rows && times > 0 && rows[id].next.Some? {
      ReplacementsAreThere(rows, rows[id].next.value, times - 1);
    }
  }

  lemma {:induction false} ReplacedInChain(db: Db, id: nat, times: nat)
    requires Linked(db) && id in db.rows && Replaced(db.rows, id, times).Some?
    ensures Replaced(db.rows, id, times).value in Chain(db, id)
    decreases times
  {
    if times > 0 {
      ReplacementsAreThere(db.rows, db.rows[id].next.value, times - 1);
      ReplacedInChain(db, db.rows[id].next.value, times - 1);
    }
  }

  lemma {:induction false} ChainIsReplaced(db: Db, id: nat, y: nat) returns (times: nat)
    requires Linked(db) && id in db.rows && y in Chain(db, id)
    ensures Replaced(db.rows, id, times) == Some(y)
    decreases db.issued - db.serial[id]
  {
    times := 0;
    if y != id {
      var rest := ChainIsReplaced(db, db.rows[id].next.value, y);
      times := rest + 1;
    }
  }

  /** The walk along the links meets exactly the replacements. */
  lemma ChainIsReplacements(db: Db, id: nat)
    requires Linked(db) && id in db.rows
    ensures forall y :: y in Chain(db, id) <==> ComesOf(db.rows, id, y)
  {
    forall y ensures y in Chain(db, id) <==> ComesOf(db.rows, id, y) {
      if times: nat :| Replaced(db.rows, id, times) == Some(y) {
        ReplacedInChain(db, id, times);
      }
      if y in Chain(db, id) {
        var times := ChainIsReplaced(db, id, y);
      }
    }
  }

  // ----- revoking -----

  ghost function Heirs(rows: map<nat, Session>, id: nat): iset<nat> {
    iset y | ComesOf(rows, id, y)
  }

  ghost function SessionsOf(rows: map<nat, Session>, account: nat): iset<nat> {
    iset id | id in rows && rows[id].account == account
  }

  /** Of these sessions those not revoked before are revoked now; nothing else changes. */
  ghost predicate RevokesNow(before: map<nat, Session>, after: map<nat, Session>, ids: iset<nat>, now: int) {
    && after.Keys == before.Keys
    && (forall id | id in before :: after[id] == before[id].(revokedAt := after[id].revokedAt))
    && (forall id | id in before && id in ids && before[id].revokedAt.None? :: after[id].revokedAt == Some(now))
    && (forall id | id in before && (id !in ids || before[id].revokedAt.Some?) :: after[id] == before[id])
  }

  lemma RevokeIsRevokesNow(rows: map<nat, Session>, some: set<nat>, ids: iset<nat>, now: int)
    requires forall id | id in rows :: id in some <==> id in ids
    ensures RevokesNow(rows, Revoke(rows, some, now), ids, now)
  {
  }

  ghost predicate SameRest(before: Db, after: Db) {
    after.closed == before.closed && after.serial == before.serial && after.issued == before.issued
  }

  // ----- refresh -----

  /** Who may refresh: a session that is there, of an open account, with its own secret and before it expires. */
  predicate MayRefresh(db: Db, op: Op)
    requires op.Refresh?
  {
    && op.id in db.rows && db.rows[op.id].account !in db.closed
    && db.rows[op.id].hash == op.hash && op.now < db.rows[op.id].expiresAt
  }

  ghost predicate HandsOver(before: Db, op: Op, after: Db)
    requires op.Refresh? && op.id in before.rows
  {
    var session := before.rows[op.id];
    && after.rows.Keys == before.rows.Keys + {op.nextId}
    && (forall id | id in before.rows && id != op.id :: after.rows[id] == before.rows[id])
    && after.rows[op.id] == session.(revokedAt := Some(op.now), next := Some(op.nextId))
    && after.rows[op.nextId] == Session(session.account, op.nextHash, op.nextExpiresAt, None, None)
    && after.closed == before.closed
  }

  /** A refresh that is not allowed changes nothing; with a revoked session it ends all that came of it; otherwise
      the session hands over to a new one. */
  ghost predicate Refreshes(before: Db, op: Op, after: Db, outcome: Outcome)
    requires op.Refresh?
  {
    && (outcome != Invalid <==> MayRefresh(before, op))
    && (outcome == Invalid ==> after == before)
    && (outcome == Replay <==> MayRefresh(before, op) && before.rows[op.id].revokedAt.Some?)
    && (outcome == Replay ==>
          && RevokesNow(before.rows, after.rows, Heirs(before.rows, op.id) - iset{op.id}, op.now)
          && SameRest(before, after))
    && (outcome.Rotated? ==>
          && op.id in before.rows && HandsOver(before, op, after)
          && outcome == Rotated(before.rows[op.id].account, op.nextId))
  }

  lemma RotationRefreshes(db: Db, op: Op)
    requires Linked(db) && op.Refresh? && op.nextId !in db.serial
    ensures Refreshes(db, op, RotateSession(db, op).0, RotateSession(db, op).1)
  {
    if RotateSession(db, op).1 == Replay {
      ChainIsReplacements(db, op.id);
      RevokeIsRevokesNow(db.rows, Elements(Chain(db, op.id)) - {op.id},
                         Heirs(db.rows, op.id) - iset{op.id}, op.now);
    }
  }

  lemma AdmittedExactly(db: Db, op: Op)
    requires Linked(db) && op.Refresh?
    ensures RotateSession(db, op).1 != Invalid <==> MayRefresh(db, op)
  {
  }

  // ----- logout and account -----

  /** Only with the secret of the session; it and all that came of it end. */
  ghost predicate LogsOut(before: Db, op: Op, after: Db, revoked: bool)
    requires op.Logout?
  {
    && (revoked <==> op.id in before.rows && before.rows[op.id].hash == op.hash)
    && (!revoked ==> after == before)
    && (revoked ==> RevokesNow(before.rows, after.rows, Heirs(before.rows, op.id), op.now)
                    && SameRest(before, after))
  }

  lemma RevocationLogsOut(db: Db, op: Op)
    requires Linked(db) && op.Logout?
    ensures LogsOut(db, op, RevokeSession(db, op).0, RevokeSession(db, op).1)
  {
    if RevokeSession(db, op).1 {
      ChainIsReplacements(db, op.id);
      RevokeIsRevokesNow(db.rows, Elements(Chain(db, op.id)), Heirs(db.rows, op.id), op.now);
    }
  }

  ghost predicate EndsAccount(before: Db, account: nat, now: int, after: Db) {
    && RevokesNow(before.rows, after.rows, SessionsOf(before.rows, account), now)
    && SameRest(before, after)
  }

  /** Revoking an account ends its sessions and no other's. */
  lemma RevocationEndsAccount(db: Db, account: nat, now: int)
    requires Linked(db)
    ensures EndsAccount(db, account, now, Apply(db, RevokeAccount(now, account)))
    ensures forall other, id :: IsAccessActive(Apply(db, RevokeAccount(now, account)), other, id) <==>
      other != account && IsAccessActive(db, other, id)
  {
    RevokeIsRevokesNow(db.rows, OfAccount(db.rows, account),
                       SessionsOf(db.rows, account), now);
  }

  /** So does closing it, for good. */
  lemma ClosingEndsAccess(db: Db, account: nat, now: int)
    requires Linked(db)
    ensures forall other, id :: IsAccessActive(Apply(db, CloseAccount(now, account)), other, id) <==>
      other != account && IsAccessActive(db, other, id)
    ensures forall op: Op | op.Refresh? && op.id in db.rows && db.rows[op.id].account == account ::
      RotateSession(Apply(db, CloseAccount(now, account)), op).1 == Invalid
  {
  }

  /** A login opens access for its own account, if that is open, and changes no other session's. */
  lemma LoginOpensAccess(db: Db, op: Op)
    requires Linked(db) && op.Login? && op.id !in db.serial
    ensures forall account, id :: IsAccessActive(Apply(db, op), account, id) <==>
      IsAccessActive(db, account, id) || (id == op.id && account == op.account && account !in db.closed)
    ensures forall later: Op | later.Refresh? && later.id == op.id ::
      RotateSession(Inserted(db, op.id, Session(op.account, op.hash, op.expiresAt, None, None)), later).1 ==
        if op.account !in db.closed && later.hash == op.hash && later.now < op.expiresAt
        then Rotated(op.account, later.nextId) else Invalid
  {
  }

  // ----- retention -----

  /** Thirty-five days in milliseconds; nothing that came of the session is younger. */
  ghost predicate LongOver(rows: map<nat, Session>, id: nat, now: int) {
    forall y | ComesOf(rows, id, y) && y in rows :: rows[y].expiresAt < now - 3_024_000_000
  }

  /** The sessions that go are long over, at most five hundred, the earliest expired first, and all of them if fewer
      go; the rest stays as it is. */
  ghost predicate Prunes(before: map<nat, Session>, after: map<nat, Session>, now: int) {
    && after.Keys <= before.Keys
    && (forall id | id in after :: after[id] == before[id])
    && (forall id | id in before.Keys - after.Keys :: LongOver(before, id, now))
    && |before.Keys - after.Keys| <= 500
    && (|before.Keys - after.Keys| < 500 ==> forall id | id in after :: !LongOver(before, id, now))
    && (forall a, b | a in before.Keys - after.Keys && b in after && LongOver(before, b, now) ::
          before[a].expiresAt <= before[b].expiresAt)
  }

  lemma ExpiredIsLongOver(db: Db, now: int, id: nat)
    requires Linked(db) && id in db.rows
    ensures id in Expired(db, now - SESSION_RETENTION) <==> LongOver(db.rows, id, now)
  {
    ChainIsReplacements(db, id);
    assert Replaced(db.rows, id, 0) == Some(id);
    assert ComesOf(db.rows, id, id);
  }

  lemma BatchPrunes(rows: map<nat, Session>, expired: set<nat>, batch: set<nat>, now: int)
    requires expired <= rows.Keys && forall id | id in rows :: id in expired <==> LongOver(rows, id, now)
    requires batch <= expired && |batch| <= 500 && (batch != expired ==> |batch| == 500)
    requires forall a, b | a in batch && b in expired - batch :: rows[a].expiresAt <= rows[b].expiresAt
    ensures Prunes(rows, rows - batch, now)
  {
    hide LongOver;
    assert rows.Keys - (rows - batch).Keys == batch;
  }

  lemma CleanupPrunes(db: Db, now: int, batch: set<nat>)
    requires Linked(db) && LegalBatch(db, now - SESSION_RETENTION, batch)
    ensures Prunes(db.rows, Apply(db, Cleanup(now, batch)).rows, now)
    ensures SameRest(db, Apply(db, Cleanup(now, batch)))
  {
    hide LongOver;
    hide Prunes;
    hide Linked;
    hide ActiveLineage;
    forall id | id in db.rows ensures id in Expired(db, now - SESSION_RETENTION) <==> LongOver(db.rows, id, now) {
      ExpiredIsLongOver(db, now, id);
    }
    BatchPrunes(db.rows, Expired(db, now - SESSION_RETENTION), batch, now);
  }
}
