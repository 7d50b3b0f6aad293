/** What holds over whole runs of sessions: dead lineages stay dead, and retention passes
    change no refresh and no session that has not passed the cutoff. */
module SessionRuns {
  import opened Queries
  import opened Sessions

  /** Operations in the order of one clock that never goes back. */
  ghost predicate LegalRun(db: Db, clock: int, ops: seq<Op>)
    requires Inv(db)
    decreases |ops|
  {
    ops == [] ||
    (&& clock <= ops[0].now && Allowed(db, ops[0])
     && (StepKeeps(db, ops[0]); LegalRun(Apply(db, ops[0]), ops[0].now, ops[1..])))
  }

  ghost function Final(db: Db, clock: int, ops: seq<Op>): (final: Db)
    requires Inv(db) && LegalRun(db, clock, ops)
    ensures Inv(final)
    decreases |ops|
  {
    if ops == [] then db
    else
      StepKeeps(db, ops[0]);
      Final(Apply(db, ops[0]), ops[0].now, ops[1..])
  }

  ghost function Outcomes(db: Db, clock: int, ops: seq<Op>): seq<Outcome>
    requires Inv(db) && LegalRun(db, clock, ops)
    decreases |ops|
  {
    if ops == [] then []
    else
      StepKeeps(db, ops[0]);
      (if ops[0].Refresh? then [RotateSession(db, ops[0]).1] else []) +
      Outcomes(Apply(db, ops[0]), ops[0].now, ops[1..])
  }

  // ----- dead lineages -----

  /** A set of sessions, closed under the links between rows, all of whose rows are revoked. */
  ghost predicate Dead(db: Db, dead: set<nat>)
    requires Linked(db)
  {
    && dead <= db.serial.Keys
    && (forall y | y in dead && y in db.rows :: db.rows[y].revokedAt.Some?)
    && (forall y | y in db.rows && db.rows[y].next.Some? && db.rows[y].next.value in db.rows ::
          y in dead <==> db.rows[y].next.value in dead)
  }

  ghost function Lineage(db: Db, x: nat): set<nat>
    requires Linked(db) && x in db.rows
  {
    set z | z in db.rows && SameLineage(db, x, z)
  }

  lemma LineageClosed(db: Db, x: nat, y: nat, n: nat)
    requires Inv(db) && x in db.rows && y in db.rows && n in db.rows && db.rows[y].next == Some(n)
    ensures SameLineage(db, x, y) <==> SameLineage(db, x, n)
  {
    if y in Chain(db, x) {
      ChainTransitive(db, x, y, n);
    }
    if n in Chain(db, x) && n != x {
      PredecessorInChain(db, x, y, n);
    }
  }

  lemma {:induction false} SameChains(db: Db, ids: set<nat>, now: int, x: nat)
    requires Inv(db) && x in db.rows
    ensures Inv(db.(rows := Revoke(db.rows, ids, now)))
    ensures Chain(db.(rows := Revoke(db.rows, ids, now)), x) == Chain(db, x)
    decreases db.issued - db.serial[x]
  {
    RevokeKeeps(db, ids, now);
    var next := db.rows[x].next;
    if next.Some? && next.value in db.rows {
      SameChains(db, ids, now, next.value);
    }
  }

  /** Revoking everything from `x` on kills its whole lineage: what comes before was already revoked. */
  lemma RevokedChainIsDead(db: Db, x: nat, ids: set<nat>, now: int)
    requires Inv(db) && x in db.rows
    requires Elements(Chain(db, x)) - {x} <= ids && (x in ids || db.rows[x].revokedAt.Some?)
    ensures Inv(db.(rows := Revoke(db.rows, ids, now)))
    ensures Dead(db.(rows := Revoke(db.rows, ids, now)), Lineage(db, x))
  {
    RevokeKeeps(db, ids, now);
    var next := db.(rows := Revoke(db.rows, ids, now));
    forall y | y in Lineage(db, x) ensures next.rows[y].revokedAt.Some? {
      if y !in Chain(db, x) {
        InnerHasSuccessor(db, y, x);
      }
    }
    forall y | y in next.rows && next.rows[y].next.Some? && next.rows[y].next.value in next.rows
      ensures y in Lineage(db, x) <==> next.rows[y].next.value in Lineage(db, x)
    {
      LineageClosed(db, x, y, db.rows[y].next.value);
    }
  }

  /** A replayed refresh leaves its whole lineage dead. */
  lemma ReplayKills(db: Db, op: Op)
    requires Inv(db) && op.Refresh? && RotateSession(db, op).1 == Replay
    ensures Linked(RotateSession(db, op).0) && Dead(RotateSession(db, op).0, Lineage(db, op.id))
  {
    RevokedChainIsDead(db, op.id, Elements(Chain(db, op.id)) - {op.id}, op.now);
  }

  /** So does a logout that found its session. */
  lemma LogoutKills(db: Db, op: Op)
    requires Inv(db) && op.Logout? && RevokeSession(db, op).1
    ensures Linked(RevokeSession(db, op).0) && Dead(RevokeSession(db, op).0, Lineage(db, op.id))
  {
    RevokedChainIsDead(db, op.id, Elements(Chain(db, op.id)), op.now);
  }

  /** A rotation hands the account over: from then on the new session is the active one, its token can
      be rotated until it expires, and the old token counts as a replay. */
  lemma RotationHandsOver(db: Db, op: Op, later: Op)
    requires Inv(db) && op.Refresh? && op.nextId !in db.serial && RotateSession(db, op).1.Rotated? && later.Refresh?
    ensures var next := RotateSession(db, op).0;
            var account := db.rows[op.id].account;
            && RotateSession(db, op).1 == Rotated(account, op.nextId)
            && Linked(next) && IsAccessActive(next, account, op.nextId) && !IsAccessActive(next, account, op.id)
            && (later.id == op.nextId && later.hash == op.nextHash ==>
                  RotateSession(next, later).1 ==
                    if later.now < op.nextExpiresAt then Rotated(account, later.nextId) else Invalid)
            && (later.id == op.id && later.hash == op.hash && later.now < db.rows[op.id].expiresAt ==>
                  RotateSession(next, later).1 == Replay)
  {
    RotationKeeps(db, op);
  }

  lemma DeadStays(db: Db, op: Op, dead: set<nat>)
    requires Inv(db) && Allowed(db, op) && Dead(db, dead)
    ensures Inv(Apply(db, op)) && Dead(Apply(db, op), dead)
  {
    StepKeeps(db, op);
  }

  /** Whatever is linked to a dead session, now or later, is dead. */
  lemma {:induction false} DeadReaches(db: Db, dead: set<nat>, a: nat, b: nat)
    requires Inv(db) && Dead(db, dead) && a in db.rows && b in db.rows && b in Chain(db, a)
    ensures a in dead <==> b in dead
    decreases db.issued - db.serial[a]
  {
    if a != b {
      DeadReaches(db, dead, db.rows[a].next.value, b);
    }
  }

  /** Through any further run, no session linked to a dead one is active or can be refreshed. */
  lemma {:induction false} DeadForever(db: Db, clock: int, ops: seq<Op>, dead: set<nat>)
    requires Inv(db) && Dead(db, dead) && LegalRun(db, clock, ops)
    ensures var final := Final(db, clock, ops);
      && Dead(final, dead)
      && (forall a, b, account | a in dead && a in final.rows && b in final.rows && SameLineage(final, a, b) ::
            !IsAccessActive(final, account, b))
      && (forall a, op: Op | a in dead && op.Refresh? && op.id == a :: !RotateSession(final, op).1.Rotated?)
    decreases |ops|
  {
    if ops == [] {
      forall a, b, account | a in dead && a in db.rows && b in db.rows && SameLineage(db, a, b)
        ensures !IsAccessActive(db, account, b)
      {
        if b in Chain(db, a) {
          DeadReaches(db, dead, a, b);
        } else {
          DeadReaches(db, dead, b, a);
        }
      }
    } else {
      DeadStays(db, ops[0], dead);
      DeadForever(Apply(db, ops[0]), ops[0].now, ops[1..], dead);
    }
  }

  // ----- retention is invisible -----

  /** `kept` is `full` after retention passes up to `cutoff`. Rows that have not passed the
      cutoff are the same; what is missing reaches only sessions that have. */
  ghost predicate Mirrors(full: Db, kept: Db, cutoff: int) {
    Inv(full) && Inv(kept) && Alike(full, kept, cutoff) && OnlyOldMissing(full, kept, cutoff)
  }

  ghost predicate Alike(full: Db, kept: Db, cutoff: int) {
    && full.closed == kept.closed && full.serial == kept.serial && full.issued == kept.issued
    && kept.rows.Keys <= full.rows.Keys
    && (forall id | id in kept.rows :: SameButRevocation(full.rows[id], kept.rows[id], cutoff))
  }

  ghost predicate OnlyOldMissing(full: Db, kept: Db, cutoff: int)
    requires Linked(full)
  {
    forall id, y | id in full.rows && id !in kept.rows && y in Chain(full, id) && y in full.rows ::
      full.rows[y].expiresAt < cutoff
  }

  predicate SameButRevocation(a: Session, b: Session, cutoff: int) {
    && a.account == b.account && a.hash == b.hash && a.expiresAt == b.expiresAt && a.next == b.next
    && (a.expiresAt >= cutoff ==> a == b)
  }

  /** Every ancestor of a session that has not passed the cutoff survives, and still reaches it. */
  lemma {:induction false} AncestorsSurvive(full: Db, kept: Db, cutoff: int, a: nat, y: nat)
    requires Mirrors(full, kept, cutoff) && a in full.rows && y in full.rows && full.rows[y].expiresAt >= cutoff
    requires y in Chain(full, a)
    ensures a in kept.rows && y in Chain(kept, a)
    decreases full.issued - full.serial[a]
  {
    if a != y {
      AncestorsSurvive(full, kept, cutoff, full.rows[a].next.value, y);
    }
  }

  lemma {:induction false} KeptChainsAreChains(full: Db, kept: Db, cutoff: int, a: nat, y: nat)
    requires Mirrors(full, kept, cutoff) && a in kept.rows && y in Chain(kept, a)
    ensures y in Chain(full, a)
    decreases kept.issued - kept.serial[a]
  {
    if a != y {
      KeptChainsAreChains(full, kept, cutoff, kept.rows[a].next.value, y);
    }
  }

  /** Revoking sets of sessions that agree on what has not passed the cutoff. */
  lemma MirrorRevoke(full: Db, kept: Db, cutoff: int, fullIds: set<nat>, keptIds: set<nat>, now: int)
    requires Mirrors(full, kept, cutoff)
    requires forall id | id in kept.rows && full.rows[id].expiresAt >= cutoff :: id in fullIds <==> id in keptIds
    ensures Mirrors(full.(rows := Revoke(full.rows, fullIds, now)),
                    kept.(rows := Revoke(kept.rows, keptIds, now)), cutoff)
  {
    RevokeKeeps(full, fullIds, now);
    RevokeKeeps(kept, keptIds, now);
    var full', kept' := full.(rows := Revoke(full.rows, fullIds, now)), kept.(rows := Revoke(kept.rows, keptIds, now));
    forall id, y | id in full'.rows && id !in kept'.rows && y in Chain(full', id) && y in full'.rows
      ensures full'.rows[y].expiresAt < cutoff
    {
      SameChains(full, fullIds, now, id);
    }
  }

  lemma MirrorLogoutWalk(full: Db, kept: Db, cutoff: int, x: nat)
    requires Mirrors(full, kept, cutoff) && x in kept.rows
    ensures forall id | id in kept.rows && full.rows[id].expiresAt >= cutoff ::
        id in Elements(Chain(full, x)) <==> id in Elements(Chain(kept, x))
  {
    forall id | id in kept.rows && full.rows[id].expiresAt >= cutoff
      ensures id in Elements(Chain(full, x)) <==> id in Elements(Chain(kept, x))
    {
      if id in Chain(full, x) {
        AncestorsSurvive(full, kept, cutoff, x, id);
      }
      if id in Chain(kept, x) {
        KeptChainsAreChains(full, kept, cutoff, x, id);
      }
    }
  }

  /** Adding a session leaves every chain from `id` alone unless it contained the predecessor. */
  lemma {:induction false} UntouchedChain(db: Db, next: Db, id: nat, changed: nat)
    requires Inv(db) && Inv(next) && id in db.rows && changed !in Chain(db, id)
    requires forall y | y in db.rows && y != changed :: y in next.rows && next.rows[y] == db.rows[y]
    requires forall y | y in next.rows && y !in db.rows :: y !in db.serial
    ensures id in next.rows && Chain(next, id) == Chain(db, id)
    decreases db.issued - db.serial[id]
  {
    var link := db.rows[id].next;
    if link.Some? && link.value in db.rows {
      UntouchedChain(db, next, link.value, changed);
    } else if link.Some? {
      assert link.value in db.serial;
    }
  }

  lemma MirrorAdded(full: Db, kept: Db, cutoff: int, full': Db, kept': Db, added: nat, changed: nat)
    requires Mirrors(full, kept, cutoff) && Inv(full') && Inv(kept')
    requires full'.closed == kept'.closed && full'.serial == kept'.serial && full'.issued == kept'.issued
    requires added !in full.serial
    requires full'.rows.Keys == full.rows.Keys + {added} && kept'.rows.Keys == kept.rows.Keys + {added}
    requires full'.rows[added] == kept'.rows[added]
    requires changed == added || (changed in kept.rows && full.rows[changed].expiresAt >= cutoff)
    requires full'.rows[changed] == kept'.rows[changed]
    requires forall y | y in full.rows && y != changed :: full'.rows[y] == full.rows[y]
    requires forall y | y in kept.rows && y != changed :: kept'.rows[y] == kept.rows[y]
    ensures Mirrors(full', kept', cutoff)
  {
    assert OnlyOldMissing(full', kept', cutoff) by {
      forall id, y | id in full'.rows && id !in kept'.rows && y in Chain(full', id) && y in full'.rows
        ensures full'.rows[y].expiresAt < cutoff
      {
        MissingUntouched(full, kept, cutoff, full', id, changed);
      }
    }
    hide OnlyOldMissing;
    hide Inv;
  }

  lemma MissingUntouched(full: Db, kept: Db, cutoff: int, full': Db, id: nat, changed: nat)
    requires Mirrors(full, kept, cutoff) && Inv(full') && id in full.rows && id !in kept.rows
    requires changed !in full.rows || full.rows[changed].expiresAt >= cutoff
    requires forall y | y in full.rows && y != changed :: y in full'.rows && full'.rows[y] == full.rows[y]
    requires forall y | y in full'.rows && y !in full.rows :: y !in full.serial
    ensures id in full'.rows && Chain(full', id) == Chain(full, id)
    ensures forall y | y in Chain(full', id) && y in full'.rows :: full'.rows[y].expiresAt < cutoff
  {
    ChainMembers(full, id);
    assert changed !in Chain(full, id);
    UntouchedChain(full, full', id, changed);
  }

  lemma MirrorRefresh(full: Db, kept: Db, cutoff: int, op: Op)
    requires Mirrors(full, kept, cutoff) && op.Refresh? && cutoff <= op.now && op.nextId !in full.serial
    ensures RotateSession(full, op).1 == RotateSession(kept, op).1
    ensures Mirrors(RotateSession(full, op).0, RotateSession(kept, op).0, cutoff)
  {
    SameRotation(full, kept, cutoff, op);
    if RotateSession(full, op).1 == Replay {
      MirrorLogoutWalk(full, kept, cutoff, op.id);
      MirrorRevoke(full, kept, cutoff, Elements(Chain(full, op.id)) - {op.id},
                   Elements(Chain(kept, op.id)) - {op.id}, op.now);
    } else if RotateSession(full, op).1.Rotated? {
      RotationKeeps(full, op);
      RotationKeeps(kept, op);
      hide OnlyOldMissing;
      hide Inv;
      MirrorAdded(full, kept, cutoff, RotateSession(full, op).0, RotateSession(kept, op).0, op.nextId, op.id);
    }
  }

  lemma SameRotation(full: Db, kept: Db, cutoff: int, op: Op)
    requires Mirrors(full, kept, cutoff) && op.Refresh? && cutoff <= op.now
    ensures RotateSession(full, op).1 == RotateSession(kept, op).1
    ensures !RotateSession(full, op).1.Invalid? ==> op.id in kept.rows && full.rows[op.id].expiresAt >= cutoff
  {
    if op.id in full.rows && op.id !in kept.rows {
      assert op.id in Chain(full, op.id);
      assert full.rows[op.id].expiresAt < cutoff;
    }
    hide OnlyOldMissing;
    hide Chain;
  }

  lemma MirrorLogout(full: Db, kept: Db, cutoff: int, op: Op)
    requires Mirrors(full, kept, cutoff) && op.Logout?
    ensures Mirrors(RevokeSession(full, op).0, RevokeSession(kept, op).0, cutoff)
    ensures op.id in full.rows && full.rows[op.id].expiresAt >= cutoff ==>
              RevokeSession(full, op).1 == RevokeSession(kept, op).1
    ensures RevokeSession(kept, op).1 ==> RevokeSession(full, op).1
  {
    if op.id in full.rows && op.id !in kept.rows {
      assert op.id in Chain(full, op.id);
    }
    if RevokeSession(kept, op).1 {
      MirrorLogoutWalk(full, kept, cutoff, op.id);
      MirrorRevoke(full, kept, cutoff, Elements(Chain(full, op.id)), Elements(Chain(kept, op.id)), op.now);
    } else if RevokeSession(full, op).1 {
      assert forall y | y in Chain(full, op.id) && y in full.rows :: full.rows[y].expiresAt < cutoff;
      MirrorRevoke(full, kept, cutoff, Elements(Chain(full, op.id)), {}, op.now);
      assert Revoke(kept.rows, {}, op.now) == kept.rows;
    }
  }

  /** A retention pass takes no session that reaches one past which the cutoff has not come. */
  lemma PassSpares(full: Db, kept: Db, cutoff: int, newer: int, batch: set<nat>, id: nat, y: nat)
    requires Mirrors(full, kept, cutoff) && cutoff <= newer && LegalBatch(kept, newer, batch)
    requires id in full.rows && y in Chain(full, id) && y in full.rows && full.rows[y].expiresAt >= newer
    ensures id in kept.rows && id !in batch
  {
    AncestorsSurvive(full, kept, cutoff, id, y);
    hide OnlyOldMissing;
    ChainMembers(kept, id);
    assert Reaches(kept, id, newer);
  }

  lemma OnlyOldPassed(full: Db, kept: Db, cutoff: int, newer: int, batch: set<nat>)
    requires Mirrors(full, kept, cutoff) && cutoff <= newer && LegalBatch(kept, newer, batch)
    ensures OnlyOldMissing(full, kept.(rows := kept.rows - batch), newer)
  {
    var kept' := kept.(rows := kept.rows - batch);
    forall id, y | id in full.rows && id !in kept'.rows && y in Chain(full, id) && y in full.rows
      ensures full.rows[y].expiresAt < newer
    {
      if full.rows[y].expiresAt >= newer {
        PassSpares(full, kept, cutoff, newer, batch, id, y);
      }
    }
  }

  lemma StillAlike(full: Db, kept: Db, cutoff: int, newer: int, batch: set<nat>)
    requires Alike(full, kept, cutoff) && cutoff <= newer
    ensures Alike(full, kept.(rows := kept.rows - batch), newer)
  {
  }

  /** A retention pass on the kept side alone. */
  lemma MirrorCleanup(full: Db, kept: Db, cutoff: int, now: int, batch: set<nat>)
    requires Mirrors(full, kept, cutoff) && cutoff <= now - SESSION_RETENTION
    requires LegalBatch(kept, now - SESSION_RETENTION, batch)
    ensures Mirrors(full, kept.(rows := kept.rows - batch), now - SESSION_RETENTION)
  {
    StepKeeps(kept, Op.Cleanup(now, batch));
    OnlyOldPassed(full, kept, cutoff, now - SESSION_RETENTION, batch);
    hide LegalBatch;
    hide OnlyOldMissing;
    hide Alike;
    StillAlike(full, kept, cutoff, now - SESSION_RETENTION, batch);
  }

  function Strip(ops: seq<Op>): seq<Op> {
    if ops == [] then [] else (if ops[0].Cleanup? then [] else [ops[0]]) + Strip(ops[1..])
  }

  lemma {:induction false} ClosingKeepsChains(db: Db, closed: set<nat>, id: nat)
    requires Inv(db) && id in db.rows
    ensures Inv(db.(closed := closed)) && Chain(db.(closed := closed), id) == Chain(db, id)
    decreases db.issued - db.serial[id]
  {
    var next := db.rows[id].next;
    if next.Some? && next.value in db.rows {
      ClosingKeepsChains(db, closed, next.value);
    }
  }

  lemma MirrorClose(full: Db, kept: Db, cutoff: int, closed: set<nat>)
    requires Mirrors(full, kept, cutoff)
    ensures Mirrors(full.(closed := closed), kept.(closed := closed), cutoff)
  {
    var full', kept' := full.(closed := closed), kept.(closed := closed);
    assert Inv(full') && Inv(kept');
    forall id, y | id in full'.rows && id !in kept'.rows && y in Chain(full', id) && y in full'.rows
      ensures full'.rows[y].expiresAt < cutoff
    {
      ClosingKeepsChains(full, closed, id);
    }
  }

  lemma MirrorLogin(full: Db, kept: Db, cutoff: int, op: Op)
    requires Mirrors(full, kept, cutoff) && op.Login? && op.id !in kept.serial
    ensures Mirrors(Apply(full, op), Apply(kept, op), cutoff)
  {
    StepKeeps(full, op);
    StepKeeps(kept, op);
    MirrorAdded(full, kept, cutoff, Apply(full, op), Apply(kept, op), op.id, op.id);
  }

  lemma MirrorRevokeAccount(full: Db, kept: Db, cutoff: int, op: Op)
    requires Mirrors(full, kept, cutoff) && op.RevokeAccount?
    ensures Mirrors(Apply(full, op), Apply(kept, op), cutoff)
  {
    MirrorRevoke(full, kept, cutoff, OfAccount(full.rows, op.account), OfAccount(kept.rows, op.account), op.now);
  }

  lemma MirrorsKeepInv(full: Db, kept: Db, cutoff: int, op: Op)
    requires Mirrors(full, kept, cutoff) && Allowed(kept, op) && !op.Cleanup?
    ensures Inv(full) && Inv(kept) && Allowed(full, op)
    ensures op.Refresh? ==> op.nextId !in full.serial
    ensures op.Login? ==> op.id !in kept.serial
  {
  }

  lemma MirrorStep(full: Db, kept: Db, cutoff: int, op: Op)
    requires Mirrors(full, kept, cutoff) && Allowed(kept, op) && !op.Cleanup? && cutoff <= op.now
    ensures Allowed(full, op) && Inv(Apply(full, op)) && Inv(Apply(kept, op))
    ensures Mirrors(Apply(full, op), Apply(kept, op), cutoff)
    ensures op.Refresh? ==> RotateSession(full, op).1 == RotateSession(kept, op).1
  {
    MirrorsKeepInv(full, kept, cutoff, op);
    StepKeeps(full, op);
    StepKeeps(kept, op);
    hide Mirrors;
    hide Inv;
    hide RotateSession;
    hide RevokeSession;
    hide Inserted;
    hide Revoke;
    match op
    case Login(_, _, _, _, _) => MirrorLogin(full, kept, cutoff, op);
    case Refresh(_, _, _, _, _, _) => MirrorRefresh(full, kept, cutoff, op);
    case Logout(_, _, _) => MirrorLogout(full, kept, cutoff, op);
    case RevokeAccount(_, _) => MirrorRevokeAccount(full, kept, cutoff, op);
    case CloseAccount(_, account) =>
      SameClosed(full, kept, cutoff);
      MirrorClose(full, kept, cutoff, full.closed + {account});
  }

  lemma SameClosed(full: Db, kept: Db, cutoff: int)
    requires Mirrors(full, kept, cutoff)
    ensures full.closed == kept.closed
  {
  }

  /** A run that may start later may start earlier, to the same effect. */
  lemma {:induction false} EarlierClock(db: Db, earlier: int, clock: int, ops: seq<Op>)
    requires Inv(db) && earlier <= clock && LegalRun(db, clock, ops)
    ensures LegalRun(db, earlier, ops)
    ensures Final(db, earlier, ops) == Final(db, clock, ops)
    ensures Outcomes(db, earlier, ops) == Outcomes(db, clock, ops)
  {
  }

  function LatestCutoff(cutoff: int, ops: seq<Op>): int
    decreases |ops|
  {
    if ops == [] then cutoff
    else LatestCutoff(if ops[0].Cleanup? then ops[0].now - SESSION_RETENTION else cutoff, ops[1..])
  }

  lemma Unroll(db: Db, clock: int, op: Op, rest: seq<Op>)
    requires Inv(db)
    ensures LegalRun(db, clock, [op] + rest) <==>
            clock <= op.now && Allowed(db, op) && Inv(Apply(db, op)) && LegalRun(Apply(db, op), op.now, rest)
    ensures LegalRun(db, clock, [op] + rest) ==>
      && Final(db, clock, [op] + rest) == Final(Apply(db, op), op.now, rest)
      && Outcomes(db, clock, [op] + rest) ==
         (if op.Refresh? then [RotateSession(db, op).1] else []) + Outcomes(Apply(db, op), op.now, rest)
  {
    assert ([op] + rest)[1..] == rest;
    if Allowed(db, op) {
      StepKeeps(db, op);
    }
  }

  lemma LatestFirst(cutoff: int, op: Op, rest: seq<Op>)
    ensures LatestCutoff(cutoff, [op] + rest) ==
            LatestCutoff(if op.Cleanup? then op.now - SESSION_RETENTION else cutoff, rest)
  {
    assert ([op] + rest)[1..] == rest;
  }

  lemma StripFirst(op: Op, rest: seq<Op>)
    ensures Strip([op] + rest) == if op.Cleanup? then Strip(rest) else [op] + Strip(rest)
  {
    assert ([op] + rest)[1..] == rest;
    assert [] + Strip(rest) == Strip(rest);
  }

  lemma {:induction false} MirrorRun(full: Db, kept: Db, cutoff: int, clock: int, ops: seq<Op>)
    requires Inv(full) && Inv(kept) && Mirrors(full, kept, cutoff) && cutoff <= clock - SESSION_RETENTION
    requires LegalRun(kept, clock, ops)
    ensures LegalRun(full, clock, Strip(ops))
    ensures Outcomes(kept, clock, ops) == Outcomes(full, clock, Strip(ops))
    ensures Mirrors(Final(full, clock, Strip(ops)), Final(kept, clock, ops), LatestCutoff(cutoff, ops))
    decreases |ops|, 0
  {
    if ops == [] {
      assert Strip(ops) == [];
    } else {
      hide Mirrors;
      hide LegalBatch;
      hide Inv;
      hide LegalRun;
      hide Final;
      hide Outcomes;
      hide Apply;
      hide Allowed;
      hide RotateSession;
      hide LatestCutoff;
      var op, rest := ops[0], ops[1..];
      assert ops == [op] + rest;
      LatestFirst(cutoff, op, rest);
      Unroll(kept, clock, op, rest);
      StripFirst(op, rest);
      hide Strip;
      if op.Cleanup? {
        MirrorRunPass(full, kept, cutoff, clock, op, rest);
      } else {
        MirrorRunStep(full, kept, cutoff, clock, op, rest);
      }
    }
  }

  lemma {:induction false} MirrorRunStep(full: Db, kept: Db, cutoff: int, clock: int, op: Op, rest: seq<Op>)
    requires Inv(full) && Inv(kept) && Mirrors(full, kept, cutoff) && cutoff <= clock - SESSION_RETENTION
    requires clock <= op.now
    requires !op.Cleanup? && Allowed(kept, op) && Inv(Apply(kept, op)) && LegalRun(Apply(kept, op), op.now, rest)
    ensures LegalRun(full, clock, [op] + Strip(rest))
    ensures (if op.Refresh? then [RotateSession(kept, op).1] else []) + Outcomes(Apply(kept, op), op.now, rest)
         == Outcomes(full, clock, [op] + Strip(rest))
    ensures Mirrors(Final(full, clock, [op] + Strip(rest)), Final(Apply(kept, op), op.now, rest),
                    LatestCutoff(cutoff, rest))
    decreases |rest|, 1
  {
    hide Mirrors;
    hide Linked;
    hide OneToOne;
    hide OnlyTipsLive;
    hide LegalRun;
    hide Final;
    hide Outcomes;
    hide Apply;
    hide Allowed;
    hide RotateSession;
    hide Strip;
    hide LatestCutoff;
    MirrorStep(full, kept, cutoff, op);
    MirrorRun(Apply(full, op), Apply(kept, op), cutoff, op.now, rest);
    Unroll(full, clock, op, Strip(rest));
  }

  lemma {:induction false} MirrorRunPass(full: Db, kept: Db, cutoff: int, clock: int, pass: Op, rest: seq<Op>)
    requires Inv(full) && Inv(kept) && Mirrors(full, kept, cutoff) && cutoff <= clock - SESSION_RETENTION
    requires clock <= pass.now
    requires pass.Cleanup? && Allowed(kept, pass) && Inv(Apply(kept, pass))
      && LegalRun(Apply(kept, pass), pass.now, rest)
    ensures LegalRun(full, clock, Strip(rest))
    ensures Outcomes(Apply(kept, pass), pass.now, rest) == Outcomes(full, clock, Strip(rest))
    ensures Mirrors(Final(full, clock, Strip(rest)), Final(Apply(kept, pass), pass.now, rest),
                    LatestCutoff(pass.now - SESSION_RETENTION, rest))
    decreases |rest|, 1
  {
    hide Mirrors;
    hide LegalBatch;
    MirrorCleanup(full, kept, cutoff, pass.now, pass.batch);
    MirrorRun(full, Apply(kept, pass), pass.now - SESSION_RETENTION, pass.now, rest);
    EarlierClock(full, clock, pass.now, Strip(rest));
  }

  /** For every run from the empty database: the run without its retention passes is legal and every
      refresh has the same outcome; and a session that has not passed the latest cutoff is there with the same
      row and the same access as without them, as are all its ancestors, which still reach it. */
  lemma RetentionIsInvisible(clock: int, ops: seq<Op>)
    requires LegalRun(EMPTY, clock, ops)
    ensures LegalRun(EMPTY, clock, Strip(ops))
    ensures Outcomes(EMPTY, clock, ops) == Outcomes(EMPTY, clock, Strip(ops))
    ensures var full, kept := Final(EMPTY, clock, Strip(ops)), Final(EMPTY, clock, ops);
      forall id | id in full.rows && full.rows[id].expiresAt >= LatestCutoff(clock - SESSION_RETENTION, ops) ::
        && id in kept.rows && kept.rows[id] == full.rows[id]
        && (forall account :: IsAccessActive(kept, account, id) <==> IsAccessActive(full, account, id))
        && (forall a | a in full.rows && id in Chain(full, a) :: a in kept.rows && id in Chain(kept, a))
  {
    MirrorRun(EMPTY, EMPTY, clock - SESSION_RETENTION, clock, ops);
    var full, kept := Final(EMPTY, clock, Strip(ops)), Final(EMPTY, clock, ops);
    var cutoff := LatestCutoff(clock - SESSION_RETENTION, ops);
    forall id, a | id in full.rows && full.rows[id].expiresAt >= cutoff && a in full.rows && id in Chain(full, a)
      ensures a in kept.rows && id in Chain(kept, a)
    {
      AncestorsSurvive(full, kept, cutoff, a, id);
    }
    forall id | id in full.rows && full.rows[id].expiresAt >= cutoff ensures id in kept.rows {
      AncestorsSurvive(full, kept, cutoff, id, id);
    }
  }

  /** Retention does not weaken this: a lineage that is dead in the unpruned history gives no refresh in the
      pruned database either, even for sessions whose links to it have been pruned away. */
  lemma PrunedLineageStaysDead(full: Db, kept: Db, cutoff: int, clock: int, ops: seq<Op>, dead: set<nat>, op: Op)
    requires Mirrors(full, kept, cutoff) && cutoff <= clock - SESSION_RETENTION && LegalRun(kept, clock, ops)
    requires Dead(full, dead) && op.Refresh? && op.id in dead
    requires LatestCutoff(cutoff, ops) <= op.now && op.nextId !in Final(kept, clock, ops).serial
    ensures !RotateSession(Final(kept, clock, ops), op).1.Rotated?
  {
    MirrorRun(full, kept, cutoff, clock, ops);
    DeadForever(full, clock, Strip(ops), dead);
    MirrorRefresh(Final(full, clock, Strip(ops)), Final(kept, clock, ops), LatestCutoff(cutoff, ops), op);
  }
}
