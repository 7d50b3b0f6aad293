/** The session table and the statements that run on it, with both recursive walks and
    the retention query as loops. */
module SessionRepository {
  import opened Queries
  import opened Sessions
  import opened SessionEffects

  class AuthRepository {
    var rows: map<nat, Session>
    var closed: set<nat>
    var serial: map<nat, nat>
    var issued: nat

    function State(): Db
      reads this
    {
      Db(rows, closed, serial, issued)
    }

    ghost predicate Valid()
      reads this
    {
      Inv(State())
    }

    constructor ()
      ensures Valid() && State() == EMPTY
    {
      rows, closed, serial, issued := map[], {}, map[], 0;
    }

    method CreateSession(account: nat, hash: string, expiresAt: int, id: nat, ghost now: int)
      requires Valid() && id !in serial
      modifies this
      ensures Valid() && State() == Apply(old(State()), Login(now, account, hash, expiresAt, id))
      ensures rows == old(rows)[id := Session(account, hash, expiresAt, None, None)] && closed == old(closed)
    {
      LoginKeeps(State(), id, Session(account, hash, expiresAt, None, None));
      rows := rows[id := Session(account, hash, expiresAt, None, None)];
      serial, issued := serial[id := issued], issued + 1;
    }

    /** `with recursive`: the starting session, then the row each one was replaced by. */
    method Walk(id: nat) returns (walked: set<nat>)
      requires Valid() && id in rows
      ensures walked == Elements(Chain(State(), id))
    {
      walked := {id};
      var at := id;
      while rows[at].next.Some? && rows[at].next.value in rows
        invariant at in rows
        invariant walked + Elements(Chain(State(), at)) == Elements(Chain(State(), id)) && at in walked
        decreases issued - serial[at]
      {
        var next := rows[at].next.value;
        assert Elements(Chain(State(), at)) == {at} + Elements(Chain(State(), next));
        walked := walked + {next};
        at := next;
        assert at in Elements(Chain(State(), at));
      }
      assert Chain(State(), at) == [at];
    }

    method Rotate(op: Op) returns (outcome: Outcome)
      requires Valid() && op.Refresh? && op.nextId !in serial
      modifies this
      ensures Valid() && (State(), outcome) == RotateSession(old(State()), op)
      ensures Refreshes(old(State()), op, State(), outcome)
      ensures outcome != Invalid <==>
        && op.id in old(rows) && old(rows)[op.id].account !in closed
        && old(rows)[op.id].hash == op.hash && op.now < old(rows)[op.id].expiresAt
    {
      hide Refreshes;
      RotationKeeps(State(), op);
      RotationRefreshes(State(), op);
      AdmittedExactly(State(), op);
      if op.id !in rows || rows[op.id].account in closed { return Invalid; }
      var session := rows[op.id];
      if session.hash != op.hash || session.expiresAt <= op.now { return Invalid; }
      if session.revokedAt.Some? {
        var compromised := Walk(op.id);
        rows := Revoke(rows, compromised - {op.id}, op.now);
        return Replay;
      }
      rows := rows[op.nextId := Session(session.account, op.nextHash, op.nextExpiresAt, None, None)];
      serial, issued := serial[op.nextId := issued], issued + 1;
      rows := rows[op.id := session.(revokedAt := Some(op.now), next := Some(op.nextId))];
      return Rotated(session.account, op.nextId);
    }

    method RevokeOne(op: Op) returns (revoked: bool)
      requires Valid() && op.Logout?
      modifies this`rows
      ensures Valid() && (State(), revoked) == RevokeSession(old(State()), op)
      ensures LogsOut(old(State()), op, State(), revoked)
      ensures revoked <==> op.id in old(rows) && old(rows)[op.id].hash == op.hash
    {
      hide LogsOut;
      RevocationLogsOut(State(), op);
      if op.id !in rows || rows[op.id].hash != op.hash { return false; }
      var lineage := Walk(op.id);
      RevokeKeeps(State(), lineage, op.now);
      rows := Revoke(rows, lineage, op.now);
      return true;
    }

    method RevokeAccountSessions(account: nat, now: int)
      requires Valid()
      modifies this`rows
      ensures Valid() && State() == Apply(old(State()), RevokeAccount(now, account))
      ensures EndsAccount(old(State()), account, now, State())
    {
      RevocationEndsAccount(State(), account, now);
      RevokeKeeps(State(), OfAccount(rows, account), now);
      rows := Revoke(rows, OfAccount(rows, account), now);
    }

    /** `union`: from the sessions that have not passed the cutoff, up to every predecessor. */
    method ActiveSessions(cutoff: int) returns (active: set<nat>)
      requires Valid()
      ensures active == ActiveLineage(State(), cutoff)
    {
      hide Climbed;
      hide Parents;
      hide ActiveLineage;
      hide OneToOne;
      hide OnlyTipsLive;
      active := set id | id in rows && rows[id].expiresAt >= cutoff;
      var frontier := active;
      ClimbStart(State(), cutoff, active);
      while frontier != {}
        invariant Climbed(State(), cutoff, active, frontier)
        decreases |rows.Keys - active|, |frontier|
      {
        var parents := Parents(rows, frontier, active);
        ClimbStep(State(), cutoff, active, frontier);
        ClimbShrinks(State(), cutoff, active, frontier);
        active, frontier := active + parents, parents;
      }
      ClimbDone(State(), cutoff, active);
    }

    /** `order by expires_at limit`. */
    method OldestFirst(expired: set<nat>) returns (batch: set<nat>)
      requires expired <= rows.Keys
      ensures batch <= expired && |batch| <= CLEANUP_BATCH
      ensures batch != expired ==> |batch| == CLEANUP_BATCH
      ensures forall a, b | a in batch && b in expired - batch :: rows[a].expiresAt <= rows[b].expiresAt
    {
      batch := {};
      var rest := expired;
      while rest != {} && |batch| < CLEANUP_BATCH
        invariant batch !! rest && batch + rest == expired && |batch| <= CLEANUP_BATCH
        invariant NoneEarlier(rows, batch, rest)
        decreases |rest|
      {
        EarliestExists(rows, rest);
        var oldest :| oldest in rest && forall b | b in rest :: rows[oldest].expiresAt <= rows[b].expiresAt;
        TakeEarliest(rows, batch, rest, oldest);
        hide NoneEarlier;
        batch, rest := batch + {oldest}, rest - {oldest};
      }
      assert expired - batch == rest;
    }

    /** `locked` says whether the advisory lock was obtained. */
    method Cleanup(now: int, locked: bool) returns (ghost batch: set<nat>)
      requires Valid()
      modifies this`rows
      ensures Valid()
      ensures locked ==> LegalBatch(old(State()), now - SESSION_RETENTION, batch)
      ensures locked ==> State() == Apply(old(State()), Op.Cleanup(now, batch))
      ensures locked ==> Prunes(old(rows), rows, now)
      ensures !locked ==> State() == old(State())
    {
      hide ActiveLineage;
      hide LegalBatch;
      hide Linked;
      hide OneToOne;
      hide OnlyTipsLive;
      hide Prunes;
      hide Apply;
      if !locked { return {}; }
      var cutoff := now - SESSION_RETENTION;
      var active := ActiveSessions(cutoff);
      var expired := set id | id in rows && rows[id].expiresAt < cutoff && id !in active;
      var removed := OldestFirst(expired);
      CleansUp(State(), now, expired, removed);
      rows := rows - removed;
      batch := removed;
    }
  }

  ghost predicate NoneEarlier(rows: map<nat, Session>, batch: set<nat>, rest: set<nat>)
    requires batch + rest <= rows.Keys
  {
    forall a, b | a in batch && b in rest :: rows[a].expiresAt <= rows[b].expiresAt
  }

  lemma TakeEarliest(rows: map<nat, Session>, batch: set<nat>, rest: set<nat>, oldest: nat)
    requires batch + rest <= rows.Keys && NoneEarlier(rows, batch, rest) && oldest in rest
    requires forall b | b in rest :: rows[oldest].expiresAt <= rows[b].expiresAt
    ensures NoneEarlier(rows, batch + {oldest}, rest - {oldest})
  {
  }

  /** The oldest of what the query selects are a batch the transaction may take. */
  lemma CleansUp(db: Db, now: int, expired: set<nat>, batch: set<nat>)
    requires Inv(db)
    requires var cutoff := now - SESSION_RETENTION;
      expired == set id | id in db.rows && db.rows[id].expiresAt < cutoff && id !in ActiveLineage(db, cutoff)
    requires batch <= expired && |batch| <= CLEANUP_BATCH && (batch != expired ==> |batch| == CLEANUP_BATCH)
    requires forall a, b | a in batch && b in expired - batch :: db.rows[a].expiresAt <= db.rows[b].expiresAt
    ensures LegalBatch(db, now - SESSION_RETENTION, batch)
    ensures var next := Apply(db, Op.Cleanup(now, batch));
      next == db.(rows := db.rows - batch) && Inv(next) && Prunes(db.rows, next.rows, now)
  {
    hide ActiveLineage;
    hide Prunes;
    assert expired == Expired(db, now - SESSION_RETENTION);
    StepKeeps(db, Op.Cleanup(now, batch));
    CleanupPrunes(db, now, batch);
  }

  /** The walk up from the fresh sessions: everything below the frontier has its predecessors in. */
  ghost predicate Climbed(db: Db, cutoff: int, active: set<nat>, frontier: set<nat>)
    requires Linked(db)
  {
    && frontier <= active <= db.rows.Keys
    && (forall id | id in db.rows && db.rows[id].expiresAt >= cutoff :: id in active)
    && (forall id | id in active :: Reaches(db, id, cutoff))
    && (forall p | p in db.rows && db.rows[p].next.Some? && db.rows[p].next.value in active - frontier :: p in active)
  }

  lemma ClimbStart(db: Db, cutoff: int, active: set<nat>)
    requires Inv(db) && active == set id | id in db.rows && db.rows[id].expiresAt >= cutoff
    ensures Climbed(db, cutoff, active, active)
  {
    forall id | id in active ensures Reaches(db, id, cutoff) {
      assert id in Chain(db, id);
    }
  }

  function Parents(rows: map<nat, Session>, frontier: set<nat>, active: set<nat>): set<nat> {
    set p | p in rows && rows[p].next.Some? && rows[p].next.value in frontier && p !in active
  }

  lemma ClimbStep(db: Db, cutoff: int, active: set<nat>, frontier: set<nat>)
    requires Inv(db) && Climbed(db, cutoff, active, frontier)
    ensures var parents := Parents(db.rows, frontier, active);
      Climbed(db, cutoff, active + parents, parents)
  {
    hide Reaches;
    var parents := Parents(db.rows, frontier, active);
    forall id | id in active + parents ensures Reaches(db, id, cutoff) {
      if id in parents {
        ParentReaches(db, id, cutoff);
      }
    }
    assert (active + parents) - parents == active;
  }

  lemma ClimbShrinks(db: Db, cutoff: int, active: set<nat>, frontier: set<nat>)
    requires Inv(db) && Climbed(db, cutoff, active, frontier) && frontier != {}
    ensures var parents := Parents(db.rows, frontier, active);
      if parents == {} then active + parents == active && |parents| < |frontier|
      else |db.rows.Keys - (active + parents)| < |db.rows.Keys - active|
  {
    hide Reaches;
    var parents := Parents(db.rows, frontier, active);
    if parents == {} {
      Smaller({}, frontier);
    } else {
      var p :| p in parents;
      assert p in db.rows.Keys - active && p !in db.rows.Keys - (active + parents);
      Smaller(db.rows.Keys - (active + parents), db.rows.Keys - active);
    }
  }

  lemma ClimbDone(db: Db, cutoff: int, active: set<nat>)
    requires Inv(db) && Climbed(db, cutoff, active, {})
    ensures active == ActiveLineage(db, cutoff)
  {
    forall id | id in ActiveLineage(db, cutoff) ensures id in active {
      var y :| y in Chain(db, id) && y in db.rows && db.rows[y].expiresAt >= cutoff;
      ClosedUpwards(db, id, y, active);
    }
  }

  lemma ParentReaches(db: Db, p: nat, cutoff: int)
    requires Inv(db) && p in db.rows && db.rows[p].next.Some? && db.rows[p].next.value in db.rows
    requires Reaches(db, db.rows[p].next.value, cutoff)
    ensures Reaches(db, p, cutoff)
  {
    var y :| y in Chain(db, db.rows[p].next.value) && y in db.rows && db.rows[y].expiresAt >= cutoff;
    assert y in Chain(db, p);
  }

  lemma {:induction false} ClosedUpwards(db: Db, id: nat, y: nat, active: set<nat>)
    requires Inv(db) && id in db.rows && y in Chain(db, id) && y in active
    requires forall p | p in db.rows && db.rows[p].next.Some? && db.rows[p].next.value in active :: p in active
    ensures id in active
    decreases db.issued - db.serial[id]
  {
    if id != y {
      ClosedUpwards(db, db.rows[id].next.value, y, active);
    }
  }

  lemma Smaller(a: set<nat>, b: set<nat>)
    requires a < b
    ensures |a| < |b|
  {
    assert b == a + (b - a);
  }

  lemma {:induction false} EarliestExists(rows: map<nat, Session>, ids: set<nat>)
    requires ids != {} && ids <= rows.Keys
    ensures exists e :: e in ids && forall b | b in ids :: rows[e].expiresAt <= rows[b].expiresAt
    decreases |ids|
  {
    var x :| x in ids;
    if ids != {x} {
      EarliestExists(rows, ids - {x});
      var e :| e in ids - {x} && forall b | b in ids - {x} :: rows[e].expiresAt <= rows[b].expiresAt;
      var least := if rows[x].expiresAt <= rows[e].expiresAt then x else e;
      assert forall b | b in ids :: rows[least].expiresAt <= rows[b].expiresAt;
    }
  }
}
