/** Refresh sessions as rows linked through their successor, and every operation on them as
    one transaction: login, refresh, logout, account revocation and closing, and retention. */
module Sessions {
  import opened Queries

  const SESSION_RETENTION: int := 35 * 86_400_000
  const CLEANUP_BATCH: nat := 500

  datatype Session = Session(account: nat, hash: string, expiresAt: int, revokedAt: Option<int>, next: Option<nat>)

  /** `serial` remembers every id ever issued, in order of issue; fresh ids are outside it. */
  datatype Db = Db(rows: map<nat, Session>, closed: set<nat>, serial: map<nat, nat>, issued: nat)

  const EMPTY := Db(map[], {}, map[], 0)

  datatype Outcome = Invalid | Replay | Rotated(account: nat, session: nat)

  datatype Op =
    | Login(now: int, account: nat, hash: string, expiresAt: int, id: nat)
    | Refresh(now: int, id: nat, hash: string, nextHash: string, nextExpiresAt: int, nextId: nat)
    | Logout(now: int, id: nat, hash: string)
    | RevokeAccount(now: int, account: nat)
    | CloseAccount(now: int, account: nat)
    | Cleanup(now: int, batch: set<nat>)

  // ----- links -----

  ghost predicate Linked(db: Db) {
    && db.rows.Keys <= db.serial.Keys
    && (forall id | id in db.serial :: db.serial[id] < db.issued)
    && (forall id | id in db.rows && db.rows[id].next.Some? ::
          db.rows[id].next.value in db.serial && db.serial[id] < db.serial[db.rows[id].next.value])
  }

  ghost predicate OneToOne(db: Db) {
    forall a, b | a in db.rows && b in db.rows && db.rows[a].next.Some? && db.rows[a].next == db.rows[b].next :: a == b
  }

  ghost predicate OnlyTipsLive(db: Db) {
    forall id | id in db.rows && db.rows[id].next.Some? :: db.rows[id].revokedAt.Some?
  }

  ghost predicate Inv(db: Db) {
    Linked(db) && OneToOne(db) && OnlyTipsLive(db)
  }

  /** The session and its successors: what both recursive walks compute. They end because
      every successor was issued later. */
  ghost function Chain(db: Db, id: nat): seq<nat>
    requires Linked(db) && id in db.rows
    decreases db.issued - db.serial[id]
  {
    var next := db.rows[id].next;
    [id] + if next.Some? && next.value in db.rows then Chain(db, next.value) else []
  }

  function Coalesce(at: Option<int>, now: int): Option<int> {
    if at.Some? then at else Some(now)
  }

  function Revoke(rows: map<nat, Session>, ids: set<nat>, now: int): map<nat, Session> {
    map id | id in rows :: if id in ids then rows[id].(revokedAt := Coalesce(rows[id].revokedAt, now)) else rows[id]
  }

  function Elements<T>(s: seq<T>): set<T> {
    set x | x in s
  }

  // ----- transactions -----

  function Inserted(db: Db, id: nat, session: Session): Db {
    Db(db.rows[id := session], db.closed, db.serial[id := db.issued], db.issued + 1)
  }

  ghost function RotateSession(db: Db, op: Op): (Db, Outcome)
    requires Linked(db) && op.Refresh?
  {
    if op.id !in db.rows || db.rows[op.id].account in db.closed then (db, Invalid)
    else
      var session := db.rows[op.id];
      if session.hash != op.hash || session.expiresAt <= op.now then (db, Invalid)
      else if session.revokedAt.Some? then
        (db.(rows := Revoke(db.rows, Elements(Chain(db, op.id)) - {op.id}, op.now)), Replay)
      else
        var added := Inserted(db, op.nextId, Session(session.account, op.nextHash, op.nextExpiresAt, None, None));
        (added.(rows := added.rows[op.id := session.(revokedAt := Some(op.now), next := Some(op.nextId))]),
         Rotated(session.account, op.nextId))
  }

  ghost function RevokeSession(db: Db, op: Op): (Db, bool)
    requires Linked(db) && op.Logout?
  {
    if op.id !in db.rows || db.rows[op.id].hash != op.hash then (db, false)
    else (db.(rows := Revoke(db.rows, Elements(Chain(db, op.id)), op.now)), true)
  }

  function OfAccount(rows: map<nat, Session>, account: nat): set<nat> {
    set id | id in rows && rows[id].account == account
  }

  predicate IsAccessActive(db: Db, account: nat, id: nat) {
    && id in db.rows && db.rows[id].account == account && db.rows[id].revokedAt.None?
    && account !in db.closed
  }

  // ----- retention -----

  /** Sessions from which one that has not passed the cutoff can be reached. */
  ghost function ActiveLineage(db: Db, cutoff: int): set<nat>
    requires Linked(db)
  {
    set id | id in db.rows && Reaches(db, id, cutoff)
  }

  ghost predicate Reaches(db: Db, id: nat, cutoff: int)
    requires Linked(db) && id in db.rows
  {
    exists y :: y in Chain(db, id) && y in db.rows && db.rows[y].expiresAt >= cutoff
  }

  ghost function Expired(db: Db, cutoff: int): set<nat>
    requires Linked(db)
  {
    set id | id in db.rows && db.rows[id].expiresAt < cutoff && id !in ActiveLineage(db, cutoff)
  }

  /** A batch the bounded delete may take: oldest expiry first, at most the batch size. */
  ghost predicate LegalBatch(db: Db, cutoff: int, batch: set<nat>)
    requires Linked(db)
  {
    && batch <= Expired(db, cutoff)
    && |batch| <= CLEANUP_BATCH
    && (batch != Expired(db, cutoff) ==> |batch| == CLEANUP_BATCH)
    && (forall a, b | a in batch && b in Expired(db, cutoff) - batch :: db.rows[a].expiresAt <= db.rows[b].expiresAt)
  }

  // ----- runs -----

  ghost function Apply(db: Db, op: Op): Db
    requires Linked(db)
  {
    match op
    case Login(now, account, hash, expiresAt, id) => Inserted(db, id, Session(account, hash, expiresAt, None, None))
    case Refresh(_, _, _, _, _, _) => RotateSession(db, op).0
    case Logout(_, _, _) => RevokeSession(db, op).0
    case RevokeAccount(now, account) => db.(rows := Revoke(db.rows, OfAccount(db.rows, account), now))
    case CloseAccount(_, account) => db.(closed := db.closed + {account})
    case Cleanup(_, batch) => db.(rows := db.rows - batch)
  }

  /** New ids are fresh, and a cleanup takes a batch that its query may return. */
  ghost predicate Allowed(db: Db, op: Op)
    requires Linked(db)
  {
    match op
    case Login(_, _, _, _, id) => id !in db.serial
    case Refresh(_, _, _, _, _, nextId) => nextId !in db.serial
    case Cleanup(now, batch) => LegalBatch(db, now - SESSION_RETENTION, batch)
    case _ => true
  }

  // ----- chains -----

  lemma {:induction false} ChainMembers(db: Db, id: nat)
    requires Linked(db) && id in db.rows
    ensures forall y | y in Chain(db, id) :: y in db.rows && (y == id || db.serial[id] < db.serial[y])
    decreases db.issued - db.serial[id]
  {
    var next := db.rows[id].next;
    if next.Some? && next.value in db.rows {
      ChainMembers(db, next.value);
    }
  }

  /** Successor links are acyclic: a chain never meets the same session twice. */
  lemma {:induction false} ChainAcyclic(db: Db, id: nat)
    requires Linked(db) && id in db.rows
    ensures forall i, j | 0 <= i < j < |Chain(db, id)| :: Chain(db, id)[i] != Chain(db, id)[j]
    decreases db.issued - db.serial[id]
  {
    var next := db.rows[id].next;
    if next.Some? && next.value in db.rows {
      ChainAcyclic(db, next.value);
      ChainMembers(db, next.value);
      var rest := Chain(db, next.value);
      assert forall k | 0 <= k < |rest| :: rest[k] in rest;
    }
  }

  lemma {:induction false} ChainTransitive(db: Db, a: nat, b: nat, c: nat)
    requires Linked(db) && a in db.rows && b in db.rows && b in Chain(db, a) && c in Chain(db, b)
    ensures c in Chain(db, a)
    decreases db.issued - db.serial[a]
  {
    if a != b {
      ChainTransitive(db, db.rows[a].next.value, b, c);
    }
  }

  /** Every session of a chain but its last has a successor. */
  lemma {:induction false} InnerHasSuccessor(db: Db, a: nat, b: nat)
    requires Linked(db) && a in db.rows && b in db.rows && b in Chain(db, a) && a != b
    ensures db.rows[a].next.Some?
  {
  }

  /** Two sessions are of one lineage when one is reached from the other. */
  ghost predicate SameLineage(db: Db, a: nat, b: nat)
    requires Linked(db) && a in db.rows && b in db.rows
  {
    b in Chain(db, a) || a in Chain(db, b)
  }

  /** Each lineage has at most one unrevoked session, and it is the tip. */
  lemma OneLivePerLineage(db: Db, a: nat, b: nat)
    requires Inv(db) && a in db.rows && b in db.rows && SameLineage(db, a, b)
    requires db.rows[a].revokedAt.None? && db.rows[b].revokedAt.None?
    ensures a == b && db.rows[a].next.None? && Chain(db, a) == [a]
  {
    if a != b {
      if b in Chain(db, a) {
        InnerHasSuccessor(db, a, b);
      } else {
        InnerHasSuccessor(db, b, a);
      }
    }
  }

  /** Since links are one-to-one, two sessions that reach a common one are of one lineage. */
  lemma {:induction false} LineagesAreLines(db: Db, a: nat, b: nat, c: nat)
    requires Inv(db) && a in db.rows && b in db.rows
    requires c in Chain(db, a) && c in Chain(db, b)
    ensures SameLineage(db, a, b)
    decreases db.issued - db.serial[a] + db.issued - db.serial[b]
  {
    if c == a || c == b {
    } else {
      var na, nb := db.rows[a].next.value, db.rows[b].next.value;
      LineagesAreLines(db, na, nb, c);
      if na == nb {
      } else if nb in Chain(db, na) {
        PredecessorInChain(db, na, b, nb);
        ChainTransitive(db, a, na, b);
      } else {
        PredecessorInChain(db, nb, a, na);
        ChainTransitive(db, b, nb, a);
      }
    }
  }

  lemma {:induction false} PredecessorInChain(db: Db, from: nat, p: nat, n: nat)
    requires Inv(db) && from in db.rows && p in db.rows && n in db.rows
    requires n in Chain(db, from) && n != from && db.rows[p].next == Some(n)
    ensures p in Chain(db, from)
    decreases db.issued - db.serial[from]
  {
    var next := db.rows[from].next.value;
    if next == n {
      assert p == from;
    } else {
      PredecessorInChain(db, next, p, n);
    }
  }

  // ----- every operation keeps the links -----

  lemma RevokeKeeps(db: Db, ids: set<nat>, now: int)
    requires Inv(db)
    ensures Inv(db.(rows := Revoke(db.rows, ids, now)))
  {
  }

  lemma LoginKeeps(db: Db, id: nat, session: Session)
    requires Inv(db) && id !in db.serial && session.next.None?
    ensures Inv(Inserted(db, id, session))
  {
  }

  lemma RotationKeeps(db: Db, op: Op)
    requires Inv(db) && op.Refresh? && op.nextId !in db.serial
    ensures Inv(RotateSession(db, op).0)
  {
    if RotateSession(db, op).1 == Replay {
      RevokeKeeps(db, Elements(Chain(db, op.id)) - {op.id}, op.now);
    } else if RotateSession(db, op).1.Rotated? {
      var next := RotateSession(db, op).0;
      assert op.nextId !in db.rows;
      assert Linked(next);
      forall a, b | a in next.rows && b in next.rows && next.rows[a].next.Some?
        && next.rows[a].next == next.rows[b].next
        ensures a == b
      {
        if a != op.id && b != op.id {
          assert a in db.rows && b in db.rows;
        }
      }
    }
  }

  lemma StepKeeps(db: Db, op: Op)
    requires Inv(db) && Allowed(db, op)
    ensures Inv(Apply(db, op))
  {
    match op
    case Login(_, account, hash, expiresAt, id) => LoginKeeps(db, id, Session(account, hash, expiresAt, None, None));
    case Refresh(_, _, _, _, _, _) => RotationKeeps(db, op);
    case Logout(now, id, hash) =>
      if id in db.rows {
        RevokeKeeps(db, Elements(Chain(db, id)), now);
      }
    case RevokeAccount(now, account) => RevokeKeeps(db, OfAccount(db.rows, account), now);
    case CloseAccount(_, _) =>
    case Cleanup(_, _) =>
  }
}
