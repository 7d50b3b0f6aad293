/** The outbox table and the statements workers run on it. Times are in microseconds. */
module OutboxTable {
  import opened Queries

  const CLAIM_LEASE: int := 300_000_000
  const CLAIM_BATCH: nat := 20
  const REPORTED_ATTEMPT: nat := 10
  const MAXIMUM_BACKOFF_SECONDS: nat := 3_600

  datatype Event = Event(published: bool, attempts: nat, nextAttemptAt: int, createdAt: int,
                         lockedBy: Option<nat>, lockedUntil: Option<int>)

  type Table = map<nat, Event>

  predicate Unpublished(table: Table, id: nat) {
    id in table && !table[id].published
  }

  predicate Claimable(event: Event, now: int) {
    && !event.published && event.nextAttemptAt <= now
    && (event.lockedUntil.None? || event.lockedUntil.value <= now)
  }

  function AvailableAt(event: Event): int {
    if event.lockedUntil.Some? && event.lockedUntil.value > event.nextAttemptAt
    then event.lockedUntil.value else event.nextAttemptAt
  }

  /** An unpublished event is claimable exactly from its availability on. */
  lemma ClaimableFromAvailability(event: Event, now: int)
    ensures Claimable(event, now) <==> !event.published && AvailableAt(event) <= now
  {
  }

  function Claim(table: Table, ids: set<nat>, worker: nat, now: int): Table {
    map id | id in table ::
      if id in ids then table[id].(lockedBy := Some(worker), lockedUntil := Some(now + CLAIM_LEASE)) else table[id]
  }

  predicate Owns(table: Table, id: nat, worker: nat) {
    Unpublished(table, id) && table[id].lockedBy == Some(worker)
  }

  function Publish(table: Table, id: nat, worker: nat): Table {
    if Owns(table, id, worker)
    then table[id := table[id].(published := true, lockedBy := None, lockedUntil := None)] else table
  }

  function Fail(table: Table, id: nat, worker: nat, attempts: nat, nextAttemptAt: int): Table {
    if Owns(table, id, worker)
    then table[id := table[id].(attempts := attempts, lockedBy := None, lockedUntil := None,
                                nextAttemptAt := nextAttemptAt)]
    else table
  }

  function Power2(n: nat): nat {
    if n == 0 then 1 else 2 * Power2(n - 1)
  }

  function BackoffSeconds(attempts: nat): nat {
    if Power2(attempts) < MAXIMUM_BACKOFF_SECONDS then Power2(attempts) else MAXIMUM_BACKOFF_SECONDS
  }

  function RetryAt(attempts: nat, now: int): int {
    now + BackoffSeconds(attempts) * 1_000_000
  }

  /** The back-off doubles with each failure until it reaches an hour, at the twelfth, and stays there. */
  lemma {:induction false} BackoffDoubles(attempts: nat)
    ensures BackoffSeconds(1) == 2 && BackoffSeconds(attempts) <= 3_600
    ensures BackoffSeconds(attempts + 1) ==
            if attempts < 11 then 2 * BackoffSeconds(attempts) else 3_600
    ensures Power2(attempts) >= 1 && (attempts >= 12 ==> Power2(attempts) >= 4_096)
    ensures attempts <= 11 ==> Power2(attempts) <= 2_048
  {
    if attempts > 0 {
      BackoffDoubles(attempts - 1);
    }
    if attempts == 12 {
      assert Power2(11) == 2 * Power2(10) && Power2(10) == 2 * Power2(9) && Power2(9) == 2 * Power2(8);
      assert Power2(8) == 2 * Power2(7) && Power2(7) == 2 * Power2(6) && Power2(6) == 2 * Power2(5);
      assert Power2(5) == 2 * Power2(4) && Power2(4) == 16;
    }
    if attempts == 11 {
      assert Power2(11) == 2 * Power2(10);
    }
  }

  // ----- what a statement changes -----

  ghost predicate OnlyRow(before: Table, id: nat, row: Event, after: Table) {
    id in before && after == before[id := row]
  }

  /** The worker holds the lock of a row that is not published. */
  predicate HoldsRow(table: Table, id: nat, worker: nat) {
    id in table && !table[id].published && table[id].lockedBy == Some(worker)
  }

  /** The rows are locked for five minutes; the others stay. */
  ghost predicate LocksRows(before: Table, ids: set<nat>, worker: nat, now: int, after: Table) {
    && after.Keys == before.Keys
    && (forall id | id in before && id in ids ::
          after[id] == before[id].(lockedBy := Some(worker), lockedUntil := Some(now + 300_000_000)))
    && (forall id | id in before && id !in ids :: after[id] == before[id])
  }

  ghost predicate PublishesRow(before: Table, id: nat, worker: nat, after: Table) {
    if HoldsRow(before, id, worker)
    then OnlyRow(before, id, Event(true, before[id].attempts, before[id].nextAttemptAt, before[id].createdAt,
                                   None, None), after)
    else after == before
  }

  /** The row is free again, with its failures counted and its next attempt put off by the back-off. */
  ghost predicate PutsOff(before: Table, id: nat, worker: nat, attempts: nat, now: int, after: Table) {
    if HoldsRow(before, id, worker)
    then OnlyRow(before, id, Event(false, attempts, now + BackoffSeconds(attempts) * 1_000_000, before[id].createdAt,
                                   None, None), after)
    else after == before
  }

  lemma ClaimLocksRows(table: Table, ids: set<nat>, worker: nat, now: int)
    ensures LocksRows(table, ids, worker, now, Claim(table, ids, worker, now))
  {
  }

  lemma PublishPublishesRow(table: Table, id: nat, worker: nat)
    ensures PublishesRow(table, id, worker, Publish(table, id, worker))
  {
  }

  lemma FailPutsOff(table: Table, id: nat, worker: nat, attempts: nat, now: int)
    ensures PutsOff(table, id, worker, attempts, now, Fail(table, id, worker, attempts, RetryAt(attempts, now)))
  {
  }

  /** A row can be claimed exactly if it is not published, its time has come and no lease runs. */
  predicate IsFree(event: Event, now: int) {
    !event.published && event.nextAttemptAt <= now && !(event.lockedUntil.Some? && now < event.lockedUntil.value)
  }

  /** So what a claim or a failure leaves can be claimed from the end of the lease or the back-off on, not earlier. */
  lemma FreeAgainExactly(table: Table, id: nat, worker: nat, attempts: nat, now: int, later: int)
    requires id in table && now <= later
    ensures !table[id].published && table[id].nextAttemptAt <= now ==>
      (Claimable(Claim(table, {id}, worker, now)[id], later) <==> now + 300_000_000 <= later)
    ensures HoldsRow(table, id, worker) ==>
      (Claimable(Fail(table, id, worker, attempts, RetryAt(attempts, now))[id], later) <==>
        now + BackoffSeconds(attempts) * 1_000_000 <= later)
    ensures HoldsRow(table, id, worker) ==> !Claimable(Publish(table, id, worker)[id], later)
    ensures Claimable(table[id], now) <==> IsFree(table[id], now)
  {
  }
}
