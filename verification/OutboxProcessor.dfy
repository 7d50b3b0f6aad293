/** One worker's statements on the outbox: the ordered claim, the guarded settlements and the
    delay until the next event can be claimed. */
module OutboxProcessor {
  import opened Queries
  import opened OutboxTable

  datatype Record = Record(id: nat, attempts: nat)

  /** `order by nextAttemptAt, createdAt, id` */
  predicate Before(table: Table, a: nat, b: nat)
    requires a in table && b in table
  {
    var x, y := table[a], table[b];
    || x.nextAttemptAt < y.nextAttemptAt
    || (x.nextAttemptAt == y.nextAttemptAt && x.createdAt < y.createdAt)
    || (x.nextAttemptAt == y.nextAttemptAt && x.createdAt == y.createdAt && a < b)
  }

  lemma BeforeIsAnOrder(table: Table, a: nat, b: nat, c: nat)
    requires a in table && b in table && c in table
    ensures a == b || Before(table, a, b) || Before(table, b, a)
    ensures Before(table, a, b) && Before(table, b, c) ==> Before(table, a, c)
  {
  }

  lemma {:induction false} FirstExists(table: Table, ids: set<nat>)
    requires ids != {} && ids <= table.Keys
    ensures exists first :: first in ids && forall id | id in ids && id != first :: Before(table, first, id)
    decreases |ids|
  {
    var x :| x in ids;
    if ids != {x} {
      FirstExists(table, ids - {x});
      var f :| f in ids - {x} && forall id | id in ids - {x} && id != f :: Before(table, f, id);
      var first := if Before(table, x, f) then x else f;
      forall id | id in ids && id != first ensures Before(table, first, id) {
        BeforeIsAnOrder(table, x, f, id);
      }
    }
  }

  function CeilingMilliseconds(microseconds: int): int {
    -(-microseconds / 1_000)
  }

  /** `delay` milliseconds is what the query for the earliest availability answers at `now`. */
  ghost predicate IsWakeDelay(table: Table, now: int, maximum: nat, delay: int) {
    if forall id | id in table :: table[id].published then delay == maximum
    else exists id | Unpublished(table, id) ::
      && (forall other | Unpublished(table, other) :: AvailableAt(table[id]) <= AvailableAt(table[other]))
      && delay == Clamp(CeilingMilliseconds(AvailableAt(table[id]) - now), maximum)
  }

  function Clamp(delay: int, maximum: nat): nat {
    if delay < 0 then 0 else if delay > maximum then maximum else delay
  }

  /** A sleep of the answered length oversleeps no event by more than the rounding of one millisecond. */
  lemma DelayWakesInTime(table: Table, now: int, maximum: nat, delay: int)
    requires IsWakeDelay(table, now, maximum, delay)
    ensures 0 <= delay <= maximum
    ensures delay > 0 ==> forall id | Unpublished(table, id) :: AvailableAt(table[id]) > now + (delay - 1) * 1_000
    ensures delay < maximum ==> exists id :: Unpublished(table, id) && AvailableAt(table[id]) <= now + delay * 1_000
  {
  }

  function Claimed(events: seq<Record>): set<nat> {
    set e | e in events :: e.id
  }

  /** The first claimable rows in order that nobody has locked, up to the batch size, as read. */
  ghost predicate Selection(table: Table, now: int, locked: set<nat>, events: seq<Record>) {
    && |events| <= CLAIM_BATCH
    && (forall e | e in events ::
          e.id in table && e.id !in locked && Claimable(table[e.id], now) && e.attempts == table[e.id].attempts)
    && (forall i, j | 0 <= i < j < |events| && events[i].id in table && events[j].id in table ::
          Before(table, events[i].id, events[j].id))
    && (forall id | id in table && id !in locked && Claimable(table[id], now) && id !in Claimed(events) ::
          |events| == CLAIM_BATCH && forall e | e in events && e.id in table :: Before(table, e.id, id))
  }

  ghost predicate Selected(table: Table, events: seq<Record>, claimable: set<nat>, rest: set<nat>) {
    && claimable <= table.Keys
    && (forall e | e in events :: e.id in claimable - rest && e.attempts == table[e.id].attempts)
    && claimable - rest <= Claimed(events)
    && (forall e, id | e in events && id in rest && id in table :: Before(table, e.id, id))
    && (forall i, j | 0 <= i < j < |events| :: events[i].id in table && events[j].id in table
                                            && Before(table, events[i].id, events[j].id))
  }

  lemma SelectNext(table: Table, events: seq<Record>, claimable: set<nat>, rest: set<nat>, first: nat)
    requires Selected(table, events, claimable, rest) && first in rest && rest <= claimable
    requires forall id | id in rest && id != first :: Before(table, first, id)
    ensures Selected(table, events + [Record(first, table[first].attempts)], claimable, rest - {first})
  {
    var record := Record(first, table[first].attempts);
    assert Claimed(events + [record]) == Claimed(events) + {first} by {
      assert record in events + [record];
      assert forall e | e in events :: e in events + [record];
    }
    assert forall i | 0 <= i < |events| :: events[i] in events;
  }

  class Processor {
    const workerId: nat
    var table: Table

    constructor (workerId: nat, table: Table)
      ensures this.workerId == workerId && this.table == table
    {
      this.workerId, this.table := workerId, table;
    }

    /** `locked` are the rows other transactions hold at the moment. */
    method SelectClaimable(now: int, locked: set<nat>) returns (events: seq<Record>)
      ensures Selection(table, now, locked, events)
      ensures |events| <= 20 && forall e | e in events :: e.id in table && e.id !in locked && IsFree(table[e.id], now)
      ensures |events| < 20 ==>
        forall id | id in table && id !in locked && IsFree(table[id], now) :: id in Claimed(events)
    {
      events := [];
      var rest := set id | id in table && id !in locked && Claimable(table[id], now);
      ghost var claimable := rest;
      while rest != {} && |events| < CLAIM_BATCH
        invariant |events| <= CLAIM_BATCH
        invariant rest <= claimable
        invariant Selected(table, events, claimable, rest)
        decreases |rest|
      {
        FirstExists(table, rest);
        var first :| first in rest && forall id | id in rest && id != first :: Before(table, first, id);
        SelectNext(table, events, claimable, rest, first);
        events, rest := events + [Record(first, table[first].attempts)], rest - {first};
      }
    }

    method ClaimEvents(now: int, locked: set<nat>) returns (events: seq<Record>)
      modifies this`table
      ensures Selection(old(table), now, locked, events)
      ensures table == Claim(old(table), Claimed(events), workerId, now)
      ensures LocksRows(old(table), Claimed(events), workerId, now, table)
    {
      events := SelectClaimable(now, locked);
      table := Claim(table, Claimed(events), workerId, now);
    }

    method PersistSuccess(event: Record)
      modifies this`table
      ensures table == Publish(old(table), event.id, workerId)
      ensures PublishesRow(old(table), event.id, workerId, table)
    {
      if event.id in table && table[event.id].lockedBy == Some(workerId) && !table[event.id].published {
        table := table[event.id := table[event.id].(published := true, lockedBy := None, lockedUntil := None)];
      }
    }

    /** Whether the tenth failure was persisted just now, so that it is reported. */
    method PersistFailure(event: Record, now: int) returns (report: bool)
      modifies this`table
      ensures table == Fail(old(table), event.id, workerId, event.attempts + 1, RetryAt(event.attempts + 1, now))
      ensures PutsOff(old(table), event.id, workerId, event.attempts + 1, now, table)
      ensures report <==> HoldsRow(old(table), event.id, workerId) && event.attempts == 9
    {
      var attempts := event.attempts + 1;
      report := false;
      if event.id in table && table[event.id].lockedBy == Some(workerId) && !table[event.id].published {
        table := table[event.id := table[event.id].(attempts := attempts, lockedBy := None, lockedUntil := None,
                                                    nextAttemptAt := RetryAt(attempts, now))];
        report := table[event.id].attempts == REPORTED_ATTEMPT;
      }
    }

    method NextWakeDelay(now: int, maximum: nat) returns (delay: int)
      ensures IsWakeDelay(table, now, maximum, delay)
    {
      var rest := set id | id in table && !table[id].published;
      if rest == {} {
        assert forall id | id in table :: table[id].published by {
          forall id | id in table ensures table[id].published {
            assert table[id].published || id in rest;
          }
        }
        return maximum;
      }
      var earliest :| earliest in rest;
      ghost var all := rest;
      while rest != {}
        invariant rest <= all && earliest in all
        invariant forall other | other in all - rest :: AvailableAt(table[earliest]) <= AvailableAt(table[other])
        decreases |rest|
      {
        var id :| id in rest;
        if AvailableAt(table[id]) < AvailableAt(table[earliest]) {
          earliest := id;
        }
        rest := rest - {id};
      }
      assert Unpublished(table, earliest);
      assert forall other | Unpublished(table, other) :: other in all - rest;
      delay := Clamp(CeilingMilliseconds(AvailableAt(table[earliest]) - now), maximum);
    }
  }
}
