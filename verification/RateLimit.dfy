/** The rate limiter's table: a fixed window with a block per key, and the cleanup pass another
    module runs over it. One clock serves both; times are in milliseconds. */
module RateLimit {
  import opened Queries

  type Key = string

  const CLEANUP_BATCH: nat := 500

  datatype Row = Row(hits: nat, windowExpiresAt: int, blockedUntil: Option<int>)

  datatype Policy = Policy(ttl: int, limit: int, blockDuration: int) {
    function Block(): int {
      if blockDuration == 0 then ttl else blockDuration
    }

    /** A window has a length, and so has a block: its own or, with none given, the window's. */
    predicate Sound() {
      ttl > 0 && blockDuration >= 0
    }
  }

  datatype Report = Report(hits: nat, timeToExpire: int, isBlocked: bool, timeToBlockExpire: int)

  predicate BlockLive(row: Row, now: int) {
    row.blockedUntil.Some? && now < row.blockedUntil.value
  }

  predicate WindowLive(row: Row, now: int) {
    now < row.windowExpiresAt
  }

  /** The row one increment leaves behind; `None` stands for a key without a row. */
  function Incremented(row: Option<Row>, policy: Policy, now: int): Row {
    match row
    case None =>
      Row(1, now + policy.ttl, if 1 > policy.limit then Some(now + policy.Block()) else None)
    case Some(current) =>
      var hits := if WindowLive(current, now) then current.hits + 1 else 1;
      Row(hits,
          if WindowLive(current, now) then current.windowExpiresAt else now + policy.ttl,
          if BlockLive(current, now) then current.blockedUntil
          else if hits > policy.limit then Some(now + policy.Block())
          else None)
  }

  function AtLeastZero(n: int): int {
    if n < 0 then 0 else n
  }

  function ReportOf(row: Row, now: int): Report {
    var block := if row.blockedUntil.Some? then AtLeastZero(row.blockedUntil.value - now) else 0;
    Report(row.hits, AtLeastZero(row.windowExpiresAt - now), block > 0, block)
  }

  /** A row the cleanup may take: its window and its block are over. */
  predicate Expired(row: Row, now: int) {
    !WindowLive(row, now) && !BlockLive(row, now)
  }

  /** Neither its window nor a block lasts beyond this time. */
  predicate IsOver(row: Row, now: int) {
    row.windowExpiresAt <= now && (row.blockedUntil.Some? ==> row.blockedUntil.value <= now)
  }

  /** Such a row, and no other, counts for nothing: what follows is as if it had never been there. */
  lemma OverIsNothingExactly(row: Row, now: int)
    ensures Expired(row, now) <==> IsOver(row, now)
    ensures row.hits > 0 ==>
      (IsOver(row, now) <==>
        forall policy: Policy | policy.Sound() && policy.limit >= 1 ::
          Incremented(Some(row), policy, now) == Incremented(None, policy, now))
  {
    if row.hits > 0 && !IsOver(row, now) {
      var policy := Policy(1, 1, 1);
      assert Incremented(Some(row), policy, now) != Incremented(None, policy, now);
    }
  }

  function Lookup(rows: map<Key, Row>, key: Key): Option<Row> {
    if key in rows then Some(rows[key]) else None
  }

  // ----- runs -----

  datatype Event =
    | Hit(now: int, key: Key, policy: Policy)
    | Clean(now: int, keys: set<Key>)

  predicate LegalBatch(rows: map<Key, Row>, now: int, keys: set<Key>) {
    |keys| <= CLEANUP_BATCH && forall k | k in keys :: k in rows && Expired(rows[k], now)
  }

  predicate Allowed(rows: map<Key, Row>, e: Event) {
    match e
    case Hit(now, key, policy) => policy.Sound()
    case Clean(now, keys) => LegalBatch(rows, now, keys)
  }

  function Apply(rows: map<Key, Row>, e: Event): map<Key, Row> {
    match e
    case Hit(now, key, policy) => rows[key := Incremented(Lookup(rows, key), policy, now)]
    case Clean(now, keys) => rows - keys
  }

  predicate Legal(rows: map<Key, Row>, clock: int, events: seq<Event>)
    decreases |events|
  {
    events == [] ||
    (clock <= events[0].now && Allowed(rows, events[0]) && Legal(Apply(rows, events[0]), events[0].now, events[1..]))
  }

  /** What the callers of `increment` are told, in order. */
  function Reports(rows: map<Key, Row>, events: seq<Event>): seq<Report>
    decreases |events|
  {
    if events == [] then []
    else
      var next := Apply(rows, events[0]);
      var rest := Reports(next, events[1..]);
      if events[0].Hit? then [ReportOf(next[events[0].key], events[0].now)] + rest else rest
  }

  function HitsOnly(events: seq<Event>): seq<Event> {
    if events == [] then []
    else if events[0].Hit? then [events[0]] + HitsOnly(events[1..]) else HitsOnly(events[1..])
  }

  /** Every hit is reported, once. */
  lemma {:induction false} EachHitIsReported(rows: map<Key, Row>, events: seq<Event>)
    ensures |Reports(rows, events)| == |HitsOnly(events)|
    ensures events != [] && events[0].Hit? ==>
      var row := Apply(rows, events[0])[events[0].key];
      Reports(rows, events) == [ReportOf(row, events[0].now)] + Reports(Apply(rows, events[0]), events[1..])
    decreases |events|
  {
    if events != [] {
      EachHitIsReported(Apply(rows, events[0]), events[1..]);
    }
  }

  // ----- what one increment says -----

  /** A hit passes exactly when no earlier block holds and the window has room for it. */
  lemma AdmittedExactly(row: Option<Row>, policy: Policy, now: int)
    requires policy.Sound()
    ensures var after := Incremented(row, policy, now);
            !ReportOf(after, now).isBlocked <==>
              !(row.Some? && BlockLive(row.value, now)) && after.hits <= policy.limit
  {
  }

  /** The report tells the hits of the window and for how long further ones are counted to it: until then each
      adds one, and from then on a new window starts with one. */
  lemma ReportTellsTheWindow(row: Option<Row>, policy: Policy, now: int, next: Policy, later: int)
    requires policy.Sound() && now <= later
    ensures var after := Incremented(row, policy, now);
      var report := ReportOf(after, now);
      && (row.None? || row.value.windowExpiresAt <= now ==> report.hits == 1 && report.timeToExpire == policy.ttl)
      && (row.Some? && now < row.value.windowExpiresAt ==>
            report.hits == row.value.hits + 1 && now + report.timeToExpire == row.value.windowExpiresAt)
      && ReportOf(Incremented(Some(after), next, later), later).hits ==
           if later < now + report.timeToExpire then report.hits + 1 else 1
  {
  }

  /** It tells whether the key is blocked and for how long: a hit before that is over leaves the end of the block
      where it is, and a later one is blocked only by exceeding its own limit, for the policy's whole block. */
  lemma ReportTellsTheBlock(row: Row, now: int, policy: Policy, later: int)
    requires policy.Sound() && now <= later
    ensures var report := ReportOf(row, now);
      var next := ReportOf(Incremented(Some(row), policy, later), later);
      && (report.isBlocked <==> report.timeToBlockExpire > 0)
      && (later < now + report.timeToBlockExpire ==>
            next.isBlocked && later + next.timeToBlockExpire == now + report.timeToBlockExpire)
      && (now + report.timeToBlockExpire <= later ==>
            (next.isBlocked <==> next.hits > policy.limit)
            && (next.isBlocked ==>
                  next.timeToBlockExpire == if policy.blockDuration == 0 then policy.ttl else policy.blockDuration))
  {
  }

  // ----- the cleanup is invisible -----

  /** The table with cleanups against the table without: only expired rows are missing. */
  ghost predicate Pruned(kept: map<Key, Row>, all: map<Key, Row>, clock: int) {
    && (forall k | k in kept :: k in all && all[k] == kept[k])
    && (forall k | k in all && k !in kept :: Expired(all[k], clock))
  }

  lemma SameIncrement(row: Row, policy: Policy, now: int)
    requires Expired(row, now)
    ensures Incremented(Some(row), policy, now) == Incremented(None, policy, now)
  {
  }

  lemma {:induction false} PrunedReports(kept: map<Key, Row>, all: map<Key, Row>, clock: int, events: seq<Event>)
    requires Pruned(kept, all, clock) && Legal(kept, clock, events)
    ensures Reports(kept, events) == Reports(all, HitsOnly(events))
    decreases |events|
  {
    if events != [] {
      var e := events[0];
      if e.Hit? {
        if e.key in all && e.key !in kept {
          SameIncrement(all[e.key], e.policy, e.now);
        }
        PrunedReports(Apply(kept, e), Apply(all, e), e.now, events[1..]);
        assert HitsOnly(events)[1..] == HitsOnly(events[1..]);
      } else {
        PrunedReports(Apply(kept, e), all, e.now, events[1..]);
      }
    }
  }

  /** Cleanup passes anywhere in a run on any number of keys change nothing an increment reports:
      not the hits, not the block flag, not the times that are left. */
  lemma CleanupIsInvisible(clock: int, events: seq<Event>)
    requires Legal(map[], clock, events)
    ensures Reports(map[], events) == Reports(map[], HitsOnly(events))
  {
    PrunedReports(map[], map[], clock, events);
  }

  // ----- how many hits pass -----

  /** The hits on a key that were let through at a time in [from, until). */
  function Admitted(rows: map<Key, Row>, events: seq<Event>, key: Key, from: int, until: int): nat
    decreases |events|
  {
    if events == [] then 0
    else
      var next := Apply(rows, events[0]);
      Admitted(next, events[1..], key, from, until) +
      if events[0].Hit? && events[0].key == key && from <= events[0].now < until
         && !ReportOf(next[key], events[0].now).isBlocked
      then 1 else 0
  }

  /** Every hit on the key comes with the same limit and window. */
  ghost predicate Uniform(events: seq<Event>, key: Key, ttl: int, limit: int) {
    forall i | 0 <= i < |events| && events[i].Hit? && events[i].key == key ::
      events[i].policy.ttl == ttl && events[i].policy.limit == limit
  }

  predicate Open(rows: map<Key, Row>, key: Key, clock: int) {
    key in rows && WindowLive(rows[key], clock)
  }

  /** How much an open window still admits, and what a further one adds. */
  function Budget(rows: map<Key, Row>, key: Key, clock: int, until: int, limit: int): int {
    if !Open(rows, key, clock) then AtLeastZero(limit)
    else AtLeastZero(limit - rows[key].hits) + if until <= rows[key].windowExpiresAt then 0 else AtLeastZero(limit)
  }

  predicate Within(rows: map<Key, Row>, key: Key, clock: int, until: int, ttl: int) {
    if Open(rows, key, clock) then until <= rows[key].windowExpiresAt + ttl else until <= clock + ttl
  }

  lemma {:induction false} LateAdmitsNone(rows: map<Key, Row>, clock: int, events: seq<Event>, key: Key, from: int,
                                          until: int)
    requires Legal(rows, clock, events) && until <= clock
    ensures Admitted(rows, events, key, from, until) == 0
    decreases |events|
  {
    if events != [] {
      LateAdmitsNone(Apply(rows, events[0]), events[0].now, events[1..], key, from, until);
    }
  }

  lemma {:induction false} AdmittedWithinBudget(
      rows: map<Key, Row>, clock: int, events: seq<Event>, key: Key, from: int, until: int, ttl: int, limit: int)
    requires Legal(rows, clock, events) && Uniform(events, key, ttl, limit)
    requires Within(rows, key, clock, until, ttl)
    ensures Admitted(rows, events, key, from, until) <= Budget(rows, key, clock, until, limit)
    decreases |events|
  {
    if events != [] {
      var e := events[0];
      var next := Apply(rows, e);
      assert Uniform(events[1..], key, ttl, limit);
      if until <= e.now {
        LateAdmitsNone(next, e.now, events[1..], key, from, until);
      } else {
        if e.Hit? && e.key == key {
          AdmittedExactly(Lookup(rows, key), e.policy, e.now);
        }
        AdmittedWithinBudget(next, e.now, events[1..], key, from, until, ttl, limit);
      }
    }
  }

  /** From a moment at which the key has no open window, one window's length admits the limit. */
  lemma OneWindowAdmitsTheLimit(rows: map<Key, Row>, clock: int, events: seq<Event>, key: Key, ttl: int, limit: nat)
    requires Legal(rows, clock, events) && Uniform(events, key, ttl, limit) && !Open(rows, key, clock)
    ensures Admitted(rows, events, key, clock, clock + ttl) <= limit
  {
    AdmittedWithinBudget(rows, clock, events, key, clock, clock + ttl, ttl, limit);
  }

  ghost predicate Counted(rows: map<Key, Row>) {
    forall k | k in rows :: rows[k].hits >= 1
  }

  /** What any span of one window's length may admit: a window begins with a hit, so a span that
      meets two windows has missed the first hit of the earlier one. */
  function SpanLimit(limit: nat): nat {
    if limit == 0 then 0 else 2 * limit - 1
  }

  lemma {:induction false} SpanWithinLimit(
      rows: map<Key, Row>, clock: int, events: seq<Event>, key: Key, from: int, ttl: int, limit: nat)
    requires Legal(rows, clock, events) && Uniform(events, key, ttl, limit) && Counted(rows)
    ensures Admitted(rows, events, key, from, from + ttl) <= SpanLimit(limit)
    decreases |events|
  {
    if events != [] {
      var e := events[0];
      if e.now < from {
        assert Uniform(events[1..], key, ttl, limit);
        SpanWithinLimit(Apply(rows, e), e.now, events[1..], key, from, ttl, limit);
      } else {
        AdmittedWithinBudget(rows, if clock < from then from else clock, events, key, from, from + ttl, ttl, limit);
      }
    }
  }

  /** In every run from an empty table, cleanups included, any half-open span of one window's length
      admits fewer than twice the limit. */
  lemma AnySpanAdmitsLessThanTwiceTheLimit(clock: int, events: seq<Event>, key: Key, from: int, ttl: int, limit: nat)
    requires Legal(map[], clock, events) && Uniform(events, key, ttl, limit)
    ensures Admitted(map[], events, key, from, from + ttl) <= SpanLimit(limit)
  {
    SpanWithinLimit(map[], clock, events, key, from, ttl, limit);
  }

  // ----- blocks -----

  /** Until a block is over nothing passes: later hits do not shorten it, and no cleanup takes it. */
  lemma {:induction false} BlockAdmitsNothing(
      rows: map<Key, Row>, clock: int, events: seq<Event>, key: Key, from: int, until: int)
    requires Legal(rows, clock, events) && key in rows && rows[key].blockedUntil == Some(until)
    ensures Admitted(rows, events, key, from, until) == 0
    decreases |events|
  {
    if events != [] {
      var e := events[0];
      if until <= e.now {
        LateAdmitsNone(Apply(rows, e), e.now, events[1..], key, from, until);
      } else {
        BlockAdmitsNothing(Apply(rows, e), e.now, events[1..], key, from, until);
      }
    }
  }

  /** The hit that exceeds the limit blocks its key for exactly the policy's block, whatever follows. */
  lemma ExceedingHitBlocks(rows: map<Key, Row>, e: Event, events: seq<Event>, from: int)
    requires e.Hit? && Allowed(rows, e) && Legal(Apply(rows, e), e.now, events)
    requires !(e.key in rows && BlockLive(rows[e.key], e.now)) && Apply(rows, e)[e.key].hits > e.policy.limit
    ensures var block := if e.policy.blockDuration == 0 then e.policy.ttl else e.policy.blockDuration;
      && ReportOf(Apply(rows, e)[e.key], e.now).timeToBlockExpire == block
      && Admitted(Apply(rows, e), events, e.key, from, e.now + block) == 0
  {
    BlockAdmitsNothing(Apply(rows, e), e.now, events, e.key, from, e.now + e.policy.Block());
  }

  // ----- the bound is reached -----

  function Burst(n: nat, now: int, key: Key, policy: Policy): seq<Event> {
    if n == 0 then [] else [Hit(now, key, policy)] + Burst(n - 1, now, key, policy)
  }

  function Grown(rows: map<Key, Row>, key: Key, n: nat): map<Key, Row>
    requires key in rows
  {
    rows[key := rows[key].(hits := rows[key].hits + n)]
  }

  lemma {:induction false} BurstPasses(
      rows: map<Key, Row>, n: nat, clock: int, now: int, key: Key, policy: Policy, rest: seq<Event>,
      from: int, until: int)
    requires policy.Sound() && clock <= now && from <= now < until
    requires key in rows && WindowLive(rows[key], now) && rows[key].blockedUntil.None?
    requires rows[key].hits + n <= policy.limit
    requires Legal(Grown(rows, key, n), now, rest)
    ensures Legal(rows, clock, Burst(n, now, key, policy) + rest)
    ensures Admitted(rows, Burst(n, now, key, policy) + rest, key, from, until)
         == n + Admitted(Grown(rows, key, n), rest, key, from, until)
    decreases n
  {
    if n == 0 {
      assert Grown(rows, key, 0) == rows;
      assert [] + rest == rest;
      LegalLater(rows, clock, now, rest);
    } else {
      var e := Hit(now, key, policy);
      var next := Apply(rows, e);
      assert Grown(next, key, n - 1) == Grown(rows, key, n);
      BurstPasses(next, n - 1, now, now, key, policy, rest, from, until);
      assert (Burst(n, now, key, policy) + rest)[1..] == Burst(n - 1, now, key, policy) + rest;
      AdmittedExactly(Some(rows[key]), policy, now);
    }
  }

  lemma LegalLater(rows: map<Key, Row>, clock: int, now: int, events: seq<Event>)
    requires Legal(rows, now, events) && clock <= now
    ensures Legal(rows, clock, events)
  {
  }

  /** One hit, the rest of the window's limit just before it ends, and a full limit right after. */
  function Straddle(key: Key, policy: Policy): seq<Event>
    requires policy.limit >= 1
  {
    [Hit(0, key, policy)] + (Burst(policy.limit - 1, policy.ttl - 1, key, policy)
      + ([Hit(policy.ttl, key, policy)] + (Burst(policy.limit - 1, policy.ttl, key, policy) + [])))
  }

  /** A full limit right after the window of `rows` has ended. */
  lemma NextWindowPasses(rows: map<Key, Row>, key: Key, policy: Policy, from: int, until: int)
    requires policy.Sound() && policy.limit >= 1 && from <= policy.ttl < until
    requires rows.Keys == {key} && rows[key].windowExpiresAt == policy.ttl && rows[key].blockedUntil.None?
    ensures var events := [Hit(policy.ttl, key, policy)] + (Burst(policy.limit - 1, policy.ttl, key, policy) + []);
            Legal(rows, policy.ttl - 1, events) && Admitted(rows, events, key, from, until) == policy.limit
  {
    hide Burst;
    var ttl, n := policy.ttl, policy.limit - 1;
    var tail := Burst(n, ttl, key, policy) + [];
    var events := [Hit(ttl, key, policy)] + tail;
    var next := map[key := Row(1, ttl + ttl, None)];
    BurstPasses(next, n, ttl, ttl, key, policy, [], from, until);
    assert Apply(rows, events[0]) == next && events[1..] == tail;
  }

  lemma SpanLimitIsReached(key: Key, policy: Policy)
    requires policy.Sound() && policy.limit >= 1 && policy.ttl >= 2
    ensures Legal(map[], 0, Straddle(key, policy))
    ensures var from := policy.ttl - 1;
            Admitted(map[], Straddle(key, policy), key, from, from + policy.ttl) == SpanLimit(policy.limit)
  {
    hide Burst;
    var ttl, n := policy.ttl, policy.limit - 1;
    var from := ttl - 1;
    var middle := [Hit(ttl, key, policy)] + (Burst(n, ttl, key, policy) + []);
    var last := Burst(n, ttl - 1, key, policy) + middle;
    var window := map[key := Row(1, ttl, None)];
    NextWindowPasses(Grown(window, key, n), key, policy, from, from + ttl);
    BurstPasses(window, n, 0, ttl - 1, key, policy, middle, from, from + ttl);
    var all := Straddle(key, policy);
    assert Apply(map[], all[0]) == window && all[1..] == last;
  }

  // ----- the two modules' code -----

  class Limiter {
    var rows: map<Key, Row>

    constructor ()
      ensures rows == map[]
    {
      rows := map[];
    }

    /** One upsert. Other keys keep their rows. */
    method Increment(key: Key, ttl: int, limit: int, blockDuration: int, now: int) returns (report: Report)
      modifies this
      ensures rows == Apply(old(rows), Hit(now, key, Policy(ttl, limit, blockDuration)))
      ensures report == ReportOf(rows[key], now)
    {
      var block := if blockDuration == 0 then ttl else blockDuration;
      if key !in rows {
        rows := rows[key := Row(1, now + ttl, if 1 > limit then Some(now + block) else None)];
      } else {
        var current := rows[key];
        var hits := 1;
        var window := now + ttl;
        if current.windowExpiresAt > now {
          hits := current.hits + 1;
          window := current.windowExpiresAt;
        }
        var blocked := None;
        if current.blockedUntil.Some? && current.blockedUntil.value > now {
          blocked := current.blockedUntil;
        } else if hits > limit {
          blocked := Some(now + block);
        }
        rows := rows[key := Row(hits, window, blocked)];
      }
      var row := rows[key];
      var timeToBlockExpire := if row.blockedUntil.Some? then AtLeastZero(row.blockedUntil.value - now) else 0;
      report := Report(row.hits, AtLeastZero(row.windowExpiresAt - now), timeToBlockExpire > 0, timeToBlockExpire);
    }

    /** Takes expired rows nobody holds, the longest expired first, up to the batch size. */
    method Cleanup(now: int, locked: set<Key>) returns (ghost taken: set<Key>)
      modifies this
      ensures LegalBatch(old(rows), now, taken) && taken !! locked
      ensures rows == Apply(old(rows), Clean(now, taken))
      ensures forall t, k | t in taken && k in rows && k !in locked && Expired(rows[k], now) ::
                old(rows)[t].windowExpiresAt <= rows[k].windowExpiresAt
      ensures |taken| < CLEANUP_BATCH ==> forall k | k in rows && Expired(rows[k], now) :: k in locked
      ensures |taken| <= 500 && forall k | k in taken :: k in old(rows) && IsOver(old(rows)[k], now)
      ensures |taken| < 500 ==> forall k | k in rows && IsOver(rows[k], now) :: k in locked
    {
      taken := {};
      var candidates := set k | k in rows && k !in locked && Expired(rows[k], now);
      var left := CLEANUP_BATCH;
      while left > 0 && candidates != {}
        invariant |taken| == CLEANUP_BATCH - left
        invariant rows == old(rows) - taken
        invariant candidates == set k | k in rows && k !in locked && Expired(rows[k], now)
        invariant LegalBatch(old(rows), now, taken) && taken !! locked
        invariant forall t, k | t in taken && k in candidates :: old(rows)[t].windowExpiresAt <= rows[k].windowExpiresAt
        decreases left
      {
        var oldest := Oldest(candidates);
        taken := taken + {oldest};
        rows := rows - {oldest};
        candidates := candidates - {oldest};
        left := left - 1;
      }
    }

    method Oldest(keys: set<Key>) returns (oldest: Key)
      requires keys != {} && keys <= rows.Keys
      ensures oldest in keys && forall k | k in keys :: rows[oldest].windowExpiresAt <= rows[k].windowExpiresAt
    {
      oldest :| oldest in keys;
      var rest := keys - {oldest};
      while rest != {}
        invariant rest <= keys && oldest in keys
        invariant forall k | k in keys && k !in rest :: rows[oldest].windowExpiresAt <= rows[k].windowExpiresAt
        decreases |rest|
      {
        var k :| k in rest;
        if rows[k].windowExpiresAt < rows[oldest].windowExpiresAt {
          oldest := k;
        }
        rest := rest - {k};
      }
    }
  }
}
