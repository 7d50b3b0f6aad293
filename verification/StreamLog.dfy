/** The durable log of a run's stream, its paged reader and the offsets a client resumes from. */
module StreamLog {
  import opened Queries
  import opened Decimals

  const READ_PAGE: nat := 128
  const MAXIMUM_BIGINT: nat := 9223372036854775807

  datatype Event = Event(id: nat, run: string, chunk: string)

  predicate ById(a: Event, b: Event) {
    a.id <= b.id
  }

  // ----- offsets -----

  /** One to nineteen digits that fit a signed 64-bit number. */
  function ParseExternalReplayOffset(offset: string): Option<nat> {
    if 1 <= |offset| <= 19 && AllDigits(offset) && ValueOf(offset) <= MAXIMUM_BIGINT
    then Some(ValueOf(offset)) else None
  }

  function OffsetFor(offset: string, internal: bool): Option<nat> {
    if offset == "-1" && internal then Some(0) else ParseExternalReplayOffset(offset)
  }

  /** Every offset the log hands out is one it takes back, and means the same event. */
  lemma OffsetsComeBack(id: nat, internal: bool)
    requires id <= MAXIMUM_BIGINT
    ensures OffsetFor(Decimal(id), internal) == Some(id)
  {
    ValueOfDecimal(id);
    PowersOfTen();
    DecimalLength(id, 19);
    assert "-1"[0] == '-' && !IsDigit('-');
  }

  /** What a client may resume from: one to nineteen digits of a number below 2^63. Only inside the server does -1
      mean the start. */
  lemma OffsetsAccepted(offset: string, internal: bool)
    ensures OffsetFor(offset, internal) ==
      if internal && offset == "-1" then Some(0)
      else if 1 <= |offset| <= 19 && AllDigits(offset) && ValueOf(offset) <= 9_223_372_036_854_775_807
      then Some(ValueOf(offset)) else None
  {
  }

  lemma PowersOfTen()
    ensures PowerOfTen(19) == 10000000000000000000
  {
    assert PowerOfTen(4) == 10000;
    assert PowerOfTen(8) == 100000000;
    assert PowerOfTen(12) == 1000000000000;
    assert PowerOfTen(16) == 10000000000000000;
  }

  // ----- the log -----

  predicate After(e: Event, run: string, offset: nat) {
    e.run == run && e.id > offset
  }

  /** What a snapshot holds beyond an offset. */
  function Entries(log: seq<Event>, run: string, offset: nat): seq<Event> {
    OrderBy(Where(log, e => After(e, run, offset)), ById)
  }

  ghost predicate Increasing(log: seq<Event>, run: string) {
    forall i, j | 0 <= i < j < |log| && log[i].run == run && log[j].run == run :: log[i].id < log[j].id
  }

  lemma {:induction false} EntriesInOrder(log: seq<Event>, run: string, offset: nat)
    requires Increasing(log, run)
    ensures Entries(log, run, offset) == Where(log, e => After(e, run, offset))
    ensures Ascending(Entries(log, run, offset), ById)
  {
    RunAscends(log, run, offset);
    OrderByAscending(Where(log, e => After(e, run, offset)), ById);
  }

  lemma {:induction false} RunAscends(log: seq<Event>, run: string, offset: nat)
    requires Increasing(log, run)
    ensures Ascending(Where(log, e => After(e, run, offset)), ById)
  {
    if log != [] {
      var p := e => After(e, run, offset);
      RunAscends(log[1..], run, offset);
      WhereMembers(log[1..], p);
      if p(log[0]) {
        forall e | e in Where(log[1..], p) ensures log[0].id < e.id {
          var k :| 0 <= k < |log[1..]| && log[1..][k] == e;
          assert log[k + 1] == e;
        }
        AscendingCons(log[0], Where(log[1..], p), ById);
      }
    }
  }

  lemma LaterLogHasMore(log: seq<Event>, later: seq<Event>, run: string, offset: nat)
    requires log <= later && Increasing(later, run)
    ensures Increasing(log, run)
    ensures Entries(log, run, offset) <= Entries(later, run, offset)
  {
    assert later == log + later[|log|..];
    forall i, j | 0 <= i < j < |log| && log[i].run == run && log[j].run == run ensures log[i].id < log[j].id {
      assert later[i] == log[i] && later[j] == log[j];
    }
    EntriesInOrder(log, run, offset);
    EntriesInOrder(later, run, offset);
    WhereConcat(log, later[|log|..], e => After(e, run, offset));
  }

  /** Reading on from an entry is reading the rest. */
  lemma ResumeComposes(log: seq<Event>, run: string, offset: nat, n: nat)
    requires Increasing(log, run) && 0 < n <= |Entries(log, run, offset)|
    ensures Entries(log, run, offset)
         == Entries(log, run, offset)[..n] + Entries(log, run, Entries(log, run, offset)[n - 1].id)
  {
    var all := Entries(log, run, offset);
    var k := all[n - 1].id;
    var p := e => After(e, run, offset);
    var q := e => After(e, run, k);
    EntriesInOrder(log, run, offset);
    EntriesInOrder(log, run, k);
    WhereMembers(log, p);
    assert all[n - 1] in all;
    NarrowedTwice(log, run, offset, k);
    CutAfter(all, run, n);
  }

  lemma {:induction false} NarrowedTwice(log: seq<Event>, run: string, offset: nat, k: nat)
    requires offset <= k
    ensures Where(Where(log, e => After(e, run, offset)), e => After(e, run, k)) == Where(log, e => After(e, run, k))
  {
    if log != [] {
      var p := e => After(e, run, offset);
      NarrowedTwice(log[1..], run, offset, k);
      if p(log[0]) {
        WhereCons(log[0], Where(log[1..], p), e => After(e, run, k));
      } else {
        assert [] + Where(log[1..], p) == Where(log[1..], p);
      }
    }
  }

  lemma CutAfter(all: seq<Event>, run: string, n: nat)
    requires Ascending(all, ById) && 0 < n <= |all| && forall e | e in all :: e.run == run
    ensures Where(all, e => After(e, run, all[n - 1].id)) == all[n..]
  {
    AscendingCut(all, n, ById, e => After(e, run, all[n - 1].id));
  }

  /** Stopping after an entry and resuming from its id later yields what one read would have. */
  lemma StopAndResume(log: seq<Event>, later: seq<Event>, run: string, start: nat, first: seq<Event>)
    requires log <= later && Increasing(later, run)
    requires first != [] && first <= Entries(log, run, start)
    ensures first + Entries(later, run, first[|first| - 1].id) == Entries(later, run, start)
  {
    LaterLogHasMore(log, later, run, start);
    ResumeComposes(later, run, start, |first|);
    hide Entries;
    hide Increasing;
    assert Entries(later, run, start)[..|first|] == first;
  }

  // ----- the writer -----

  class Log {
    var events: seq<Event>
    var last: nat                      // the sequence the ids come from

    ghost predicate Valid()
      reads this
    {
      && (forall e | e in events :: 1 <= e.id <= last)
      && (forall i, j | 0 <= i < j < |events| :: events[i].id < events[j].id)
    }

    constructor ()
      ensures Valid() && events == []
    {
      events := [];
      last := 0;
    }

    /** Appends the chunks in order and returns their ids. */
    method Append(run: string, chunks: seq<string>) returns (ids: seq<nat>)
      requires Valid()
      modifies this
      ensures Valid() && old(events) <= events
      ensures |ids| == |chunks| && |events| == |old(events)| + |chunks|
      ensures forall i | 0 <= i < |chunks| :: events[|old(events)| + i] == Event(ids[i], run, chunks[i])
      ensures forall i | 0 <= i < |ids| :: ids[i] > old(last)
    {
      ids := [];
      var i := 0;
      while i < |chunks|
        invariant Valid() && old(last) <= last
        invariant 0 <= i <= |chunks| && |ids| == i && |events| == |old(events)| + i
        invariant old(events) <= events
        invariant forall k | 0 <= k < i ::
          events[|old(events)| + k] == Event(ids[k], run, chunks[k]) && ids[k] > old(last)
      {
        last := last + 1;
        ids := ids + [last];
        events := events + [Event(last, run, chunks[i])];
        i := i + 1;
      }
    }

    /** All entries of a run. */
    method Snapshot(run: string) returns (entries: seq<Event>)
      requires Valid()
      ensures Increasing(events, run) && entries == Entries(events, run, 0)
      ensures forall e :: e in entries <==> e in events && e.run == run
    {
      entries := OrderBy(Where(events, (e: Event) => e.run == run), ById);
      WhereSame(events, (e: Event) => e.run == run, e => After(e, run, 0));
      OrderByMembers(Where(events, (e: Event) => e.run == run), ById);
      WhereMembers(events, (e: Event) => e.run == run);
    }
  }

  // ----- the reader -----

  /** The log when the events are queried, and whether the stream counts as closed right after. */
  datatype Poll = Poll(log: seq<Event>, closed: bool)

  datatype Outcome = Yielded(entry: Event) | Ended | StillPolling

  ghost predicate Growing(log: seq<Event>, polls: seq<Poll>, run: string) {
    && (polls != [] ==> log <= polls[0].log && Increasing(polls[|polls| - 1].log, run))
    && (forall i, j | 0 <= i < j < |polls| :: polls[i].log <= polls[j].log)
  }

  class Reader {
    const run: string
    var cursor: Option<nat>
    var buffered: seq<Event>
    ghost const start: nat
    ghost var yielded: seq<Event>

    /** So far the reader has yielded a prefix of what the log holds after its start, and what it
        has in hand comes next. */
    ghost predicate Valid(log: seq<Event>)
      reads this
    {
      && Increasing(log, run)
      && yielded + buffered <= Entries(log, run, start)
      && (cursor.Some? ==> cursor.value == if yielded == [] then start else yielded[|yielded| - 1].id)
    }

    constructor (run: string, offset: string, internal: bool, ghost log: seq<Event>)
      requires Increasing(log, run)
      ensures Valid(log) && yielded == [] && this.run == run
      ensures cursor == OffsetFor(offset, internal) && (cursor.Some? ==> cursor.value == start)
    {
      this.run := run;
      cursor := OffsetFor(offset, internal);
      buffered := [];
      start := if OffsetFor(offset, internal).Some? then OffsetFor(offset, internal).value else 0;
      yielded := [];
    }

    /** One `next`: `polls` are the states the database is in when it is asked, one after the other. */
    method Next(polls: seq<Poll>, ghost log: seq<Event>) returns (outcome: Outcome, ghost seen: seq<Event>)
      requires Valid(log) && Growing(log, polls, run)
      modifies this`cursor, this`buffered, this`yielded
      ensures Valid(seen) && log <= seen
      ensures yielded == old(yielded) + if outcome.Yielded? then [outcome.entry] else []
      ensures old(cursor).None? ==> outcome.Ended?
      // at the end everything the last look at the log showed has been yielded
      ensures outcome.Ended? && old(cursor).Some? ==> yielded == Entries(seen, run, start)
    {
      seen := log;
      if cursor.None? {
        return Ended, log;
      }
      var i := 0;
      while true
        invariant 0 <= i <= |polls|
        invariant Valid(seen) && cursor.Some? && yielded == old(yielded)
        invariant log <= seen && (forall j | i <= j < |polls| :: seen <= polls[j].log)
        decreases |polls| - i, |buffered|
      {
        if buffered != [] {
          var entry := buffered[0];
          buffered := buffered[1..];
          cursor := Some(entry.id);
          assert yielded + [entry] + buffered == yielded + ([entry] + buffered);
          yielded := yielded + [entry];
          return Yielded(entry), seen;
        }
        if i == |polls| {
          return StillPolling, seen;
        }
        var poll := polls[i];
        i := i + 1;
        PollIncreases(polls, i - 1, run);
        LaterLogHasMore(seen, poll.log, run, start);
        seen := poll.log;
        assert yielded + [] == yielded;
        FetchContinues(seen, run, start, yielded, cursor.value);
        buffered := Limit(Entries(poll.log, run, cursor.value), READ_PAGE);
        if buffered == [] && poll.closed {
          return Ended, seen;
        }
      }
    }
  }

  lemma PollIncreases(polls: seq<Poll>, i: nat, run: string)
    requires i < |polls| && Increasing(polls[|polls| - 1].log, run)
    requires forall i, j | 0 <= i < j < |polls| :: polls[i].log <= polls[j].log
    ensures Increasing(polls[i].log, run)
  {
    LaterLogHasMore(polls[i].log, polls[|polls| - 1].log, run, 0);
  }

  /** The query after the cursor returns exactly what follows the entries yielded so far. */
  lemma FetchContinues(log: seq<Event>, run: string, start: nat, yielded: seq<Event>, cursor: nat)
    requires Increasing(log, run) && yielded <= Entries(log, run, start)
    requires cursor == if yielded == [] then start else yielded[|yielded| - 1].id
    ensures yielded + Entries(log, run, cursor) == Entries(log, run, start)
  {
    if yielded == [] {
      assert [] + Entries(log, run, start) == Entries(log, run, start);
    } else {
      ResumeComposes(log, run, start, |yielded|);
      assert Entries(log, run, start)[..|yielded|] == yielded;
    }
  }
}
