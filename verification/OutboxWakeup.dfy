/** The listener that wakes the outbox worker, and the worker's loop around it: listen, scan,
    ask for the next delay, sleep. Notifications, dropped connections and other workers'
    statements may fall between any two of its steps. */
module OutboxWakeup {
  import opened Queries
  import opened OutboxTable
  import opened OutboxProcessor

  const FALLBACK_CADENCE: nat := 30_000
  const DEGRADED_CADENCE: nat := 5_000

  datatype Wakeup = Wakeup(connection: Option<nat>, waiting: bool, pending: bool, closed: bool)

  function Wake(w: Wakeup): Wakeup {
    if w.waiting then w.(waiting := false) else w.(pending := true)
  }

  /** A connection's end or error counts only while it is the current connection. */
  function Disconnect(w: Wakeup, connection: nat): Wakeup {
    if w.connection != Some(connection) then w else Wake(w.(connection := None))
  }

  datatype Entry = Returned(notified: bool) | Threw | Waiting

  /** Entering `wait`: a pending wake-up is consumed before and after making sure of a connection;
      `reconnected` is the connection made if there was none, if that succeeds. */
  function EnterWait(w: Wakeup, aborted: bool, reconnected: Option<nat>): (Wakeup, Entry) {
    if aborted || w.closed then (w, Returned(false))
    else if w.pending then (w.(pending := false), Returned(true))
    else if w.connection.None? && reconnected.None? then (w, Threw)
    else
      var connected := if w.connection.Some? then w else w.(connection := reconnected);
      if connected.waiting then (connected, Threw)
      else (connected.(waiting := true), Waiting)
  }

  // ----- what the listener does, told by its fields -----

  /** A waiter is woken; without one the wake-up is kept. */
  ghost predicate Wakes(before: Wakeup, after: Wakeup) {
    && after.connection == before.connection && after.closed == before.closed && !after.waiting
    && (before.waiting ==> after.pending == before.pending)
    && (!before.waiting ==> after.pending)
  }

  /** The current connection goes, and that wakes; of any other nothing is seen. */
  ghost predicate LosesConnection(before: Wakeup, ended: nat, after: Wakeup) {
    if before.connection == Some(ended) then after.connection == None && Wakes(before.(connection := None), after)
    else after == before
  }

  /** Nothing is waited for when aborted or closed or when a wake-up was kept, which is used up; else a connection is
      needed, and one waiter is let in. */
  ghost predicate EntersWait(before: Wakeup, aborted: bool, reconnected: Option<nat>, after: Wakeup, entry: Entry) {
    var connection := if before.connection.Some? then before.connection else reconnected;
    && (entry == Returned(false) <==> aborted || before.closed)
    && (entry == Returned(true) <==> !aborted && !before.closed && before.pending)
    && (entry == Threw <==> !aborted && !before.closed && !before.pending && (connection.None? || before.waiting))
    && (entry == Returned(false) ==> after == before)
    && (entry == Returned(true) ==> after == before.(pending := false))
    && (entry == Threw ==> after == before.(connection := connection))
    && (entry == Waiting ==> after == Wakeup(connection, true, false, false))
  }

  lemma WakeupsTakeEffect(w: Wakeup, ended: nat, aborted: bool, reconnected: Option<nat>)
    ensures Wakes(w, Wake(w)) && LosesConnection(w, ended, Disconnect(w, ended))
    ensures var (after, entry) := EnterWait(w, aborted, reconnected);
      EntersWait(w, aborted, reconnected, after, entry)
  {
  }

  class Listener {
    var connection: Option<nat>
    var waiting: bool
    var pending: bool
    var closed: bool

    function State(): Wakeup
      reads this
    {
      Wakeup(connection, waiting, pending, closed)
    }

    constructor ()
      ensures State() == Wakeup(None, false, false, false)
    {
      connection, waiting, pending, closed := None, false, false, false;
    }

    /** `connected` is the connection obtained, if the database accepted one. */
    method Listen(connected: Option<nat>) returns (ok: bool)
      modifies this`connection
      ensures ok <==> old(connection).Some? || (!closed && connected.Some?)
      ensures State() == old(State()).(connection :=
        if old(connection).Some? || closed then old(connection) else connected)
    {
      if connection.Some? { return true; }
      if closed { return false; }
      connection := connected;
      return connected.Some?;
    }

    method OnNotification()
      modifies this`waiting, this`pending
      ensures State() == Wake(old(State())) && Wakes(old(State()), State())
    {
      if waiting {
        waiting := false;
        return;
      }
      pending := true;
    }

    method OnEnd(ended: nat)
      modifies this`connection, this`waiting, this`pending
      ensures State() == Disconnect(old(State()), ended) && LosesConnection(old(State()), ended, State())
    {
      if connection != Some(ended) { return; }
      connection := None;
      OnNotification();
    }

    method ConsumePending() returns (consumed: bool)
      modifies this`pending
      ensures consumed == old(pending) && !pending
    {
      consumed := pending;
      pending := false;
    }

    method Wait(aborted: bool, reconnected: Option<nat>) returns (entry: Entry)
      modifies this`connection, this`waiting, this`pending
      ensures (State(), entry) == EnterWait(old(State()), aborted, reconnected)
      ensures EntersWait(old(State()), aborted, reconnected, State(), entry)
    {
      if aborted || closed { return Returned(false); }
      var consumed := ConsumePending();
      if consumed { return Returned(true); }
      var listening := Listen(reconnected);
      if !listening { return Threw; }
      consumed := ConsumePending();
      if consumed { return Returned(true); }
      if waiting { return Threw; }
      waiting := true;
      return Waiting;
    }

    method Close()
      modifies this`connection, this`waiting, this`closed
      ensures State() == if old(closed) then old(State()) else Wakeup(None, false, pending, true)
    {
      if closed { return; }
      closed := true;
      waiting := false;
      connection := None;
    }
  }

  // ----- the worker's loop -----

  datatype Phase =
    | Top
    | Scan(listening: bool)
    | Ask(listening: bool)
    | Enter(listening: bool, asked: int, delay: int)
    | Sleep(asked: int, delay: int, started: int)
    | Pause(started: int, milliseconds: int)

  /** `inflight` holds the events whose notification was sent to the live connection and is undelivered. */
  datatype World = World(table: Table, now: int, wakeup: Wakeup, inflight: set<nat>, phase: Phase)

  datatype Step =
    | Tick(now: int)
    // statements of this worker or any other
    | InsertRow(id: nat, nextAttemptAt: int)
    | ClaimRows(ids: set<nat>, worker: nat)
    | PublishRow(id: nat, worker: nat)
    | FailRow(id: nat, worker: nat, attempts: nat, nextAttemptAt: int)
    | PruneRow(id: nat)
    // the connection
    | Deliver(id: nat)
    | Drop
    // the loop
    | ListenSucceeds(connection: nat)
    | ListenFails
    | ScanEnds(processed: bool)
    | ScanFails
    | AskEnds(delay: int)
    | AskFails
    | EnterSleep(reconnected: Option<nat>)
    | TimerFires
    | PauseEnds

  predicate Enabled(w: World, step: Step) {
    match step
    case Tick(now) => w.now <= now
    case InsertRow(id, _) => id !in w.table
    case ClaimRows(ids, _) => forall id | id in ids :: id in w.table && Claimable(w.table[id], w.now)
    case PublishRow(_, _) => true
    case FailRow(_, _, _, _) => true
    case PruneRow(id) => id in w.table && w.table[id].published
    case Deliver(id) => id in w.inflight
    case Drop => w.wakeup.connection.Some?
    case ListenSucceeds(_) => w.phase.Top?
    case ListenFails => w.phase.Top? && w.wakeup.connection.None?
    case ScanEnds(_) => w.phase.Scan?
    case ScanFails => w.phase.Scan?
    case AskEnds(_) => w.phase.Ask?
    case AskFails => w.phase.Ask?
    case EnterSleep(_) => w.phase.Enter?
    case TimerFires => w.phase.Sleep? && w.now >= w.phase.started + w.phase.delay * 1_000
    case PauseEnds => w.phase.Pause? && w.now >= w.phase.started + w.phase.milliseconds * 1_000
  }

  ghost predicate AnswersQuery(w: World, step: Step) {
    step.AskEnds? ==> IsWakeDelay(w.table, w.now, FALLBACK_CADENCE, step.delay)
  }

  /** The trigger fires for rows left unpublished and unlocked by an insert or an update of the lock. */
  function Notified(w: World, id: nat, table: Table): World {
    w.(table := table,
       inflight := if w.wakeup.connection.Some? && id in table && !table[id].published && table[id].lockedBy.None?
                   then w.inflight + {id} else w.inflight)
  }

  function Awakened(w: World, wakeup: Wakeup): World {
    w.(wakeup := wakeup, phase := if w.wakeup.waiting && !wakeup.waiting then Top else w.phase)
  }

  function Shorter(delay: int): int {
    if delay < DEGRADED_CADENCE then delay else DEGRADED_CADENCE
  }

  function Apply(w: World, step: Step): World
    requires Enabled(w, step)
  {
    match step
    case Tick(now) => w.(now := now)
    case InsertRow(id, nextAttemptAt) =>
      Notified(w, id, w.table[id := Event(false, 0, nextAttemptAt, w.now, None, None)])
    case ClaimRows(ids, worker) => w.(table := Claim(w.table, ids, worker, w.now))
    case PublishRow(id, worker) => w.(table := Publish(w.table, id, worker))
    case FailRow(id, worker, attempts, nextAttemptAt) =>
      if Owns(w.table, id, worker) then Notified(w, id, Fail(w.table, id, worker, attempts, nextAttemptAt)) else w
    case PruneRow(id) => w.(table := w.table - {id})
    case Deliver(id) => Awakened(w.(inflight := w.inflight - {id}), Wake(w.wakeup))
    case Drop => Awakened(w.(inflight := {}), Disconnect(w.wakeup, w.wakeup.connection.value))
    case ListenSucceeds(connection) =>
      w.(wakeup := if w.wakeup.connection.Some? then w.wakeup else w.wakeup.(connection := Some(connection)),
         phase := Scan(true))
    case ListenFails => w.(phase := Scan(false))
    case ScanEnds(processed) => w.(phase := if processed then Top else Ask(w.phase.listening))
    case ScanFails => w.(phase := Pause(w.now, DEGRADED_CADENCE))
    case AskEnds(delay) => w.(phase := Enter(w.phase.listening, w.now, delay))
    case AskFails => w.(phase := Pause(w.now, DEGRADED_CADENCE))
    case EnterSleep(reconnected) =>
      if !w.phase.listening then w.(phase := Pause(w.now, Shorter(w.phase.delay)))
      else
        var (wakeup, entry) := EnterWait(w.wakeup, false, reconnected);
        w.(wakeup := wakeup,
           phase := if entry.Returned? then Top
                    else if entry.Threw? then Pause(w.now, Shorter(w.phase.delay))
                    else Sleep(w.phase.asked, w.phase.delay, w.now))
    case TimerFires => w.(wakeup := w.wakeup.(waiting := false), phase := Top)
    case PauseEnds => w.(phase := Top)
  }

  // ----- no lost wake-up -----

  /** Claimable only after the sleep asked for at `asked`, up to its millisecond of rounding. */
  predicate Late(event: Event, asked: int, delay: int) {
    delay == 0 || AvailableAt(event) > asked + (delay - 1) * 1_000
  }

  ghost predicate Covered(w: World, asked: int, delay: int) {
    forall id | Unpublished(w.table, id) :: id in w.inflight || Late(w.table[id], asked, delay)
  }

  ghost predicate Inv(w: World) {
    && (w.wakeup.waiting <==> w.phase.Sleep?)
    && !(w.wakeup.waiting && w.wakeup.pending) && !w.wakeup.closed
    && (w.wakeup.connection.None? ==> w.inflight == {})
    && match w.phase
       case Top => true
       case Scan(listening) => listening ==> w.wakeup.connection.Some? || w.wakeup.pending
       case Ask(listening) => listening ==> w.wakeup.connection.Some? || w.wakeup.pending
       case Enter(listening, asked, delay) =>
         && asked <= w.now && 0 <= delay <= FALLBACK_CADENCE
         && (listening ==> w.wakeup.pending || (w.wakeup.connection.Some? && Covered(w, asked, delay)))
       case Sleep(asked, delay, started) =>
         && asked <= started <= w.now && 0 <= delay <= FALLBACK_CADENCE
         && w.wakeup.connection.Some? && Covered(w, asked, delay)
       case Pause(started, milliseconds) => started <= w.now && 0 <= milliseconds <= DEGRADED_CADENCE
  }

  lemma TableStepCovers(w: World, step: Step, asked: int, delay: int)
    requires Enabled(w, step) && Covered(w, asked, delay)
    requires w.wakeup.connection.Some?
    requires step.InsertRow? || step.ClaimRows? || step.PublishRow? || step.FailRow? || step.PruneRow?
    ensures Covered(Apply(w, step), asked, delay)
  {
    var next := Apply(w, step);
    forall id | Unpublished(next.table, id) ensures id in next.inflight || Late(next.table[id], asked, delay) {
      if step.ClaimRows? && id in step.ids {
        ClaimableFromAvailability(w.table[id], w.now);
      }
    }
  }

  lemma StepKeeps(w: World, step: Step)
    requires Inv(w) && Enabled(w, step) && AnswersQuery(w, step)
    ensures Inv(Apply(w, step))
  {
    match step
    case InsertRow(_, _) => TableStepKeeps(w, step);
    case ClaimRows(_, _) => TableStepKeeps(w, step);
    case PublishRow(_, _) => TableStepKeeps(w, step);
    case FailRow(_, _, _, _) => TableStepKeeps(w, step);
    case PruneRow(_) => TableStepKeeps(w, step);
    case AskEnds(delay) => DelayWakesInTime(w.table, w.now, FALLBACK_CADENCE, delay);
    case _ =>
  }

  lemma TableStepKeeps(w: World, step: Step)
    requires Inv(w) && Enabled(w, step)
    requires step.InsertRow? || step.ClaimRows? || step.PublishRow? || step.FailRow? || step.PruneRow?
    ensures Inv(Apply(w, step))
  {
    if w.wakeup.connection.Some? {
      match w.phase
      case Enter(_, asked, delay) =>
        if Covered(w, asked, delay) { TableStepCovers(w, step, asked, delay); }
      case Sleep(asked, delay, _) => TableStepCovers(w, step, asked, delay);
      case _ =>
    }
  }

  ghost predicate Legal(first: World, steps: seq<Step>)
    decreases |steps|, 0
  {
    steps == [] ||
    (&& Legal(first, steps[..|steps| - 1])
     && Enabled(After(first, steps[..|steps| - 1]), steps[|steps| - 1])
     && AnswersQuery(After(first, steps[..|steps| - 1]), steps[|steps| - 1]))
  }

  ghost function After(first: World, steps: seq<Step>): World
    requires Legal(first, steps)
    decreases |steps|, 1
  {
    if steps == [] then first else Apply(After(first, steps[..|steps| - 1]), steps[|steps| - 1])
  }

  /** A worker starting on any table, with no connection yet. */
  function Start(table: Table, now: int): World {
    World(table, now, Wakeup(None, false, false, false), {}, Top)
  }

  lemma {:induction false} RunInv(table: Table, now: int, steps: seq<Step>)
    requires Legal(Start(table, now), steps)
    ensures Inv(After(Start(table, now), steps))
  {
    if steps != [] {
      var init := steps[..|steps| - 1];
      RunInv(table, now, init);
      StepKeeps(After(Start(table, now), init), steps[|steps| - 1]);
    }
  }

  /** No lost wake-up: while the worker sleeps until its deadline, the connection is live and every unpublished
      event has its notification on the way, or the sleep has no length, or the event cannot be claimed before
      the deadline, less the millisecond of rounding and the time between the query and the sleep. */
  lemma NoLostWakeup(table: Table, now: int, steps: seq<Step>, id: nat)
    requires Legal(Start(table, now), steps) && After(Start(table, now), steps).phase.Sleep?
    ensures var w := After(Start(table, now), steps);
      var deadline := w.phase.started + w.phase.delay * 1_000;
      && w.wakeup.connection.Some? && !w.wakeup.pending
      && deadline <= w.phase.started + 30_000_000
      && (Unpublished(w.table, id) ==>
            || id in w.inflight
            || w.phase.delay == 0
            || AvailableAt(w.table[id]) > deadline - 1_000 - (w.phase.started - w.phase.asked))
  {
    RunInv(table, now, steps);
  }

  /** Without a listener the worker never pauses for more than five seconds. */
  lemma DegradedPause(table: Table, now: int, steps: seq<Step>)
    requires Legal(Start(table, now), steps) && After(Start(table, now), steps).phase.Pause?
    ensures After(Start(table, now), steps).phase.milliseconds <= 5_000
  {
    RunInv(table, now, steps);
  }

  /** A delivered notification or a dropped connection ends a sleep at once. */
  lemma WakingEndsSleep(w: World, step: Step)
    requires Inv(w) && w.phase.Sleep? && Enabled(w, step) && (step.Deliver? || step.Drop?)
    ensures Apply(w, step).phase == Top
  {
  }

  // ----- what a round of the loop does -----

  /** With events processed the worker starts over at once. Else, listening, it sleeps for the delay it was told, and
      not listening it pauses for it, but no longer than five seconds; so it pauses when something fails. */
  lemma RoundSleepsAsTold(w: World, delay: int, listening: bool)
    requires w.phase == Top && !w.wakeup.waiting && !w.wakeup.pending && !w.wakeup.closed && delay >= 0
    requires listening <==> w.wakeup.connection.Some?
    ensures var scanning := if listening then Apply(w, ListenSucceeds(0)) else Apply(w, ListenFails);
      && scanning == w.(phase := Scan(listening))
      && Apply(scanning, ScanEnds(true)) == w
      && Apply(scanning, ScanFails) == w.(phase := Pause(w.now, 5_000))
      && var asking := Apply(scanning, ScanEnds(false));
      && asking == w.(phase := Ask(listening))
      && Apply(asking, AskFails) == w.(phase := Pause(w.now, 5_000))
      && var resting := Apply(Apply(asking, AskEnds(delay)), EnterSleep(None));
      && (listening ==>
            resting == w.(wakeup := w.wakeup.(waiting := true), phase := Sleep(w.now, delay, w.now)))
      && (!listening ==> resting == w.(phase := Pause(w.now, if delay < 5_000 then delay else 5_000)))
  {
  }

  /** A rest ends when its time is over, and a sleep then leaves nobody waiting. */
  lemma RestsEndInTime(w: World, now: int)
    requires Inv(w) && w.now <= now
    ensures w.phase.Sleep? ==>
      (Enabled(w.(now := now), TimerFires) <==> now >= w.phase.started + w.phase.delay * 1_000)
      && (Enabled(w, TimerFires) ==> Apply(w, TimerFires) == w.(wakeup := w.wakeup.(waiting := false), phase := Top))
    ensures w.phase.Pause? ==>
      (Enabled(w.(now := now), PauseEnds) <==> now >= w.phase.started + w.phase.milliseconds * 1_000)
      && (Enabled(w, PauseEnds) ==> Apply(w, PauseEnds) == w.(phase := Top))
  {
  }

  /** A kept wake-up lets the worker start over instead of sleeping, and a wait that fails makes it pause. */
  lemma KeptWakeupSkipsTheSleep(w: World, reconnected: Option<nat>)
    requires w.phase.Enter? && w.phase.listening && !w.wakeup.closed
    ensures w.wakeup.pending ==>
      Apply(w, EnterSleep(reconnected)) == w.(wakeup := w.wakeup.(pending := false), phase := Top)
    ensures !w.wakeup.pending && w.wakeup.connection.None? ==>
      Apply(w, EnterSleep(None)) == w.(phase := Pause(w.now, if w.phase.delay < 5_000 then w.phase.delay else 5_000))
  {
  }

  /** A notification goes out exactly for a row that an insert or its owner's failure leaves free, and only while there
      is a connection; its delivery wakes the worker, and a lost connection loses what is on the way. */
  lemma FreeRowsAreNotified(w: World, id: nat, worker: nat, attempts: nat, at: int)
    requires Inv(w)
    ensures id !in w.table ==>
      && Apply(w, InsertRow(id, at)).table == w.table[id := Event(false, 0, at, w.now, None, None)]
      && Apply(w, InsertRow(id, at)).inflight == w.inflight + if w.wakeup.connection.Some? then {id} else {}
    ensures var failed := Apply(w, FailRow(id, worker, attempts, at));
      if HoldsRow(w.table, id, worker) then
        && failed.table == w.table[id := Event(false, attempts, at, w.table[id].createdAt, None, None)]
        && failed.inflight == w.inflight + if w.wakeup.connection.Some? then {id} else {}
      else failed == w
    ensures Apply(w, PublishRow(id, worker)) == w.(table := Publish(w.table, id, worker))
    ensures id in w.inflight ==>
      var told := Apply(w, Deliver(id));
      && told.inflight == w.inflight - {id} && told.table == w.table && Wakes(w.wakeup, told.wakeup)
      && told.phase == if w.phase.Sleep? then Top else w.phase
    ensures w.wakeup.connection.Some? ==>
      var lost := Apply(w, Drop);
      && lost.inflight == {} && lost.table == w.table && lost.wakeup.connection == None
      && (w.wakeup.waiting || lost.wakeup.pending) && lost.phase == if w.phase.Sleep? then Top else w.phase
  {
  }
}
