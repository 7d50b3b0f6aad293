/** Many workers over one outbox. A worker claims a batch, runs a handler for each event in
    turn and persists the outcome under the guard that it still owns the row; the tenth failure is
    reported after it was persisted. Leases run out, other workers take over, statements fail after
    they took effect, and processes stop at any point. */
module OutboxWorkers {
  import opened Queries
  import opened OutboxTable

  /** What a worker read at claim time. Tickets number the claims, and stand for nothing stored. */
  datatype Held = Held(id: nat, attempts: nat, ticket: nat)

  /** `reporting` is the row whose tenth failure the worker has persisted and not yet reported. */
  datatype Worker = Worker(queue: seq<Held>, outcome: Option<bool>, reporting: Option<nat>)

  /** The table, each worker's position in its batch, and the history the properties speak of. */
  datatype Cluster = Cluster(
    table: Table,
    workers: map<nat, Worker>,
    tickets: map<nat, nat>,
    issued: nat,
    claimedAt: map<nat, int>,
    failures: map<nat, nat>,
    reports: map<nat, nat>,
    handled: set<nat>)

  const START := Cluster(map[], map[], map[], 0, map[], map[], map[], {})

  datatype Step =
    | Insert(id: nat, nextAttemptAt: int, createdAt: int)
    | ClaimBatch(worker: nat, ids: seq<nat>, now: int)
    | HandlerEnds(worker: nat, succeeded: bool)
    | PersistSuccess(worker: nat)
    | PublishThrows(worker: nat, committed: bool)
    | PersistFailure(worker: nat, now: int)
    | Report(worker: nat)
    | ReportThrows(worker: nat)
    | Stop(worker: nat)
    | Prune(id: nat)

  function WorkerOf(c: Cluster, worker: nat): Worker {
    if worker in c.workers then c.workers[worker] else Worker([], None, None)
  }

  function Count(m: map<nat, nat>, id: nat): nat {
    if id in m then m[id] else 0
  }

  function HeldFor(table: Table, ids: seq<nat>, ticket: nat): seq<Held>
    requires forall id | id in ids :: id in table
  {
    seq(|ids|, i requires 0 <= i < |ids| => Held(ids[i], table[ids[i]].attempts, ticket))
  }

  predicate AtHead(c: Cluster, worker: nat, outcome: Option<bool>) {
    WorkerOf(c, worker).queue != [] && WorkerOf(c, worker).outcome == outcome && WorkerOf(c, worker).reporting.None?
  }

  /** A claim takes at most twenty claimable rows, each once; rows locked elsewhere are skipped. */
  ghost predicate Enabled(c: Cluster, step: Step) {
    match step
    case Insert(id, _, _) =>
      && id !in c.table && id !in c.failures && id !in c.handled && id !in c.tickets && id !in c.reports
      && forall w, h | w in c.workers && h in c.workers[w].queue :: h.id != id
    case ClaimBatch(worker, ids, now) =>
      && WorkerOf(c, worker).queue == [] && WorkerOf(c, worker).reporting.None? && |ids| <= CLAIM_BATCH
      && (forall id | id in ids :: id in c.table && Claimable(c.table[id], now))
      && (forall i, j | 0 <= i < j < |ids| :: ids[i] != ids[j])
    case HandlerEnds(worker, _) => AtHead(c, worker, None)
    case PersistSuccess(worker) => AtHead(c, worker, Some(true))
    case PublishThrows(worker, _) => AtHead(c, worker, Some(true))
    case PersistFailure(worker, _) => AtHead(c, worker, Some(false))
    case Report(worker) => WorkerOf(c, worker).reporting.Some?
    case ReportThrows(worker) => WorkerOf(c, worker).reporting.Some?
    case Stop(_) => true
    case Prune(id) => id in c.table && c.table[id].published
  }

  function Advance(c: Cluster, worker: nat, reporting: Option<nat>): map<nat, Worker>
    requires WorkerOf(c, worker).queue != []
  {
    c.workers[worker := Worker(WorkerOf(c, worker).queue[1..], None, reporting)]
  }

  function Apply(c: Cluster, step: Step): Cluster
    requires Enabled(c, step)
  {
    match step
    case Insert(id, nextAttemptAt, createdAt) =>
      c.(table := c.table[id := Event(false, 0, nextAttemptAt, createdAt, None, None)])
    case ClaimBatch(worker, ids, now) =>
      c.(table := Claim(c.table, (set id | id in ids), worker, now),
         workers := c.workers[worker := Worker(HeldFor(c.table, ids, c.issued), None, None)],
         tickets := c.tickets + (map id | id in ids :: c.issued),
         issued := c.issued + 1,
         claimedAt := c.claimedAt[c.issued := now])
    case HandlerEnds(worker, succeeded) =>
      var w := WorkerOf(c, worker);
      c.(workers := c.workers[worker := w.(outcome := Some(succeeded))],
         handled := if succeeded then c.handled + {w.queue[0].id} else c.handled)
    case PersistSuccess(worker) =>
      var held := WorkerOf(c, worker).queue[0];
      c.(table := Publish(c.table, held.id, worker), workers := Advance(c, worker, None))
    case PublishThrows(worker, committed) =>
      var held := WorkerOf(c, worker).queue[0];
      c.(table := if committed then Publish(c.table, held.id, worker) else c.table,
         workers := c.workers[worker := WorkerOf(c, worker).(outcome := Some(false))])
    case PersistFailure(worker, now) =>
      var held := WorkerOf(c, worker).queue[0];
      var attempts := held.attempts + 1;
      var persisted := Owns(c.table, held.id, worker);
      c.(table := Fail(c.table, held.id, worker, attempts, RetryAt(attempts, now)),
         workers := Advance(c, worker, if persisted && attempts == REPORTED_ATTEMPT then Some(held.id) else None),
         failures := if persisted then c.failures[held.id := Count(c.failures, held.id) + 1] else c.failures)
    case Report(worker) =>
      var w := WorkerOf(c, worker);
      c.(workers := c.workers[worker := w.(reporting := None)],
         reports := c.reports[w.reporting.value := Count(c.reports, w.reporting.value) + 1])
    case ReportThrows(worker) =>
      c.(workers := c.workers[worker := WorkerOf(c, worker).(reporting := None)])
    case Stop(worker) =>
      c.(workers := c.workers - {worker})
    case Prune(id) =>
      c.(table := c.table - {id})
  }

  // ----- the invariant -----

  /** What a worker holds of a row it owns is the row's latest claim and attempt count. */
  ghost predicate Fenced(c: Cluster, worker: nat, held: Held) {
    Owns(c.table, held.id, worker) ==>
      held.id in c.tickets && c.tickets[held.id] == held.ticket && c.table[held.id].attempts == held.attempts
  }

  ghost predicate Fences(c: Cluster) {
    forall w, i | w in c.workers && 0 <= i < |c.workers[w].queue| :: Fenced(c, w, c.workers[w].queue[i])
  }

  ghost predicate DistinctQueues(c: Cluster) {
    forall w, i, j | w in c.workers && 0 <= i < j < |c.workers[w].queue| ::
      c.workers[w].queue[i].id != c.workers[w].queue[j].id
  }

  ghost predicate Counted(c: Cluster) {
    forall id | id in c.table :: c.table[id].attempts == Count(c.failures, id)
  }

  ghost predicate Reporting(c: Cluster, worker: nat, id: nat) {
    worker in c.workers && c.workers[worker].reporting == Some(id)
  }

  /** A row is reported, or about to be, by one worker at most, once and after its tenth failure. */
  ghost predicate ReportedOnce(c: Cluster) {
    && (forall id | id in c.reports :: c.reports[id] == 1 && Count(c.failures, id) >= REPORTED_ATTEMPT)
    && (forall w, id | Reporting(c, w, id) :: id !in c.reports && Count(c.failures, id) >= REPORTED_ATTEMPT)
    && (forall v, w, id | Reporting(c, v, id) && Reporting(c, w, id) :: v == w)
  }

  ghost predicate PublishedAfterHandling(c: Cluster) {
    && (forall id | id in c.table && c.table[id].published :: id in c.handled)
    && (forall w | w in c.workers && c.workers[w].queue != [] && c.workers[w].outcome == Some(true) ::
          c.workers[w].queue[0].id in c.handled)
  }

  ghost predicate Inv(c: Cluster) {
    Fences(c) && DistinctQueues(c) && Counted(c) && ReportedOnce(c) && PublishedAfterHandling(c)
  }

  // ----- preservation -----

  /** Who has a report to make had it before, or has just persisted the tenth failure. */
  lemma ReportingBefore(c: Cluster, step: Step, w: nat, id: nat)
    requires Inv(c) && Enabled(c, step) && Reporting(Apply(c, step), w, id)
    ensures Reporting(c, w, id) ||
      (step.PersistFailure? && step.worker == w && WorkerOf(c, w).queue[0].id == id
       && Count(c.failures, id) + 1 == REPORTED_ATTEMPT == Count(Apply(c, step).failures, id))
    ensures step.Report? || step.ReportThrows? || step.Stop? ==> w != step.worker
  {
    if step.PersistFailure? {
      assert Fenced(c, step.worker, c.workers[step.worker].queue[0]);
    }
  }

  lemma FailuresGrow(c: Cluster, step: Step, id: nat)
    requires Enabled(c, step)
    ensures Count(c.failures, id) <= Count(Apply(c, step).failures, id)
    ensures id in Apply(c, step).reports <==>
      id in c.reports || (step.Report? && WorkerOf(c, step.worker).reporting == Some(id))
  {
  }

  lemma ReportIsDue(c: Cluster, step: Step)
    requires Enabled(c, step)
    ensures step.Report? ==>
      WorkerOf(c, step.worker).reporting.Some? && Reporting(c, step.worker, WorkerOf(c, step.worker).reporting.value)
  {
  }

  lemma ReportedKeeps(c: Cluster, step: Step)
    requires Inv(c) && Enabled(c, step)
    ensures ReportedOnce(Apply(c, step))
  {
    ReportIsDue(c, step);
    var next := Apply(c, step);
    forall w, id | Reporting(next, w, id)
      ensures id !in next.reports && Count(next.failures, id) >= REPORTED_ATTEMPT
      ensures forall v | Reporting(next, v, id) :: v == w
    {
      ReportingBefore(c, step, w, id);
      FailuresGrow(c, step, id);
      forall v | Reporting(next, v, id) ensures v == w {
        ReportingBefore(c, step, v, id);
      }
    }
    forall id | id in next.reports ensures next.reports[id] == 1 && Count(next.failures, id) >= REPORTED_ATTEMPT {
      FailuresGrow(c, step, id);
    }
  }

  lemma ClaimKeeps(c: Cluster, step: Step)
    requires Inv(c) && step.ClaimBatch? && Enabled(c, step)
    ensures Inv(Apply(c, step))
  {
    hide ReportedOnce;
    ReportedKeeps(c, step);
    var next := Apply(c, step);
    forall w, i | w in next.workers && 0 <= i < |next.workers[w].queue|
      ensures Fenced(next, w, next.workers[w].queue[i])
    {
      if w == step.worker {
        var held := next.workers[w].queue[i];
        assert held == Held(step.ids[i], c.table[step.ids[i]].attempts, c.issued);
        assert held.id in step.ids;
      } else {
        assert Fenced(c, w, c.workers[w].queue[i]);
      }
    }
  }

  lemma AdvanceKeepsQueues(c: Cluster, worker: nat, reporting: Option<nat>)
    requires DistinctQueues(c) && worker in c.workers && c.workers[worker].queue != []
    ensures DistinctQueues(c.(workers := Advance(c, worker, reporting)))
    ensures forall held | held in Advance(c, worker, reporting)[worker].queue ::
      held.id != c.workers[worker].queue[0].id
  {
    var queue := c.workers[worker].queue;
    assert forall i | 0 <= i < |queue[1..]| :: queue[1..][i] == queue[i + 1];
  }

  lemma SuccessKeeps(c: Cluster, worker: nat)
    requires Inv(c) && Enabled(c, PersistSuccess(worker))
    ensures Inv(Apply(c, PersistSuccess(worker)))
  {
    hide ReportedOnce;
    ReportedKeeps(c, PersistSuccess(worker));
    AdvanceKeepsQueues(c, worker, None);
    var next := Apply(c, PersistSuccess(worker));
    forall w, i | w in next.workers && 0 <= i < |next.workers[w].queue|
      ensures Fenced(next, w, next.workers[w].queue[i])
    {
      var j := if w == worker then i + 1 else i;
      assert c.workers[w].queue[j] == next.workers[w].queue[i];
      assert Fenced(c, w, c.workers[w].queue[j]);
    }
  }

  lemma FailureKeeps(c: Cluster, worker: nat, now: int)
    requires Inv(c) && Enabled(c, PersistFailure(worker, now))
    ensures Inv(Apply(c, PersistFailure(worker, now)))
  {
    hide ReportedOnce;
    ReportedKeeps(c, PersistFailure(worker, now));
    AdvanceKeepsQueues(c, worker, Apply(c, PersistFailure(worker, now)).workers[worker].reporting);
    FailureFences(c, worker, now);
    assert Fenced(c, worker, c.workers[worker].queue[0]);
    hide Fences;
    hide DistinctQueues;
  }

  lemma FailureFences(c: Cluster, worker: nat, now: int)
    requires Inv(c) && Enabled(c, PersistFailure(worker, now))
    ensures Fences(Apply(c, PersistFailure(worker, now)))
  {
    hide ReportedOnce;
    hide Counted;
    hide PublishedAfterHandling;
    AdvanceKeepsQueues(c, worker, Apply(c, PersistFailure(worker, now)).workers[worker].reporting);
    var next := Apply(c, PersistFailure(worker, now));
    assert Fenced(c, worker, c.workers[worker].queue[0]);
    forall w, i | w in next.workers && 0 <= i < |next.workers[w].queue|
      ensures Fenced(next, w, next.workers[w].queue[i])
    {
      var j := if w == worker then i + 1 else i;
      assert c.workers[w].queue[j] == next.workers[w].queue[i];
      assert Fenced(c, w, c.workers[w].queue[j]);
    }
  }

  lemma InsertKeeps(c: Cluster, step: Step)
    requires Inv(c) && Enabled(c, step) && step.Insert?
    ensures Inv(Apply(c, step))
  {
    hide ReportedOnce;
    ReportedKeeps(c, step);
    var next := Apply(c, step);
    forall w, i | w in next.workers && 0 <= i < |next.workers[w].queue|
      ensures Fenced(next, w, next.workers[w].queue[i])
    {
      assert c.workers[w].queue[i] in c.workers[w].queue;
      assert Fenced(c, w, c.workers[w].queue[i]);
    }
  }

  lemma OtherKeeps(c: Cluster, step: Step)
    requires Inv(c) && Enabled(c, step)
    requires !step.ClaimBatch? && !step.PersistSuccess? && !step.PersistFailure? && !step.Insert?
    ensures Inv(Apply(c, step))
  {
    hide ReportedOnce;
    ReportedKeeps(c, step);
    var next := Apply(c, step);
    forall w, i | w in next.workers && 0 <= i < |next.workers[w].queue|
      ensures Fenced(next, w, next.workers[w].queue[i])
    {
      assert Fenced(c, w, c.workers[w].queue[i]);
    }
  }

  lemma StepKeeps(c: Cluster, step: Step)
    requires Inv(c) && Enabled(c, step)
    ensures Inv(Apply(c, step))
  {
    if step.ClaimBatch? {
      ClaimKeeps(c, step);
    } else if step.PersistSuccess? {
      SuccessKeeps(c, step.worker);
    } else if step.PersistFailure? {
      FailureKeeps(c, step.worker, step.now);
    } else if step.Insert? {
      InsertKeeps(c, step);
    } else {
      OtherKeeps(c, step);
    }
  }

  // ----- every run -----

  ghost predicate Legal(steps: seq<Step>)
    decreases |steps|, 0
  {
    steps == [] || (Legal(steps[..|steps| - 1]) && Enabled(After(steps[..|steps| - 1]), steps[|steps| - 1]))
  }

  ghost function After(steps: seq<Step>): Cluster
    requires Legal(steps)
    decreases |steps|, 1
  {
    if steps == [] then START else Apply(After(steps[..|steps| - 1]), steps[|steps| - 1])
  }

  lemma {:induction false} RunInv(steps: seq<Step>)
    requires Legal(steps)
    ensures Inv(After(steps))
  {
    if steps != [] {
      RunInv(steps[..|steps| - 1]);
      StepKeeps(After(steps[..|steps| - 1]), steps[|steps| - 1]);
    }
  }

  /** In every run: the attempt count of a row is the number of failures persisted for it, the tenth is
      reported at most once and only after ten, and what is published had a handler that finished. */
  lemma CountsAndReports(steps: seq<Step>, id: nat)
    requires Legal(steps)
    ensures var c := After(steps);
      && (id in c.table ==> c.table[id].attempts == Count(c.failures, id))
      && Count(c.reports, id) <= 1
      && (Count(c.reports, id) == 1 ==> Count(c.failures, id) >= REPORTED_ATTEMPT)
      && (id in c.table && c.table[id].published ==> id in c.handled)
  {
    RunInv(steps);
  }

  function WorkerIn(step: Step): Option<nat> {
    match step
    case Insert(_, _, _) => None
    case Prune(_) => None
    case _ => Some(step.worker)
  }

  /** What a worker does first. */
  function FirstMove(steps: seq<Step>, worker: nat): Option<Step> {
    if steps == [] then None
    else
      var before := FirstMove(steps[..|steps| - 1], worker);
      var last := steps[|steps| - 1];
      if before.Some? then before else if WorkerIn(last) == Some(worker) then Some(last) else None
  }

  ghost predicate Unreported(c: Cluster, id: nat) {
    id !in c.reports && Count(c.failures, id) >= REPORTED_ATTEMPT && forall w :: !Reporting(c, w, id)
  }

  /** Where a tenth failure stands, by what its worker has done since. */
  ghost predicate Stands(c: Cluster, id: nat, worker: nat, move: Option<Step>) {
    if move.None? then Reporting(c, worker, id) && id !in c.reports
    else if move.value.Report? then Count(c.reports, id) == 1
    else Unreported(c, id)
  }

  lemma StandsAfter(c: Cluster, step: Step, id: nat, worker: nat, move: Option<Step>)
    requires Inv(c) && Enabled(c, step) && Stands(c, id, worker, move)
    requires move.Some? ==> WorkerIn(move.value) == Some(worker)
    ensures Stands(Apply(c, step), id, worker,
                   if move.Some? then move else if WorkerIn(step) == Some(worker) then Some(step) else None)
  {
    var next := Apply(c, step);
    FailuresGrow(c, step, id);
    ReportedKeeps(c, step);
    forall w | Reporting(next, w, id) ensures Reporting(c, w, id) || Count(c.failures, id) + 1 == REPORTED_ATTEMPT {
      ReportingBefore(c, step, w, id);
    }
    ReportIsDue(c, step);
  }

  lemma {:induction false} TenthFailureStands(before: seq<Step>, worker: nat, now: int, id: nat, more: seq<Step>)
    requires Legal(before + [PersistFailure(worker, now)] + more) && Legal(before + [PersistFailure(worker, now)])
    requires Reporting(After(before + [PersistFailure(worker, now)]), worker, id)
    ensures Stands(After(before + [PersistFailure(worker, now)] + more), id, worker, FirstMove(more, worker))
    ensures FirstMove(more, worker).Some? ==> WorkerIn(FirstMove(more, worker).value) == Some(worker)
    decreases |more|
  {
    var start := before + [PersistFailure(worker, now)];
    var all := start + more;
    if more == [] {
      assert all == start;
      RunInv(start);
    } else {
      hide Inv;
      hide Apply;
      hide Enabled;
      hide Stands;
      hide Reporting;
      hide WorkerIn;
      var init := more[..|more| - 1];
      assert all[..|all| - 1] == start + init && all[|all| - 1] == more[|more| - 1];
      TenthFailureStands(before, worker, now, id, init);
      RunInv(start + init);
      StandsAfter(After(start + init), more[|more| - 1], id, worker, FirstMove(init, worker));
    }
  }

  /** A row's tenth failure has been reported exactly if the worker that persisted it went on to its report,
      and did not stop or fail first. */
  lemma TenthFailureIsReportedExactly(before: seq<Step>, worker: nat, now: int, id: nat, more: seq<Step>)
    requires Legal(before + [PersistFailure(worker, now)] + more) && Legal(before + [PersistFailure(worker, now)])
    requires Reporting(After(before + [PersistFailure(worker, now)]), worker, id)
    ensures Count(After(before + [PersistFailure(worker, now)] + more).reports, id) == 1
            <==> FirstMove(more, worker) == Some(Report(worker))
  {
    TenthFailureStands(before, worker, now, id, more);
  }

  /** The tenth persisted failure of a row, and no other, leaves its worker with a report to make. */
  lemma TenthFailureIsToBeReported(steps: seq<Step>, worker: nat, now: int)
    requires Legal(steps) && Enabled(After(steps), PersistFailure(worker, now))
    ensures var c, next := After(steps), Apply(After(steps), PersistFailure(worker, now));
      var id := WorkerOf(c, worker).queue[0].id;
      Reporting(next, worker, id) <==>
        Count(next.failures, id) == REPORTED_ATTEMPT && Count(c.failures, id) < REPORTED_ATTEMPT
  {
    RunInv(steps);
    assert Fenced(After(steps), worker, WorkerOf(After(steps), worker).queue[0]);
  }

  /** A row a worker owns still has the attempt count it read when it claimed it. */
  lemma OwnedRowsKeepCount(steps: seq<Step>, worker: nat, i: nat)
    requires Legal(steps)
    requires i < |WorkerOf(After(steps), worker).queue|
    requires Owns(After(steps).table, WorkerOf(After(steps), worker).queue[i].id, worker)
    ensures var held := WorkerOf(After(steps), worker).queue[i];
      After(steps).table[held.id].attempts == held.attempts
  {
    RunInv(steps);
    assert Fenced(After(steps), worker, WorkerOf(After(steps), worker).queue[i]);
  }

  /** A worker whose claim was taken over changes no row, counts no failure and reports nothing:
      only the latest claim of a row can settle it. */
  lemma OnlyLatestClaimSettles(steps: seq<Step>, step: Step)
    requires Legal(steps) && Enabled(After(steps), step)
    requires step.PersistSuccess? || step.PersistFailure? || step.PublishThrows?
    ensures var c, next := After(steps), Apply(After(steps), step);
      var held := WorkerOf(c, step.worker).queue[0];
      && (held.id !in c.tickets || c.tickets[held.id] != held.ticket ==>
            next.table == c.table && next.failures == c.failures && next.reports == c.reports
            && WorkerOf(next, step.worker).reporting.None?)
      && (forall id | id in c.table && id != held.id :: id in next.table && next.table[id] == c.table[id])
  {
    RunInv(steps);
    assert Fenced(After(steps), step.worker, WorkerOf(After(steps), step.worker).queue[0]);
  }
}
