/** The lease of a claim: when two workers can be at the same event. */
module OutboxLeases {
  import opened Queries
  import opened OutboxTable
  import opened OutboxWorkers

  /** The database's clock, which decides what is claimable and how long a lease runs, does not go back. */
  ghost predicate Clocked(steps: seq<Step>) {
    forall i, j | 0 <= i < j < |steps| && steps[i].ClaimBatch? && steps[j].ClaimBatch? :: steps[i].now <= steps[j].now
  }

  ghost predicate Holds(c: Cluster, worker: nat, held: Held) {
    worker in c.workers && held in c.workers[worker].queue
  }

  /** Every claim has its ticket and time, in order. */
  ghost predicate Timed(c: Cluster) {
    && (forall t: nat :: t in c.claimedAt <==> t < c.issued)
    && (forall t: nat, u: nat | t < u < c.issued && t in c.claimedAt && u in c.claimedAt ::
          c.claimedAt[t] <= c.claimedAt[u])
    && (forall w, held | Holds(c, w, held) :: held.ticket < c.issued)
  }

  /** The lease of the ticket had run out when the latest claim was made. */
  ghost predicate RanOut(c: Cluster, ticket: nat) {
    && ticket in c.claimedAt && c.issued > 0 && c.issued - 1 in c.claimedAt
    && c.claimedAt[ticket] + CLAIM_LEASE <= c.claimedAt[c.issued - 1]
  }

  /** What a worker holds it has locked for its lease, unless that has run out or the event is settled. */
  ghost predicate Leased(c: Cluster, worker: nat, held: Held) {
    Unpublished(c.table, held.id) && held.ticket in c.claimedAt ==>
      || RanOut(c, held.ticket)
      || (&& c.table[held.id].lockedBy == Some(worker)
          && c.table[held.id].lockedUntil == Some(c.claimedAt[held.ticket] + CLAIM_LEASE))
  }

  ghost predicate Apart(c: Cluster, earlier: nat, later: nat) {
    earlier in c.claimedAt && later in c.claimedAt && c.claimedAt[earlier] + CLAIM_LEASE <= c.claimedAt[later]
  }

  ghost predicate HeldApart(c: Cluster) {
    forall v, w, a, b | Holds(c, v, a) && Holds(c, w, b) && v != w && a.id == b.id ::
      if a.ticket < b.ticket then Apart(c, a.ticket, b.ticket) else Apart(c, b.ticket, a.ticket)
  }

  ghost predicate LeaseInv(c: Cluster) {
    && Timed(c) && HeldApart(c)
    && (forall w, held | Holds(c, w, held) :: Leased(c, w, held))
  }

  // ----- every step keeps the leases -----

  /** No claim is earlier than the latest one before it. */
  ghost predicate OnTime(c: Cluster, step: Step) {
    step.ClaimBatch? && c.issued > 0 && c.issued - 1 in c.claimedAt ==> c.claimedAt[c.issued - 1] <= step.now
  }

  /** What is held after a step that claims nothing was held before. */
  lemma HeldBefore(c: Cluster, step: Step, w: nat, held: Held)
    requires Enabled(c, step) && !step.ClaimBatch? && Holds(Apply(c, step), w, held)
    ensures Holds(c, w, held)
  {
  }

  /** Without a claim an unpublished row changes only when it comes in or when its owner's failure unlocks it. */
  lemma RowAfter(c: Cluster, step: Step, id: nat)
    requires Enabled(c, step) && !step.ClaimBatch? && Unpublished(Apply(c, step).table, id)
    ensures
      || (step.Insert? && step.id == id && forall w, held | Holds(c, w, held) :: held.id != id)
      || (Unpublished(c.table, id) && Apply(c, step).table[id] == c.table[id])
      || (&& step.PersistFailure? && Unpublished(c.table, id) && c.table[id].lockedBy == Some(step.worker)
          && id == WorkerOf(c, step.worker).queue[0].id)
  {
  }

  lemma SettledIsNotHeld(c: Cluster, step: Step, held: Held)
    requires DistinctQueues(c) && Enabled(c, step) && step.PersistFailure?
    requires Holds(Apply(c, step), step.worker, held)
    ensures held.id != WorkerOf(c, step.worker).queue[0].id
  {
    AdvanceKeepsQueues(c, step.worker, None);
  }

  lemma SameClaims(c: Cluster, step: Step)
    requires Enabled(c, step) && !step.ClaimBatch?
    ensures Apply(c, step).claimedAt == c.claimedAt && Apply(c, step).issued == c.issued
  {
  }

  lemma OtherLeases(c: Cluster, step: Step, w: nat, held: Held)
    requires Inv(c) && LeaseInv(c) && Enabled(c, step) && !step.ClaimBatch?
    requires Holds(Apply(c, step), w, held)
    ensures Leased(Apply(c, step), w, held)
  {
    HeldBefore(c, step, w, held);
    SameClaims(c, step);
    assert Leased(c, w, held);
    if Unpublished(Apply(c, step).table, held.id) {
      RowAfter(c, step, held.id);
      if step.PersistFailure? && step.worker == w {
        SettledIsNotHeld(c, step, held);
      }
    }
    hide Apply;
    hide Enabled;
    hide Inv;
    hide Holds;
    hide Timed;
    hide HeldApart;
  }

  lemma OtherStepKeeps(c: Cluster, step: Step)
    requires Inv(c) && LeaseInv(c) && Enabled(c, step) && !step.ClaimBatch?
    ensures LeaseInv(Apply(c, step))
  {
    hide Apply;
    hide Enabled;
    hide Leased;
    hide Inv;
    hide Holds;
    var next := Apply(c, step);
    SameClaims(c, step);
    forall w, held | Holds(next, w, held) ensures Leased(next, w, held) && Holds(c, w, held) {
      OtherLeases(c, step, w, held);
      HeldBefore(c, step, w, held);
    }
  }

  lemma ClaimHolds(c: Cluster, step: Step, w: nat, held: Held)
    requires Enabled(c, step) && step.ClaimBatch? && Holds(Apply(c, step), w, held)
    ensures w == step.worker ==> held.ticket == c.issued && held.id in step.ids && held.id in c.table
                                 && Claimable(c.table[held.id], step.now)
    ensures w != step.worker ==> Holds(c, w, held)
  {
    if w == step.worker {
      var i :| 0 <= i < |step.ids| && held == Held(step.ids[i], c.table[step.ids[i]].attempts, c.issued);
      assert step.ids[i] in step.ids;
    }
  }

  lemma ClaimIsTimed(c: Cluster, step: Step)
    requires LeaseInv(c) && Enabled(c, step) && step.ClaimBatch? && OnTime(c, step)
    ensures Timed(Apply(c, step))
  {
    var next := Apply(c, step);
    forall w, held | Holds(next, w, held) ensures held.ticket < next.issued {
      ClaimHolds(c, step, w, held);
    }
    forall t: nat | t < c.issued ensures next.claimedAt[t] == c.claimedAt[t] <= step.now {
      assert t in c.claimedAt && c.issued - 1 in c.claimedAt;
    }
  }

  /** A row that is claimed was locked by nobody whose lease had not run out. */
  lemma ClaimLeases(c: Cluster, step: Step, w: nat, held: Held)
    requires LeaseInv(c) && Enabled(c, step) && step.ClaimBatch? && OnTime(c, step)
    requires Holds(Apply(c, step), w, held)
    ensures Leased(Apply(c, step), w, held)
    ensures w != step.worker && held.id in step.ids ==> Apart(Apply(c, step), held.ticket, c.issued)
  {
    hide Holds;
    hide HeldApart;
    hide Timed;
    ClaimHolds(c, step, w, held);
    if w != step.worker {
      assert held.ticket < c.issued && held.ticket in c.claimedAt && c.issued - 1 in c.claimedAt by {
        TicketsTimed(c, w, held);
      }
      assert Leased(c, w, held);
    }
  }

  lemma TicketsTimed(c: Cluster, w: nat, held: Held)
    requires Timed(c) && Holds(c, w, held)
    ensures held.ticket < c.issued && held.ticket in c.claimedAt && c.issued - 1 in c.claimedAt
  {
  }

  lemma ClaimKeepsApart(c: Cluster, step: Step)
    requires LeaseInv(c) && Enabled(c, step) && step.ClaimBatch? && OnTime(c, step)
    ensures HeldApart(Apply(c, step))
  {
    var next := Apply(c, step);
    forall v, w, a, b | Holds(next, v, a) && Holds(next, w, b) && v != w && a.id == b.id
      ensures if a.ticket < b.ticket then Apart(next, a.ticket, b.ticket) else Apart(next, b.ticket, a.ticket)
    {
      ClaimHolds(c, step, v, a);
      ClaimHolds(c, step, w, b);
      ClaimLeases(c, step, v, a);
      ClaimLeases(c, step, w, b);
    }
  }

  lemma LeaseStep(c: Cluster, step: Step)
    requires Inv(c) && LeaseInv(c) && Enabled(c, step) && OnTime(c, step)
    ensures LeaseInv(Apply(c, step))
  {
    if step.ClaimBatch? {
      ClaimIsTimed(c, step);
      ClaimKeepsApart(c, step);
      forall w, held | Holds(Apply(c, step), w, held) ensures Leased(Apply(c, step), w, held) {
        ClaimLeases(c, step, w, held);
      }
    } else {
      OtherStepKeeps(c, step);
    }
  }

  // ----- every run -----

  ghost function LatestClaim(steps: seq<Step>): Option<int> {
    if steps == [] then None
    else if steps[|steps| - 1].ClaimBatch? then Some(steps[|steps| - 1].now)
    else LatestClaim(steps[..|steps| - 1])
  }

  lemma {:induction false} LatestIsAClaim(steps: seq<Step>) returns (k: nat)
    requires LatestClaim(steps).Some?
    ensures k < |steps| && steps[k].ClaimBatch? && LatestClaim(steps) == Some(steps[k].now)
  {
    k := |steps| - 1;
    if !steps[k].ClaimBatch? {
      k := LatestIsAClaim(steps[..k]);
    }
  }

  lemma ClockedLast(steps: seq<Step>)
    requires Clocked(steps) && steps != []
    ensures Clocked(steps[..|steps| - 1])
    ensures var latest := LatestClaim(steps[..|steps| - 1]);
      steps[|steps| - 1].ClaimBatch? && latest.Some? ==> latest.value <= steps[|steps| - 1].now
  {
    var init := steps[..|steps| - 1];
    assert forall i | 0 <= i < |init| :: init[i] == steps[i];
    if steps[|steps| - 1].ClaimBatch? && LatestClaim(init).Some? {
      var k := LatestIsAClaim(init);
    }
  }

  ghost predicate LatestIs(c: Cluster, latest: Option<int>) {
    if c.issued == 0 then latest.None?
    else c.issued - 1 in c.claimedAt && latest == Some(c.claimedAt[c.issued - 1])
  }

  lemma LatestAfter(c: Cluster, step: Step, latest: Option<int>)
    requires Enabled(c, step) && LatestIs(c, latest)
    ensures LatestIs(Apply(c, step), if step.ClaimBatch? then Some(step.now) else latest)
  {
    if !step.ClaimBatch? {
      SameClaims(c, step);
    }
  }

  lemma StartLeases()
    ensures LeaseInv(START) && LatestIs(START, None)
  {
    assert forall w, held :: !Holds(START, w, held);
  }

  lemma {:induction false} RunLeases(steps: seq<Step>)
    requires Legal(steps) && Clocked(steps)
    ensures LeaseInv(After(steps)) && LatestIs(After(steps), LatestClaim(steps))
  {
    if steps == [] {
      StartLeases();
    } else {
      hide Apply;
      hide Enabled;
      hide Inv;
      hide LeaseInv;
      hide Clocked;
      var init, step := steps[..|steps| - 1], steps[|steps| - 1];
      ClockedLast(steps);
      RunLeases(init);
      RunInv(init);
      LeaseStep(After(init), step);
      LatestAfter(After(init), step, LatestClaim(init));
    }
  }

  /** The worker runs its handler on the event, claimed at this time. */
  ghost predicate Handles(c: Cluster, worker: nat, id: nat, claimed: int) {
    && WorkerOf(c, worker).queue != [] && WorkerOf(c, worker).outcome.None?
    && var held := WorkerOf(c, worker).queue[0];
      held.id == id && held.ticket in c.claimedAt && c.claimedAt[held.ticket] == claimed
  }

  /** Two workers handle the same event at once only if the earlier claim's five minutes had passed when the
      later one was made. */
  lemma HandlersAreApart(steps: seq<Step>, v: nat, w: nat, id: nat, earlier: int, later: int)
    requires Legal(steps) && Clocked(steps) && v != w && earlier <= later
    requires Handles(After(steps), v, id, earlier) && Handles(After(steps), w, id, later)
    ensures earlier + CLAIM_LEASE <= later
  {
    RunLeases(steps);
    var c := After(steps);
    assert Holds(c, v, WorkerOf(c, v).queue[0]) && Holds(c, w, WorkerOf(c, w).queue[0]);
  }

  ghost predicate Overlap(steps: seq<Step>, id: nat, earlier: int, later: int) {
    && Legal(steps) && Clocked(steps)
    && exists v, w :: v != w && Handles(After(steps), v, id, earlier) && Handles(After(steps), w, id, later)
  }

  lemma Snoc(steps: seq<Step>, step: Step)
    requires Legal(steps) && Enabled(After(steps), step)
    ensures Legal(steps + [step]) && After(steps + [step]) == Apply(After(steps), step)
  {
    assert (steps + [step])[..|steps|] == steps;
  }

  /** From then on a second worker does get to handle the event besides the first. */
  lemma LeaseRunsOut(id: nat, earlier: int, later: int) returns (steps: seq<Step>)
    requires earlier + CLAIM_LEASE <= later
    ensures Overlap(steps, id, earlier, later)
  {
    var insert, first, second := Insert(id, earlier, earlier), ClaimBatch(0, [id], earlier), ClaimBatch(1, [id], later);
    var event := Event(false, 0, earlier, earlier, Some(0), Some(earlier + CLAIM_LEASE));
    var inserted, claimed := Apply(START, insert), Apply(Apply(START, insert), first);
    assert claimed.table == map[id := event];
    var both := Apply(claimed, second);
    assert Handles(both, 0, id, earlier) && Handles(both, 1, id, later);
    hide Apply;
    hide Enabled;
    hide Handles;
    Snoc([], insert);
    assert [] + [insert] == [insert];
    Snoc([insert], first);
    Snoc([insert] + [first], second);
    steps := [insert] + [first] + [second];
  }

  /** So whether two claims of an event can be at work at once is decided by the five minutes alone. */
  lemma OverlapExactly(id: nat, earlier: int, later: int)
    requires earlier <= later
    ensures (exists steps :: Overlap(steps, id, earlier, later)) <==> earlier + CLAIM_LEASE <= later
  {
    if steps :| Overlap(steps, id, earlier, later) {
      var v, w :| v != w && Handles(After(steps), v, id, earlier) && Handles(After(steps), w, id, later);
      HandlersAreApart(steps, v, w, id, earlier, later);
    }
    if earlier + CLAIM_LEASE <= later {
      var steps := LeaseRunsOut(id, earlier, later);
    }
  }
}
