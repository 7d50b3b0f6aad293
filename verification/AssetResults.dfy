/** What becomes of an asset's row: which result decides its status, where that result comes from, and that
    rows do get ready. */
module AssetResults {
  import opened AssetProtocol
  import opened AssetHandling

  // ----- a batch -----

  /** The message at this place of the batch is about the asset and is not given up. */
  ghost predicate Speaks(queue: Queue, received: seq<nat>, fate: nat -> Fate, asset: nat, i: nat) {
    && i < |received| && received[i] in queue.messages
    && !fate(received[i]).GivenUp? && queue.messages[received[i]].asset == asset
  }

  ghost predicate Silent(queue: Queue, received: seq<nat>, fate: nat -> Fate, asset: nat) {
    forall i: nat :: !Speaks(queue, received, fate, asset, i)
  }

  ghost predicate SpeaksFirst(queue: Queue, received: seq<nat>, fate: nat -> Fate, asset: nat, i: nat) {
    && Speaks(queue, received, fate, asset, i)
    && forall j: nat | j < i :: !Speaks(queue, received, fate, asset, j)
  }

  /** The first message of the batch about a pending row says what the row becomes; without one, and where the row
      is not pending, it stays. */
  ghost predicate FirstDecides(before: Row, after: Row, queue: Queue, received: seq<nat>, fate: nat -> Fate,
                               asset: nat)
  {
    && (before.status != PendingUpload || Silent(queue, received, fate, asset) ==> after == before)
    && (forall i: nat | before.status == PendingUpload && SpeaksFirst(queue, received, fate, asset, i) ::
          after == Row(if queue.messages[received[i]].ready then Ready else Rejected, before.createdAt))
  }

  ghost predicate ResultsDecide(before: World, received: seq<nat>, fate: nat -> Fate, after: map<nat, Row>) {
    && after.Keys == before.ids.rows.Keys
    && forall a | a in before.ids.rows ::
         FirstDecides(before.ids.rows[a], after[a], before.queue, received, fate, a)
  }

  /** An object goes exactly if its row is gone and a ready result about it is handled. */
  ghost predicate OrphanResult(w: World, received: seq<nat>, fate: nat -> Fate, asset: nat) {
    asset !in w.ids.rows && exists i: nat ::
      Speaks(w.queue, received, fate, asset, i) && w.queue.messages[received[i]].ready
  }

  ghost predicate OrphansDeleted(before: World, received: seq<nat>, fate: nat -> Fate, after: set<nat>) {
    forall a: nat :: a in after <==> a in before.store.normalized && !OrphanResult(before, received, fate, a)
  }

  lemma {:induction false} SomeoneSpeaksFirst(queue: Queue, received: seq<nat>, fate: nat -> Fate, asset: nat, k: nat)
    returns (i: nat)
    requires Speaks(queue, received, fate, asset, k)
    ensures SpeaksFirst(queue, received, fate, asset, i)
  {
    i := k;
    if j: nat :| j < k && Speaks(queue, received, fate, asset, j) {
      i := SomeoneSpeaksFirst(queue, received, fate, asset, j);
    }
  }

  lemma SpeaksInMore(queue: Queue, init: seq<nat>, m: nat, fate: nat -> Fate, asset: nat)
    ensures forall i: nat | i < |init| ::
      Speaks(queue, init + [m], fate, asset, i) <==> Speaks(queue, init, fate, asset, i)
    ensures forall i: nat | i > |init| :: !Speaks(queue, init + [m], fate, asset, i)
    ensures Speaks(queue, init + [m], fate, asset, |init|) <==>
      m in queue.messages && !fate(m).GivenUp? && queue.messages[m].asset == asset
  {
  }

  /** One message more: it decides a row that is still pending. */
  lemma OneMore(queue: Queue, init: seq<nat>, m: nat, fate: nat -> Fate, asset: nat, before: Row, mid: Row, after: Row)
    requires m in queue.messages && FirstDecides(before, mid, queue, init, fate, asset)
    requires after ==
      if !fate(m).GivenUp? && queue.messages[m].asset == asset && mid.status == PendingUpload
      then Row(if queue.messages[m].ready then Ready else Rejected, mid.createdAt) else mid
    ensures FirstDecides(before, after, queue, init + [m], fate, asset)
  {
    SpeaksInMore(queue, init, m, fate, asset);
    if before.status == PendingUpload && !Silent(queue, init, fate, asset) {
      var k: nat :| Speaks(queue, init, fate, asset, k);
      var i := SomeoneSpeaksFirst(queue, init, fate, asset, k);
      assert mid.status != PendingUpload;
    }
    forall i: nat | before.status == PendingUpload && SpeaksFirst(queue, init + [m], fate, asset, i)
      ensures after == Row(if queue.messages[(init + [m])[i]].ready then Ready else Rejected, before.createdAt)
    {
      if i < |init| {
        assert SpeaksFirst(queue, init, fate, asset, i);
      } else {
        assert Silent(queue, init, fate, asset);
      }
    }
  }

  lemma RowsAfterOne(w: World, message: nat, acknowledged: bool)
    requires message in w.queue.messages
    ensures var next, m := Handled(w, message, acknowledged), w.queue.messages[message];
      && next.ids.rows.Keys == w.ids.rows.Keys
      && (forall a | a in w.ids.rows :: next.ids.rows[a] ==
            if a == m.asset && w.ids.rows[a].status == PendingUpload
            then Row(if m.ready then Ready else Rejected, w.ids.rows[a].createdAt) else w.ids.rows[a])
  {
    hide LeftInQueue;
  }

  lemma ObjectsAfterOne(w: World, message: nat, acknowledged: bool)
    requires message in w.queue.messages
    ensures var next, m := Handled(w, message, acknowledged), w.queue.messages[message];
      forall a :: a in next.store.normalized <==>
        a in w.store.normalized && !(a == m.asset && m.asset !in w.ids.rows && m.ready)
  {
    hide LeftInQueue;
  }

  lemma NothingSaid(w: World, fate: nat -> Fate)
    ensures ResultsDecide(w, [], fate, w.ids.rows) && OrphansDeleted(w, [], fate, w.store.normalized)
  {
    forall a, i: nat ensures !Speaks(w.queue, [], fate, a, i) {
    }
  }

  lemma {:induction false} BatchDecides(w: World, received: seq<nat>, fate: nat -> Fate)
    requires Waiting(w.queue, received)
    ensures ResultsDecide(w, received, fate, HandledAll(w, received, fate).ids.rows)
    ensures OrphansDeleted(w, received, fate, HandledAll(w, received, fate).store.normalized)
    decreases |received|
  {
    hide Handled;
    if received == [] {
      NothingSaid(w, fate);
    } else {
      var m := received[|received| - 1];
      var init := received[..|received| - 1];
      assert received == init + [m];
      BatchFrame(w, init, fate);
      BatchDecides(w, init, fate);
      var before, after := HandledAll(w, init, fate), HandledAll(w, received, fate);
      StillWaiting(w.queue, init, fate, before.queue, m);
      if !fate(m).GivenUp? {
        RowsAfterOne(before, m, fate(m).Acknowledged?);
        ObjectsAfterOne(before, m, fate(m).Acknowledged?);
      }
      assert before.queue.messages[m].asset == w.queue.messages[m].asset;
      assert before.queue.messages[m].ready == w.queue.messages[m].ready;
      forall a | a in w.ids.rows ensures FirstDecides(w.ids.rows[a], after.ids.rows[a], w.queue, received, fate, a) {
        OneMore(w.queue, init, m, fate, a, w.ids.rows[a], before.ids.rows[a], after.ids.rows[a]);
      }
      OneMoreOrphan(w, init, m, fate, before.store.normalized, after.store.normalized);
    }
  }

  lemma OneMoreOrphan(w: World, init: seq<nat>, m: nat, fate: nat -> Fate, mid: set<nat>, after: set<nat>)
    requires m in w.queue.messages && OrphansDeleted(w, init, fate, mid)
    requires var message := w.queue.messages[m];
      forall a :: a in after <==>
        a in mid && !(!fate(m).GivenUp? && a == message.asset && a !in w.ids.rows && message.ready)
    ensures OrphansDeleted(w, init + [m], fate, after)
  {
    forall a: nat ensures OrphanResult(w, init + [m], fate, a) <==>
      || OrphanResult(w, init, fate, a)
      || (a !in w.ids.rows && !fate(m).GivenUp? && a == w.queue.messages[m].asset && w.queue.messages[m].ready)
    {
      SpeaksInMore(w.queue, init, m, fate, a);
      if i: nat :| Speaks(w.queue, init, fate, a, i) && w.queue.messages[init[i]].ready {
        assert Speaks(w.queue, init + [m], fate, a, i) && (init + [m])[i] == init[i];
      }
      assert (init + [m])[|init|] == m;
    }
  }

  // ----- whole runs -----

  /** A result of this kind is in the queue, in some handler's hands or in the row. */
  ghost predicate Told(w: World, a: nat, ready: bool) {
    || InQueue(w.queue, a, ready) || InHands(w.handlers, a, ready)
    || InRow(w.ids.rows, a, ready)
  }

  ghost predicate InRow(rows: map<nat, Row>, a: nat, ready: bool) {
    a in rows && rows[a].status == if ready then Ready else Rejected
  }

  ghost predicate Sends(w: World, step: Step, a: nat, ready: bool) {
    && Enabled(w, step) && step.Normalize?
    && (if ready then step.normalize.SendReady? else step.normalize.SendRejected?)
    && w.normalizers[step.normalize.normalizer].asset == a
  }

  ghost predicate InHands(handlers: map<nat, Handler>, a: nat, ready: bool) {
    exists h :: h in handlers && handlers[h].asset == a && handlers[h].ready == ready
  }

  ghost predicate InQueue(queue: Queue, a: nat, ready: bool) {
    exists m :: m in queue.messages && queue.messages[m].asset == a && queue.messages[m].ready == ready
  }

  lemma HandsFromQueue(w: World, step: ConsumerStep, a: nat, ready: bool)
    requires ConsumerEnabled(w, step) && InHands(ConsumerApply(w, step).handlers, a, ready)
    ensures InHands(w.handlers, a, ready) || InQueue(w.queue, a, ready)
  {
    hide Settled;
    var next := ConsumerApply(w, step);
    var h :| h in next.handlers && next.handlers[h].asset == a && next.handlers[h].ready == ready;
    assert h !in w.handlers ==> step.Receive? && step.handler == h;
  }

  lemma QueueFromQueue(w: World, step: ConsumerStep, a: nat, ready: bool)
    requires ConsumerEnabled(w, step) && InQueue(ConsumerApply(w, step).queue, a, ready)
    ensures InQueue(w.queue, a, ready)
  {
    hide Settled;
    if step.handler in w.handlers {
      SettledMarksOne(w.queue, w.handlers[step.handler].message);
    }
    var next := ConsumerApply(w, step);
    var m :| m in next.queue.messages && next.queue.messages[m].asset == a && next.queue.messages[m].ready == ready;
    assert w.queue.messages[m].asset == a && w.queue.messages[m].ready == ready;
  }

  lemma RowFromHands(w: World, step: ConsumerStep, a: nat, ready: bool)
    requires ConsumerEnabled(w, step)
    requires InRow(ConsumerApply(w, step).ids.rows, a, ready)
    ensures InRow(w.ids.rows, a, ready) || InHands(w.handlers, a, ready)
  {
    hide Settled;
  }

  lemma ToldByConsumer(w: World, step: ConsumerStep, a: nat, ready: bool)
    requires ConsumerEnabled(w, step) && Told(ConsumerApply(w, step), a, ready)
    ensures Told(w, a, ready)
  {
    hide ConsumerApply;
    hide ConsumerEnabled;
    hide InHands;
    hide InQueue;
    var next := ConsumerApply(w, step);
    if InHands(next.handlers, a, ready) {
      HandsFromQueue(w, step, a, ready);
    } else if InQueue(next.queue, a, ready) {
      QueueFromQueue(w, step, a, ready);
    } else {
      RowFromHands(w, step, a, ready);
    }
  }

  lemma ToldByNormalizer(w: World, step: NormalizerStep, a: nat, ready: bool)
    requires NormalizerEnabled(w, step) && !Told(w, a, ready) && Told(NormalizerApply(w, step), a, ready)
    ensures Sends(w, Normalize(step), a, ready)
  {
  }

  lemma NotToldByOthers(w: World, step: Step, a: nat, ready: bool)
    requires Enabled(w, step) && (step.Client? || step.PurgeAsset?) && Told(Apply(w, step), a, ready)
    ensures Told(w, a, ready)
  {
    hide InHands;
    hide InQueue;
  }

  lemma ToldByStep(w: World, step: Step, a: nat, ready: bool)
    requires Enabled(w, step) && !Told(w, a, ready) && Told(Apply(w, step), a, ready)
    ensures Sends(w, step, a, ready)
  {
    hide Told;
    hide Sends;
    hide ConsumerApply;
    hide NormalizerApply;
    hide ClientApply;
    hide PurgeApply;
    match step
    case Consume(s) =>
      ToldByConsumer(w, s, a, ready);
    case Normalize(s) =>
      ToldByNormalizer(w, s, a, ready);
    case _ =>
      NotToldByOthers(w, step, a, ready);
  }

  ghost predicate SentAt(w: World, steps: seq<Step>, i: nat, v: World, a: nat, ready: bool) {
    i < |steps| && Reaches(w, steps[..i], v) && Sends(v, steps[i], a, ready)
  }

  /** Nobody is told of a result that no normalizer sent. */
  lemma {:induction false} ToldBecauseSent(w: World, steps: seq<Step>, end: World, a: nat, ready: bool)
    returns (i: nat, v: World)
    requires Reaches(w, steps, end) && !Told(w, a, ready) && Told(end, a, ready)
    ensures SentAt(w, steps, i, v, a, ready)
    decreases |steps|
  {
    hide Told;
    hide Apply;
    hide Enabled;
    hide Sends;
    var next := Apply(w, steps[0]);
    if Told(next, a, ready) {
      ToldByStep(w, steps[0], a, ready);
      i, v := 0, w;
    } else {
      i, v := ToldBecauseSent(next, steps[1..], end, a, ready);
      ReachesCons(w, steps[0], steps[1..][..i], v);
      i := i + 1;
      assert [steps[0]] + steps[1..][..i - 1] == steps[..i];
    }
  }

  /** A row is ready only after a normalizer sent a ready result for it, and rejected only after a rejected one. */
  lemma StatusWasSent(now: int, grace: int, steps: seq<Step>, w: World, a: nat) returns (i: nat, v: World)
    requires Reaches(Start(now, grace), steps, w) && a in w.ids.rows && w.ids.rows[a].status != PendingUpload
    ensures SentAt(Start(now, grace), steps, i, v, a, w.ids.rows[a].status == Ready)
  {
    i, v := ToldBecauseSent(Start(now, grace), steps, w, a, w.ids.rows[a].status == Ready);
  }

  // ----- rows do get ready -----

  lemma Chain(w: World, steps: seq<Step>, mid: World, step: Step)
    requires Reaches(w, steps, mid) && Enabled(mid, step)
    ensures Reaches(w, steps + [step], Apply(mid, step))
    decreases |steps|
  {
    if steps == [] {
      assert [] + [step] == [step] && [step][1..] == [];
    } else {
      Chain(Apply(w, steps[0]), steps[1..], mid, step);
      assert (steps + [step])[1..] == steps[1..] + [step];
    }
  }

  function Uploaded(now: int, grace: int): World {
    World(now, grace, Ids(map[], map[0 := now + URL_LIFETIME], map[0 := Row(PendingUpload, now)], map[]),
          Store({0}, {}, {0}), map[], map[], Queue(map[], 0), map[])
  }

  lemma UploadIsReached(now: int, grace: int) returns (steps: seq<Step>)
    requires grace >= 0
    ensures Reaches(Start(now, grace), steps, Uploaded(now, grace))
  {
    var s := Start(now, grace);
    var signed := Apply(s, Client(SignUrl(0)));
    var created := Apply(signed, Client(CreateRow(0)));
    assert Apply(created, Client(Upload(0))) == Uploaded(now, grace);
    assert Reaches(s, [], s);
    hide Reaches;
    Chain(s, [], s, Client(SignUrl(0)));
    Chain(s, [] + [Client(SignUrl(0))], signed, Client(CreateRow(0)));
    steps := [] + [Client(SignUrl(0))] + [Client(CreateRow(0))];
    Chain(s, steps, created, Client(Upload(0)));
    steps := steps + [Client(Upload(0))];
  }

  lemma {:induction false} Joined(w: World, steps: seq<Step>, mid: World, more: seq<Step>, end: World)
    requires Reaches(w, steps, mid) && Reaches(mid, more, end)
    ensures Reaches(w, steps + more, end)
    decreases |steps|
  {
    if steps == [] {
      assert steps + more == more;
    } else {
      hide Apply;
      hide Enabled;
      Joined(Apply(w, steps[0]), steps[1..], mid, more, end);
      assert (steps + more)[1..] == steps[1..] + more;
    }
  }

  /** An upload whose result arrives: its row gets the status the normalizer found. */
  lemma RowsGetTheirStatus(now: int, grace: int, ready: bool) returns (steps: seq<Step>, w: World)
    requires grace >= 0
    ensures Reaches(Start(now, grace), steps, w)
    ensures 0 in w.ids.rows && w.ids.rows[0].status == if ready then Ready else Rejected
    ensures ready ==> 0 in w.store.normalized
  {
    var uploaded := Uploaded(now, grace);
    steps := UploadIsReached(now, grace);
    NormalizerIsARun(uploaded, 0, 0, ready);
    var sent := Normalized(uploaded, 0, ready);
    assert sent.queue.messages == map[0 := Message(0, ready, false)];
    HandledIsARun(sent, 0, 0, true);
    w := Handled(sent, 0, true);
    assert w.ids.rows[0].status == if ready then Ready else Rejected;
    hide Reaches;
    Joined(Start(now, grace), steps, uploaded, NormalizerSteps(0, 0, ready), sent);
    steps := steps + NormalizerSteps(0, 0, ready);
    Joined(Start(now, grace), steps, sent, HandlingSteps(sent, 0, 0, true), w);
    steps := steps + HandlingSteps(sent, 0, 0, true);
  }
}
