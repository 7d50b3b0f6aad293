/** What the consumer and the normalizer do with one message, a batch or an upload, each as a run of protocol
    steps that nobody interrupts. */
module AssetHandling {
  import opened AssetProtocol

  // ----- the consumer's handling of one message -----

  function StatusFor(ready: bool): Status {
    if ready then Ready else Rejected
  }

  /** The queue after a message was handled; without an acknowledgement it will be received again. */
  function LeftInQueue(queue: Queue, message: nat, acknowledged: bool): Queue {
    if acknowledged then queue.(messages := queue.messages - {message}) else Settled(queue, message)
  }

  /** One message handled to its end: the row takes the result while it is pending, an object
      without a row is deleted, and the message is acknowledged, or that last call fails. */
  function Handled(w: World, message: nat, acknowledged: bool): World
    requires message in w.queue.messages
  {
    var m := w.queue.messages[message];
    var rest := LeftInQueue(w.queue, message, acknowledged);
    if m.asset in w.ids.rows && w.ids.rows[m.asset].status.PendingUpload?
    then
      var row := w.ids.rows[m.asset].(status := StatusFor(m.ready));
      w.(ids := w.ids.(rows := w.ids.rows[m.asset := row]), queue := rest)
    else if m.asset !in w.ids.rows && m.ready
    then w.(store := w.store.(normalized := w.store.normalized - {m.asset}), queue := rest)
    else w.(queue := rest)
  }

  function LastStep(handler: nat, acknowledged: bool): Step {
    Consume(if acknowledged then Acknowledge(handler) else DropHandler(handler))
  }

  /** The same as protocol steps of a handler of its own. */
  function HandlingSteps(w: World, message: nat, handler: nat, acknowledged: bool): seq<Step>
    requires message in w.queue.messages
  {
    var m := w.queue.messages[message];
    var start := [Consume(Receive(handler, message)), Consume(UpdateRow(handler))];
    var last := LastStep(handler, acknowledged);
    if m.asset in w.ids.rows && w.ids.rows[m.asset].status.PendingUpload?
    then start + [last]
    else if m.asset !in w.ids.rows && m.ready
    then start + [Consume(CheckRow(handler)), Consume(DeleteOrphan(handler)), last]
    else start + [Consume(CheckRow(handler)), last]
  }

  /** The world while a handler of its own works on the message. */
  function InHand(w: World, message: nat, handler: nat, stage: HandlerStage): World
    requires message in w.queue.messages
  {
    var m := w.queue.messages[message];
    w.(handlers := w.handlers[handler := Handler(message, m.asset, m.ready, stage)],
       queue := if stage.Done? then Settled(w.queue, message) else w.queue)
  }

  lemma LastStepEnds(w: World, message: nat, handler: nat, acknowledged: bool)
    requires message in w.queue.messages && handler !in w.handlers
    ensures var done := InHand(w, message, handler, Done);
            && Enabled(done, LastStep(handler, acknowledged))
            && Reaches(done, [LastStep(handler, acknowledged)],
                 w.(queue := LeftInQueue(w.queue, message, acknowledged)))
  {
    var done := InHand(w, message, handler, Done);
    var step := LastStep(handler, acknowledged);
    var end := Apply(done, step);
    assert end.handlers == w.handlers;
    assert acknowledged ==> end.queue.messages == w.queue.messages - {message};
    ReachesCons(done, step, [], end);
    assert [step] + [] == [step];
  }

  lemma MovesOn(w: World, message: nat, handler: nat, from: HandlerStage, to: HandlerStage)
    requires message in w.queue.messages && !from.Done?
    ensures var m := w.queue.messages[message];
            InHand(w, message, handler, from).handlers[handler := Handler(message, m.asset, m.ready, to)]
            == InHand(w, message, handler, to).handlers
  {
  }

  lemma PendingRowIsFilled(w: World, message: nat, handler: nat, acknowledged: bool)
    requires message in w.queue.messages && handler !in w.handlers
    requires var asset := w.queue.messages[message].asset;
      asset in w.ids.rows && w.ids.rows[asset].status.PendingUpload?
    ensures Reaches(InHand(w, message, handler, Received),
                    [Consume(UpdateRow(handler))] + [LastStep(handler, acknowledged)],
                    Handled(w, message, acknowledged))
  {
    hide Reaches;
    hide Settled;
    var m := w.queue.messages[message];
    var row := w.ids.rows[m.asset].(status := StatusFor(m.ready));
    var filled := w.(ids := w.ids.(rows := w.ids.rows[m.asset := row]));
    LastStepEnds(filled, message, handler, acknowledged);
    MovesOn(w, message, handler, Received, Done);
    assert Apply(InHand(w, message, handler, Received), Consume(UpdateRow(handler)))
      == InHand(filled, message, handler, Done);
    ReachesCons(InHand(w, message, handler, Received), Consume(UpdateRow(handler)),
                [LastStep(handler, acknowledged)], Handled(w, message, acknowledged));
  }

  lemma OrphanIsDeleted(w: World, message: nat, handler: nat, acknowledged: bool)
    requires message in w.queue.messages && handler !in w.handlers
    requires w.queue.messages[message].asset !in w.ids.rows && w.queue.messages[message].ready
    ensures Reaches(InHand(w, message, handler, Unmatched),
                    [Consume(CheckRow(handler))]
                      + ([Consume(DeleteOrphan(handler))] + [LastStep(handler, acknowledged)]),
                    Handled(w, message, acknowledged))
  {
    hide Reaches;
    hide Settled;
    var m := w.queue.messages[message];
    var cleared := w.(store := w.store.(normalized := w.store.normalized - {m.asset}));
    LastStepEnds(cleared, message, handler, acknowledged);
    MovesOn(w, message, handler, Gone, Done);
    assert Apply(InHand(w, message, handler, Gone), Consume(DeleteOrphan(handler)))
      == InHand(cleared, message, handler, Done);
    ReachesCons(InHand(w, message, handler, Gone), Consume(DeleteOrphan(handler)),
                [LastStep(handler, acknowledged)], Handled(w, message, acknowledged));
    MovesOn(w, message, handler, Unmatched, Gone);
    ReachesCons(InHand(w, message, handler, Unmatched), Consume(CheckRow(handler)),
                [Consume(DeleteOrphan(handler))] + [LastStep(handler, acknowledged)],
                Handled(w, message, acknowledged));
  }

  lemma DuplicateIsDropped(w: World, message: nat, handler: nat, acknowledged: bool)
    requires message in w.queue.messages && handler !in w.handlers
    requires var asset := w.queue.messages[message].asset;
      asset in w.ids.rows ==> !w.ids.rows[asset].status.PendingUpload?
    requires w.queue.messages[message].asset in w.ids.rows || !w.queue.messages[message].ready
    ensures Reaches(InHand(w, message, handler, Unmatched),
                    [Consume(CheckRow(handler))] + [LastStep(handler, acknowledged)], Handled(w, message, acknowledged))
  {
    hide Reaches;
    hide Settled;
    LastStepEnds(w, message, handler, acknowledged);
    MovesOn(w, message, handler, Unmatched, Done);
    assert Apply(InHand(w, message, handler, Unmatched), Consume(CheckRow(handler)))
      == InHand(w, message, handler, Done);
    ReachesCons(InHand(w, message, handler, Unmatched), Consume(CheckRow(handler)),
                [LastStep(handler, acknowledged)], Handled(w, message, acknowledged));
  }

  lemma UnmatchedIsChecked(w: World, message: nat, handler: nat, acknowledged: bool, rest: seq<Step>)
    requires message in w.queue.messages && handler !in w.handlers
    requires var asset := w.queue.messages[message].asset;
      asset in w.ids.rows ==> !w.ids.rows[asset].status.PendingUpload?
    requires Reaches(InHand(w, message, handler, Unmatched), rest, Handled(w, message, acknowledged))
    ensures Reaches(InHand(w, message, handler, Received), [Consume(UpdateRow(handler))] + rest,
                    Handled(w, message, acknowledged))
  {
    hide Reaches;
    hide Handled;
    MovesOn(w, message, handler, Received, Unmatched);
    ReachesCons(InHand(w, message, handler, Received), Consume(UpdateRow(handler)), rest,
                Handled(w, message, acknowledged));
  }

  lemma HandledIsARun(w: World, message: nat, handler: nat, acknowledged: bool)
    requires message in w.queue.messages && handler !in w.handlers
    ensures Reaches(w, HandlingSteps(w, message, handler, acknowledged), Handled(w, message, acknowledged))
  {
    hide Reaches;
    hide Handled;
    var m := w.queue.messages[message];
    var receive, update := Consume(Receive(handler, message)), Consume(UpdateRow(handler));
    var rest := [LastStep(handler, acknowledged)];
    if m.asset in w.ids.rows && w.ids.rows[m.asset].status.PendingUpload? {
      PendingRowIsFilled(w, message, handler, acknowledged);
    } else {
      if m.asset !in w.ids.rows && m.ready {
        OrphanIsDeleted(w, message, handler, acknowledged);
        rest := [Consume(CheckRow(handler))] + ([Consume(DeleteOrphan(handler))] + rest);
      } else {
        DuplicateIsDropped(w, message, handler, acknowledged);
        rest := [Consume(CheckRow(handler))] + rest;
      }
      UnmatchedIsChecked(w, message, handler, acknowledged, rest);
    }
    ReachesCons(w, receive, [update] + rest, Handled(w, message, acknowledged));
    assert HandlingSteps(w, message, handler, acknowledged) == [receive] + ([update] + rest);
  }

  // ----- a batch of messages -----

  ghost predicate Waiting(queue: Queue, received: seq<nat>) {
    && (forall k | 0 <= k < |received| :: received[k] in queue.messages)
    && (forall j, k | 0 <= j < k < |received| :: received[j] != received[k])
  }

  /** What became of a message of a batch: handled and acknowledged, handled without the last call
      coming through, or given up before it changed anything. */
  datatype Fate = Acknowledged | Unacknowledged | GivenUp

  /** The batch handled in order; a message that is not acknowledged stays in the queue. */
  function HandledAll(w: World, received: seq<nat>, fate: nat -> Fate): World
    requires Waiting(w.queue, received)
    decreases |received|
  {
    if received == [] then w
    else
      var m := received[|received| - 1];
      var before := HandledAll(w, received[..|received| - 1], fate);
      if fate(m).GivenUp? || m !in before.queue.messages then before else Handled(before, m, fate(m).Acknowledged?)
  }

  ghost predicate OnlyConsumed(w: World, end: World) {
    && end.ids.rows.Keys == w.ids.rows.Keys
    && end == w.(ids := w.ids.(rows := end.ids.rows), store := w.store.(normalized := end.store.normalized),
                 queue := w.queue.(messages := end.queue.messages))
  }

  lemma HandledFrame(w: World, message: nat, acknowledged: bool)
    requires message in w.queue.messages
    ensures OnlyConsumed(w, Handled(w, message, acknowledged))
    ensures Handled(w, message, acknowledged).queue == LeftInQueue(w.queue, message, acknowledged)
  {
  }

  /** Exactly the acknowledged messages leave the queue, and the handled ones that stay are settled;
      only rows and normalized objects change besides. */
  ghost predicate LeftWaiting(before: Queue, received: seq<nat>, fate: nat -> Fate, after: Queue) {
    && (forall m :: m in after.messages <==> m in before.messages && (m !in received || !fate(m).Acknowledged?))
    && (forall m | m in after.messages && m in before.messages :: after.messages[m] ==
          if m in received && fate(m).Unacknowledged? then before.messages[m].(settled := true) else before.messages[m])
  }

  lemma {:induction false} BatchFrame(w: World, received: seq<nat>, fate: nat -> Fate)
    requires Waiting(w.queue, received)
    ensures OnlyConsumed(w, HandledAll(w, received, fate))
    ensures LeftWaiting(w.queue, received, fate, HandledAll(w, received, fate).queue)
    decreases |received|
  {
    hide Handled;
    hide OnlyConsumed;
    hide LeftWaiting;
    if received == [] {
      NothingConsumed(w, fate);
    } else {
      var m := received[|received| - 1];
      var init := received[..|received| - 1];
      BatchFrame(w, init, fate);
      assert received == init + [m];
      var before := HandledAll(w, init, fate);
      StillWaiting(w.queue, init, fate, before.queue, m);
      if fate(m).GivenUp? {
        assert HandledAll(w, received, fate) == before;
      } else {
        HandledFrame(before, m, fate(m).Acknowledged?);
        ConsumedOn(w, before, Handled(before, m, fate(m).Acknowledged?));
      }
    }
  }

  lemma NothingConsumed(w: World, fate: nat -> Fate)
    ensures OnlyConsumed(w, w) && LeftWaiting(w.queue, [], fate, w.queue)
  {
  }

  lemma ConsumedOn(w: World, mid: World, end: World)
    requires OnlyConsumed(w, mid) && OnlyConsumed(mid, end)
    ensures OnlyConsumed(w, end)
  {
  }

  /** The next message of the batch is still there, and what becomes of it is as it should be. */
  lemma StillWaiting(queue: Queue, init: seq<nat>, fate: nat -> Fate, left: Queue, m: nat)
    requires Waiting(queue, init + [m]) && LeftWaiting(queue, init, fate, left)
    ensures m in left.messages
    ensures LeftWaiting(queue, init + [m], fate,
      if fate(m).GivenUp? then left else LeftInQueue(left, m, fate(m).Acknowledged?))
  {
    assert (init + [m])[|init|] == m;
    forall k | 0 <= k < |init| ensures init[k] != m {
      assert (init + [m])[k] == init[k];
    }
  }

  ghost predicate RowsOnlyFilled(before: map<nat, Row>, after: map<nat, Row>) {
    && before.Keys == after.Keys
    && (forall a | a in before && !before[a].status.PendingUpload? :: after[a] == before[a])
    && (forall a | a in before :: after[a].createdAt == before[a].createdAt)
  }

  ghost predicate OrphansGone(w: World, received: seq<nat>, fate: nat -> Fate, left: set<nat>) {
    && left <= w.store.normalized
    && (forall a | a in w.store.normalized && a !in left :: a !in w.ids.rows)
    && (forall m | m in received && !fate(m).GivenUp? && m in w.queue.messages && w.queue.messages[m].ready ::
          w.queue.messages[m].asset in w.ids.rows || w.queue.messages[m].asset !in left)
  }

  lemma RowsFilled(start: map<nat, Row>, w: World, message: nat, acknowledged: bool)
    requires message in w.queue.messages && RowsOnlyFilled(start, w.ids.rows)
    ensures RowsOnlyFilled(start, Handled(w, message, acknowledged).ids.rows)
  {
  }

  lemma OrphanGone(w: World, init: seq<nat>, fate: nat -> Fate, before: World, m: nat)
    requires OrphansGone(w, init, fate, before.store.normalized) && before.ids.rows.Keys == w.ids.rows.Keys
    requires m in before.queue.messages && m in w.queue.messages
    requires w.queue.messages[m].asset == before.queue.messages[m].asset
    requires w.queue.messages[m].ready == before.queue.messages[m].ready
    ensures OrphansGone(w, init + [m], fate, Handled(before, m, fate(m).Acknowledged?).store.normalized)
  {
  }

  /** A row changes only from pending; an object goes only when its row is gone, and then it does,
      whether or not its message is acknowledged. */
  lemma {:induction false} BatchOutcome(w: World, received: seq<nat>, fate: nat -> Fate)
    requires Waiting(w.queue, received)
    ensures RowsOnlyFilled(w.ids.rows, HandledAll(w, received, fate).ids.rows)
    ensures OrphansGone(w, received, fate, HandledAll(w, received, fate).store.normalized)
    decreases |received|
  {
    if received != [] {
      var m := received[|received| - 1];
      var init := received[..|received| - 1];
      BatchFrame(w, init, fate);
      BatchOutcome(w, init, fate);
      assert received == init + [m];
      hide Handled;
      if !fate(m).GivenUp? {
        var before := HandledAll(w, init, fate);
        StillWaiting(w.queue, init, fate, before.queue, m);
        hide RowsOnlyFilled;
        hide OrphansGone;
        RowsFilled(w.ids.rows, before, m, fate(m).Acknowledged?);
        OrphanGone(w, init, fate, before, m);
      }
    }
  }

  lemma {:induction false} LargestExists(keys: set<nat>)
    requires keys != {}
    ensures exists k :: k in keys && forall j | j in keys :: j <= k
    decreases |keys|
  {
    var k :| k in keys;
    if keys != {k} {
      LargestExists(keys - {k});
      var top :| top in keys - {k} && forall j | j in keys - {k} :: j <= top;
      var best := if top < k then k else top;
      forall j | j in keys
        ensures j <= best
      {
        assert j == k || j in keys - {k};
      }
    }
  }

  lemma FreshHandler(handlers: map<nat, Handler>) returns (unused: nat)
    ensures unused !in handlers
  {
    unused := 0;
    if handlers.Keys != {} {
      LargestExists(handlers.Keys);
      var top :| top in handlers.Keys && forall j | j in handlers.Keys :: j <= top;
      unused := top + 1;
    }
  }

  /** A batch is a run of protocol steps, so it keeps what they keep. */
  lemma {:induction false} BatchKeeps(w: World, received: seq<nat>, fate: nat -> Fate)
    requires Waiting(w.queue, received) && Inv(w) && w.grace <= PURGE_FLOOR - URL_LIFETIME
    ensures Inv(HandledAll(w, received, fate)) && HandledAll(w, received, fate).grace == w.grace
    decreases |received|
  {
    hide Inv;
    hide Handled;
    if received != [] {
      var m := received[|received| - 1];
      var init := received[..|received| - 1];
      BatchKeeps(w, init, fate);
      var before := HandledAll(w, init, fate);
      if !fate(m).GivenUp? && m in before.queue.messages {
        var handler := FreshHandler(before.handlers);
        HandledIsARun(before, m, handler, fate(m).Acknowledged?);
        RunKeeps(before, HandlingSteps(before, m, handler, fate(m).Acknowledged?),
                 Handled(before, m, fate(m).Acknowledged?));
      }
    }
  }

  // ----- the normalizer -----

  function NormalizerSteps(normalizer: nat, id: nat, ready: bool): seq<Step> {
    [Normalize(StartNormalizer(normalizer, id))] +
    if ready
    then [Normalize(ReadRaw(normalizer))]
      + ([Normalize(PutNormalized(normalizer))] + [Normalize(SendReady(normalizer))])
    else [Normalize(SendRejected(normalizer))]
  }

  function Normalized(w: World, id: nat, ready: bool): World {
    w.(store := w.store.(normalized := w.store.normalized + if ready then {id} else {}),
       queue := Queue(w.queue.messages[w.queue.issued := Message(id, ready, false)], w.queue.issued + 1))
  }

  lemma NormalizerIsARun(w: World, n: nat, id: nat, ready: bool)
    requires n !in w.normalizers && id in w.store.uploaded && (ready ==> id in w.store.raw)
    ensures Reaches(w, NormalizerSteps(n, id, ready), Normalized(w, id, ready))
  {
    hide Reaches;
    var end := Normalized(w, id, ready);
    var start, read, put := Normalize(StartNormalizer(n, id)), Normalize(ReadRaw(n)), Normalize(PutNormalized(n));
    var w1 := Apply(w, start);
    if ready {
      var w2 := Apply(w1, read);
      var w3 := Apply(w2, put);
      assert w3.normalizers - {n} == w.normalizers;
      SendEnds(w3, Normalize(SendReady(n)), end);
      ReachesCons(w2, put, [Normalize(SendReady(n))], end);
      ReachesCons(w1, read, [put] + [Normalize(SendReady(n))], end);
      ReachesCons(w, start, [read] + ([put] + [Normalize(SendReady(n))]), end);
    } else {
      assert w1.normalizers - {n} == w.normalizers;
      assert w.store.normalized + {} == w.store.normalized;
      SendEnds(w1, Normalize(SendRejected(n)), end);
      ReachesCons(w, start, [Normalize(SendRejected(n))], end);
    }
  }

  lemma SendEnds(w: World, step: Step, end: World)
    requires Enabled(w, step) && Apply(w, step) == end
    ensures Reaches(w, [step], end)
  {
    ReachesCons(w, step, [], end);
    assert [step] + [] == [step];
  }
}
