/** Image assets across parties that share no transaction: the service that signs uploads, creates
    rows and deletes assets, the clients that upload, the normalizer, the consumer of its results
    and the outbox worker that purges deleted assets. Every step is one transaction, one storage
    call or one queue call; the steps of all parties interleave freely. Times are in seconds. */
module AssetProtocol {

  const URL_LIFETIME: int := 10 * 60
  const PURGE_FLOOR: int := 15 * 60

  datatype Status = PendingUpload | Ready | Rejected

  datatype Row = Row(status: Status, createdAt: int)

  datatype Purge = Purge(notBefore: int, published: bool)

  /** `signed` holds the expiry of URLs whose row is still to be created, `urls` the expiry of the
      URLs handed out. */
  datatype Ids = Ids(signed: map<nat, int>, urls: map<nat, int>, rows: map<nat, Row>, purges: map<nat, Purge>)

  /** `uploaded` are the ids whose upload storage has announced. */
  datatype Store = Store(raw: set<nat>, normalized: set<nat>, uploaded: set<nat>)

  /** A worker's run of one purge, from the delete of the raw object on. */
  datatype Run = Run(asset: nat, normalizedDeleted: bool)

  datatype NormalizerStage = Started | Read | Put

  datatype Normalizer = Normalizer(asset: nat, stage: NormalizerStage)

  /** `settled` marks a result for which some consumer found the row or deleted the object. */
  datatype Message = Message(asset: nat, ready: bool, settled: bool)

  datatype Queue = Queue(messages: map<nat, Message>, issued: nat)

  datatype HandlerStage = Received | Unmatched | Gone | Done

  datatype Handler = Handler(message: nat, asset: nat, ready: bool, stage: HandlerStage)

  /** `grace` is how long after its expiry an upload accepted before it may still complete. */
  datatype World = World(
    now: int,
    grace: int,
    ids: Ids,
    store: Store,
    runs: map<nat, Run>,
    normalizers: map<nat, Normalizer>,
    queue: Queue,
    handlers: map<nat, Handler>)

  function Start(now: int, grace: int): World {
    World(now, grace, Ids(map[], map[], map[], map[]), Store({}, {}, {}), map[], map[], Queue(map[], 0), map[])
  }

  // ----- the service and the clients -----

  datatype ClientStep =
    | Tick(now: int)
    | SignUrl(asset: nat)
    | CreateRow(asset: nat)
    | Upload(asset: nat)
    | DeleteAsset(asset: nat)

  predicate ClientEnabled(w: World, step: ClientStep) {
    match step
    case Tick(now) => w.now <= now
    case SignUrl(asset) => asset !in w.ids.signed && asset !in w.ids.urls
    case CreateRow(asset) => asset in w.ids.signed
    // a signed upload is refused where an object already stands
    case Upload(asset) =>
      asset in w.ids.urls && w.now < w.ids.urls[asset] + w.grace && asset !in w.store.raw
    case DeleteAsset(asset) => asset in w.ids.rows
  }

  function Later(a: int, b: int): int {
    if a < b then b else a
  }

  function ClientApply(w: World, step: ClientStep): World
    requires ClientEnabled(w, step)
  {
    match step
    case Tick(now) => w.(now := now)
    case SignUrl(asset) => w.(ids := w.ids.(signed := w.ids.signed[asset := w.now + URL_LIFETIME]))
    case CreateRow(asset) =>
      w.(ids := Ids(w.ids.signed - {asset}, w.ids.urls[asset := w.ids.signed[asset]],
                    w.ids.rows[asset := Row(PendingUpload, w.now)], w.ids.purges))
    case Upload(asset) =>
      w.(store := w.store.(raw := w.store.raw + {asset}, uploaded := w.store.uploaded + {asset}))
    case DeleteAsset(asset) =>
      var due := Later(w.now, w.ids.rows[asset].createdAt + PURGE_FLOOR);
      w.(ids := w.ids.(rows := w.ids.rows - {asset}, purges := w.ids.purges[asset := Purge(due, false)]))
  }

  // ----- the normalizer -----

  datatype NormalizerStep =
    | StartNormalizer(normalizer: nat, asset: nat)
    | ReadRaw(normalizer: nat)
    | PutNormalized(normalizer: nat)
    | SendReady(normalizer: nat)
    | SendRejected(normalizer: nat)

  predicate At(w: World, normalizer: nat, stage: NormalizerStage) {
    normalizer in w.normalizers && w.normalizers[normalizer].stage == stage
  }

  predicate NormalizerEnabled(w: World, step: NormalizerStep) {
    match step
    // an announcement may be delivered any number of times, at any later moment
    case StartNormalizer(normalizer, asset) => asset in w.store.uploaded && normalizer !in w.normalizers
    case ReadRaw(normalizer) => At(w, normalizer, Started) && w.normalizers[normalizer].asset in w.store.raw
    case PutNormalized(normalizer) => At(w, normalizer, Read)
    case SendReady(normalizer) => At(w, normalizer, Put)
    case SendRejected(normalizer) => At(w, normalizer, Started) || At(w, normalizer, Read)
  }

  function Sent(w: World, normalizer: nat, ready: bool): World
    requires normalizer in w.normalizers
  {
    var message := Message(w.normalizers[normalizer].asset, ready, false);
    w.(queue := Queue(w.queue.messages[w.queue.issued := message], w.queue.issued + 1),
       normalizers := w.normalizers - {normalizer})
  }

  function NormalizerApply(w: World, step: NormalizerStep): World
    requires NormalizerEnabled(w, step)
  {
    match step
    case StartNormalizer(normalizer, asset) =>
      w.(normalizers := w.normalizers[normalizer := Normalizer(asset, Started)])
    case ReadRaw(normalizer) =>
      w.(normalizers := w.normalizers[normalizer := w.normalizers[normalizer].(stage := Read)])
    case PutNormalized(normalizer) =>
      w.(normalizers := w.normalizers[normalizer := w.normalizers[normalizer].(stage := Put)],
         store := w.store.(normalized := w.store.normalized + {w.normalizers[normalizer].asset}))
    case SendReady(normalizer) => Sent(w, normalizer, true)
    case SendRejected(normalizer) => Sent(w, normalizer, false)
  }

  // ----- the consumer of results -----

  datatype ConsumerStep =
    | Receive(handler: nat, message: nat)
    | UpdateRow(handler: nat)
    | CheckRow(handler: nat)
    | DeleteOrphan(handler: nat)
    | Acknowledge(handler: nat)
    | DropHandler(handler: nat)

  predicate ConsumerEnabled(w: World, step: ConsumerStep) {
    match step
    // a message may be received again until it is acknowledged
    case Receive(handler, message) => handler !in w.handlers && message in w.queue.messages
    case UpdateRow(handler) => handler in w.handlers && w.handlers[handler].stage.Received?
    case CheckRow(handler) => handler in w.handlers && w.handlers[handler].stage.Unmatched?
    case DeleteOrphan(handler) => handler in w.handlers && w.handlers[handler].stage.Gone?
    case Acknowledge(handler) => handler in w.handlers && w.handlers[handler].stage.Done?
    case DropHandler(handler) => handler in w.handlers
  }

  function Settled(queue: Queue, message: nat): Queue {
    if message in queue.messages
    then queue.(messages := queue.messages[message := queue.messages[message].(settled := true)])
    else queue
  }

  function ConsumerApply(w: World, step: ConsumerStep): World
    requires ConsumerEnabled(w, step)
  {
    match step
    case Receive(handler, message) =>
      var m := w.queue.messages[message];
      w.(handlers := w.handlers[handler := Handler(message, m.asset, m.ready, Received)])
    case UpdateRow(handler) =>
      var h := w.handlers[handler];
      if h.asset in w.ids.rows && w.ids.rows[h.asset].status.PendingUpload?
      then
        var updated := w.ids.rows[h.asset].(status := if h.ready then Ready else Rejected);
        w.(ids := w.ids.(rows := w.ids.rows[h.asset := updated]),
           handlers := w.handlers[handler := h.(stage := Done)], queue := Settled(w.queue, h.message))
      else w.(handlers := w.handlers[handler := h.(stage := Unmatched)])
    case CheckRow(handler) =>
      var h := w.handlers[handler];
      if h.asset !in w.ids.rows && h.ready then w.(handlers := w.handlers[handler := h.(stage := Gone)])
      else w.(handlers := w.handlers[handler := h.(stage := Done)], queue := Settled(w.queue, h.message))
    case DeleteOrphan(handler) =>
      var h := w.handlers[handler];
      w.(store := w.store.(normalized := w.store.normalized - {h.asset}),
         handlers := w.handlers[handler := h.(stage := Done)], queue := Settled(w.queue, h.message))
    case Acknowledge(handler) =>
      w.(queue := w.queue.(messages := w.queue.messages - {w.handlers[handler].message}),
         handlers := w.handlers - {handler})
    case DropHandler(handler) => w.(handlers := w.handlers - {handler})
  }

  // ----- the outbox worker -----

  datatype PurgeStep =
    | PurgeRaw(run: nat, asset: nat)
    | PurgeNormalized(run: nat)
    | PublishPurge(run: nat)
    | AbortPurge(run: nat)

  predicate PurgeEnabled(w: World, step: PurgeStep) {
    match step
    // a claim needs its time to have come; a worker whose claim was taken over may still be at it
    case PurgeRaw(run, asset) =>
      run !in w.runs && asset in w.ids.purges && w.ids.purges[asset].notBefore <= w.now
    case PurgeNormalized(run) => run in w.runs && !w.runs[run].normalizedDeleted
    case PublishPurge(run) => run in w.runs && w.runs[run].normalizedDeleted && w.runs[run].asset in w.ids.purges
    case AbortPurge(run) => run in w.runs
  }

  function PurgeApply(w: World, step: PurgeStep): World
    requires PurgeEnabled(w, step)
  {
    match step
    case PurgeRaw(run, asset) =>
      w.(store := w.store.(raw := w.store.raw - {asset}), runs := w.runs[run := Run(asset, false)])
    case PurgeNormalized(run) =>
      w.(store := w.store.(normalized := w.store.normalized - {w.runs[run].asset}),
         runs := w.runs[run := w.runs[run].(normalizedDeleted := true)])
    case PublishPurge(run) =>
      var asset := w.runs[run].asset;
      w.(ids := w.ids.(purges := w.ids.purges[asset := w.ids.purges[asset].(published := true)]),
         runs := w.runs - {run})
    case AbortPurge(run) => w.(runs := w.runs - {run})
  }

  // ----- all parties -----

  datatype Step =
    | Client(client: ClientStep)
    | Normalize(normalize: NormalizerStep)
    | Consume(consume: ConsumerStep)
    | PurgeAsset(purge: PurgeStep)

  predicate Enabled(w: World, step: Step) {
    match step
    case Client(s) => ClientEnabled(w, s)
    case Normalize(s) => NormalizerEnabled(w, s)
    case Consume(s) => ConsumerEnabled(w, s)
    case PurgeAsset(s) => PurgeEnabled(w, s)
  }

  function Apply(w: World, step: Step): World
    requires Enabled(w, step)
  {
    match step
    case Client(s) => ClientApply(w, s)
    case Normalize(s) => NormalizerApply(w, s)
    case Consume(s) => ConsumerApply(w, s)
    case PurgeAsset(s) => PurgeApply(w, s)
  }

  /** These steps, each enabled in its turn, lead from one world to the other. */
  ghost predicate Reaches(w: World, steps: seq<Step>, end: World)
    decreases |steps|
  {
    if steps == [] then w == end else Enabled(w, steps[0]) && Reaches(Apply(w, steps[0]), steps[1..], end)
  }

  lemma ReachesCons(w: World, step: Step, steps: seq<Step>, end: World)
    requires Enabled(w, step) && Reaches(Apply(w, step), steps, end)
    ensures Reaches(w, [step] + steps, end)
  {
    assert ([step] + steps)[1..] == steps;
  }

  // ----- who still answers for an object -----

  ghost predicate PurgePending(ids: Ids, asset: nat) {
    asset in ids.purges && !ids.purges[asset].published
  }

  ghost predicate ResultPending(queue: Queue, asset: nat) {
    exists m :: m in queue.messages && queue.messages[m] == Message(asset, true, false)
  }

  ghost predicate SendPending(normalizers: map<nat, Normalizer>, asset: nat) {
    exists n :: n in normalizers && normalizers[n] == Normalizer(asset, Put)
  }

  /** A raw object whose row is gone has an unpublished purge that has not yet passed it. */
  ghost predicate RawCovered(w: World, asset: nat) {
    PurgePending(w.ids, asset) && forall r | r in w.runs :: w.runs[r].asset != asset
  }

  /** A normalized object whose row is gone has an unpublished purge that has not yet passed it,
      an unsettled ready result, or a normalizer between its put and its send. */
  ghost predicate NormalizedCovered(w: World, asset: nat) {
    || (PurgePending(w.ids, asset) && forall r | r in w.runs :: w.runs[r] != Run(asset, true))
    || ResultPending(w.queue, asset)
    || SendPending(w.normalizers, asset)
  }

  // ----- the invariant -----

  ghost predicate IdsKnown(ids: Ids, store: Store) {
    && ids.signed.Keys !! ids.urls.Keys
    && ids.urls.Keys == ids.rows.Keys + ids.purges.Keys
    && ids.rows.Keys !! ids.purges.Keys
    && store.raw <= store.uploaded && store.normalized <= store.uploaded && store.uploaded <= ids.urls.Keys
  }

  ghost predicate NormalizersKnown(uploaded: set<nat>, normalizers: map<nat, Normalizer>) {
    forall n | n in normalizers :: normalizers[n].asset in uploaded
  }

  ghost predicate QueueKnown(uploaded: set<nat>, queue: Queue) {
    forall m | m in queue.messages :: queue.messages[m].asset in uploaded && m < queue.issued
  }

  /** A URL is dead a purge floor less its lifetime before the purge of its asset can be due. */
  ghost predicate Timed(now: int, ids: Ids) {
    && (forall a | a in ids.signed :: ids.signed[a] <= now + URL_LIFETIME)
    && (forall a | a in ids.rows :: a in ids.urls && ids.urls[a] <= ids.rows[a].createdAt + URL_LIFETIME)
    && (forall a | a in ids.purges ::
          a in ids.urls && ids.urls[a] - URL_LIFETIME + PURGE_FLOOR <= ids.purges[a].notBefore)
  }

  ghost predicate Due(now: int, purges: map<nat, Purge>, runs: map<nat, Run>) {
    && (forall a | a in purges && purges[a].published :: purges[a].notBefore <= now)
    && (forall r | r in runs :: runs[r].asset in purges && purges[runs[r].asset].notBefore <= now)
  }

  ghost predicate Agrees(queue: Queue, h: Handler) {
    h.message in queue.messages ==>
      var m := queue.messages[h.message];
      m.asset == h.asset && m.ready == h.ready && (h.stage.Done? ==> m.settled)
  }

  /** What a handler holds is what its message said; one that found no row is right for ever. */
  ghost predicate Consumed(ids: Ids, uploaded: set<nat>, queue: Queue, handlers: map<nat, Handler>) {
    && (forall h | h in handlers :: handlers[h].asset in uploaded && handlers[h].message < queue.issued)
    && (forall h | h in handlers && handlers[h].stage.Gone? :: handlers[h].asset !in ids.rows)
    && (forall h | h in handlers :: Agrees(queue, handlers[h]))
  }

  /** Someone has turned this asset ready, or still may. */
  ghost predicate Promised(w: World, a: nat) {
    || (a in w.ids.rows && w.ids.rows[a].status.Ready?)
    || (exists m :: m in w.queue.messages && w.queue.messages[m].ready && w.queue.messages[m].asset == a)
    || (exists h :: h in w.handlers && w.handlers[h].ready && w.handlers[h].asset == a)
    || (exists n :: n in w.normalizers && w.normalizers[n] == Normalizer(a, Put))
  }

  ghost predicate Bookkept(w: World) {
    && IdsKnown(w.ids, w.store)
    && NormalizersKnown(w.store.uploaded, w.normalizers)
    && QueueKnown(w.store.uploaded, w.queue)
    && Timed(w.now, w.ids)
    && Due(w.now, w.ids.purges, w.runs)
    && Consumed(w.ids, w.store.uploaded, w.queue, w.handlers)
  }

  /** A live asset that is ready, or may become so, has its normalized object. */
  ghost predicate Backed(w: World, a: nat) {
    a in w.ids.rows && Promised(w, a) ==> a in w.store.normalized
  }

  ghost predicate RawSafe(w: World, a: nat) {
    a in w.store.raw && a !in w.ids.rows ==> RawCovered(w, a)
  }

  ghost predicate NormalizedSafe(w: World, a: nat) {
    a in w.store.normalized && a !in w.ids.rows ==> NormalizedCovered(w, a)
  }

  ghost predicate Inv(w: World) {
    && Bookkept(w)
    && forall a: nat :: Backed(w, a) && RawSafe(w, a) && NormalizedSafe(w, a)
  }

  // ----- bookkeeping is kept -----

  lemma ClientIdsKnown(w: World, step: ClientStep)
    requires Bookkept(w) && ClientEnabled(w, step)
    ensures var next := ClientApply(w, step);
      && IdsKnown(next.ids, next.store)
      && NormalizersKnown(next.store.uploaded, next.normalizers) && QueueKnown(next.store.uploaded, next.queue)
  {
    hide Timed;
    hide Due;
    hide Consumed;
  }

  lemma ClientTimed(w: World, step: ClientStep)
    requires IdsKnown(w.ids, w.store) && Timed(w.now, w.ids) && ClientEnabled(w, step)
    ensures Timed(ClientApply(w, step).now, ClientApply(w, step).ids)
  {
    if step.DeleteAsset? {
      assert step.asset in w.ids.rows && step.asset in w.ids.urls;
    }
  }

  lemma ClientDue(w: World, step: ClientStep)
    requires IdsKnown(w.ids, w.store) && Due(w.now, w.ids.purges, w.runs) && ClientEnabled(w, step)
    ensures var next := ClientApply(w, step); Due(next.now, next.ids.purges, next.runs)
  {
  }

  lemma ClientConsumed(w: World, step: ClientStep)
    requires Bookkept(w) && ClientEnabled(w, step)
    ensures var next := ClientApply(w, step); Consumed(next.ids, next.store.uploaded, next.queue, next.handlers)
  {
    hide Agrees;
    hide Timed;
    hide Due;
    hide QueueKnown;
    hide NormalizersKnown;
  }

  lemma ClientBookkept(w: World, step: ClientStep)
    requires Bookkept(w) && ClientEnabled(w, step)
    ensures Bookkept(ClientApply(w, step))
  {
    hide ClientApply;
    hide ClientEnabled;
    hide IdsKnown;
    hide Consumed;
    hide QueueKnown;
    hide NormalizersKnown;
    hide Timed;
    hide Due;
    ClientIdsKnown(w, step);
    ClientTimed(w, step);
    ClientDue(w, step);
    ClientConsumed(w, step);
  }

  /** A normalizer changes neither ids nor purges, and only adds to the queue. */
  ghost predicate NormalizerFrame(w: World, next: World) {
    && next.now == w.now && next.ids == w.ids && next.runs == w.runs && next.handlers == w.handlers
    && next.store.raw == w.store.raw && next.store.uploaded == w.store.uploaded
    && w.queue.issued <= next.queue.issued
    && (forall m | m in w.queue.messages && m < w.queue.issued ::
          m in next.queue.messages && next.queue.messages[m] == w.queue.messages[m])
    && (forall m | m in next.queue.messages && m < w.queue.issued :: m in w.queue.messages)
  }

  lemma NormalizerFrames(w: World, step: NormalizerStep)
    requires NormalizerEnabled(w, step)
    ensures NormalizerFrame(w, NormalizerApply(w, step))
  {
  }

  lemma NormalizerKnown(w: World, step: NormalizerStep)
    requires Bookkept(w) && NormalizerEnabled(w, step)
    ensures var next := NormalizerApply(w, step);
      && next.store.normalized <= next.store.uploaded
      && NormalizersKnown(next.store.uploaded, next.normalizers) && QueueKnown(next.store.uploaded, next.queue)
  {
    hide Timed;
    hide Due;
    hide Consumed;
  }

  lemma StillAgrees(w: World, next: World)
    requires Consumed(w.ids, w.store.uploaded, w.queue, w.handlers) && NormalizerFrame(w, next)
    ensures Consumed(next.ids, next.store.uploaded, next.queue, next.handlers)
  {
  }

  lemma NormalizerBookkept(w: World, step: NormalizerStep)
    requires Bookkept(w) && NormalizerEnabled(w, step)
    ensures Bookkept(NormalizerApply(w, step))
  {
    hide NormalizerApply;
    hide NormalizerEnabled;
    hide Consumed;
    hide QueueKnown;
    hide NormalizersKnown;
    hide Timed;
    hide Due;
    NormalizerFrames(w, step);
    NormalizerKnown(w, step);
    StillAgrees(w, NormalizerApply(w, step));
  }

  ghost predicate SettledOnly(queue: Queue, message: nat, next: Queue) {
    && next.issued == queue.issued && next.messages.Keys == queue.messages.Keys
    && (message in next.messages ==> next.messages[message].settled)
    && (forall m | m in queue.messages :: next.messages[m] == queue.messages[m].(settled := next.messages[m].settled))
    && (forall m | m in queue.messages && m != message :: next.messages[m] == queue.messages[m])
  }

  lemma SettledMarksOne(queue: Queue, message: nat)
    ensures SettledOnly(queue, message, Settled(queue, message))
  {
  }

  lemma ConsumerAgrees(w: World, step: ConsumerStep, h: nat)
    requires ConsumerEnabled(w, step) && Consumed(w.ids, w.store.uploaded, w.queue, w.handlers)
    requires h in ConsumerApply(w, step).handlers
    ensures Agrees(ConsumerApply(w, step).queue, ConsumerApply(w, step).handlers[h])
  {
    hide Settled;
    assert step.handler in w.handlers ==> Agrees(w.queue, w.handlers[step.handler]);
    assert h in w.handlers ==> Agrees(w.queue, w.handlers[h]);
    hide Consumed;
    if step.handler in w.handlers {
      SettledMarksOne(w.queue, w.handlers[step.handler].message);
    }
  }

  lemma ConsumerHandlersKnown(w: World, step: ConsumerStep)
    requires QueueKnown(w.store.uploaded, w.queue) && ConsumerEnabled(w, step)
    requires Consumed(w.ids, w.store.uploaded, w.queue, w.handlers)
    ensures var next := ConsumerApply(w, step);
            Consumed(next.ids, next.store.uploaded, next.queue, next.handlers)
  {
    hide Settled;
    hide Agrees;
    if step.handler in w.handlers {
      SettledMarksOne(w.queue, w.handlers[step.handler].message);
    }
    var next := ConsumerApply(w, step);
    forall h | h in next.handlers ensures Agrees(next.queue, next.handlers[h]) {
      ConsumerAgrees(w, step, h);
    }
  }

  /** A handler changes no more of the rows than their status, and only takes normalized objects away. */
  ghost predicate ConsumerFrame(w: World, next: World) {
    && next.now == w.now && next.runs == w.runs && next.normalizers == w.normalizers
    && next.ids == w.ids.(rows := next.ids.rows) && next.ids.rows.Keys == w.ids.rows.Keys
    && (forall a | a in w.ids.rows && a in next.ids.rows :: next.ids.rows[a].createdAt == w.ids.rows[a].createdAt)
    && next.store == w.store.(normalized := next.store.normalized) && next.store.normalized <= w.store.normalized
  }

  lemma ConsumerFrames(w: World, step: ConsumerStep)
    requires ConsumerEnabled(w, step)
    ensures ConsumerFrame(w, ConsumerApply(w, step))
  {
    hide Settled;
  }

  lemma FrameKnown(w: World, next: World)
    requires IdsKnown(w.ids, w.store) && ConsumerFrame(w, next)
    ensures IdsKnown(next.ids, next.store)
  {
  }

  lemma FrameTimed(w: World, next: World)
    requires Timed(w.now, w.ids) && Due(w.now, w.ids.purges, w.runs) && ConsumerFrame(w, next)
    ensures Timed(next.now, next.ids) && Due(next.now, next.ids.purges, next.runs)
  {
  }

  lemma ConsumerQueueKnown(w: World, step: ConsumerStep)
    requires Bookkept(w) && ConsumerEnabled(w, step)
    ensures var next := ConsumerApply(w, step); QueueKnown(next.store.uploaded, next.queue)
  {
    hide Settled;
    hide Consumed;
    hide Timed;
    hide Due;
    hide IdsKnown;
    if step.handler in w.handlers {
      SettledMarksOne(w.queue, w.handlers[step.handler].message);
    }
  }

  lemma ConsumerBookkept(w: World, step: ConsumerStep)
    requires Bookkept(w) && ConsumerEnabled(w, step)
    ensures Bookkept(ConsumerApply(w, step))
  {
    hide ConsumerApply;
    hide ConsumerEnabled;
    hide IdsKnown;
    hide Consumed;
    hide QueueKnown;
    hide NormalizersKnown;
    hide Timed;
    hide Due;
    ConsumerFrames(w, step);
    FrameKnown(w, ConsumerApply(w, step));
    FrameTimed(w, ConsumerApply(w, step));
    ConsumerQueueKnown(w, step);
    ConsumerHandlersKnown(w, step);
  }

  lemma PurgeBookkept(w: World, step: PurgeStep)
    requires Bookkept(w) && PurgeEnabled(w, step)
    ensures Bookkept(PurgeApply(w, step))
  {
  }

  // ----- a ready asset keeps its object -----

  lemma ClientBacked(w: World, step: ClientStep, a: nat)
    requires Bookkept(w) && Backed(w, a) && ClientEnabled(w, step)
    ensures Backed(ClientApply(w, step), a)
  {
  }

  lemma NormalizerBacked(w: World, step: NormalizerStep, a: nat)
    requires Bookkept(w) && Backed(w, a) && NormalizerEnabled(w, step)
    ensures Backed(NormalizerApply(w, step), a)
  {
  }

  /** A handler promises nothing for a live row that was not promised before. */
  lemma ConsumerPromises(w: World, step: ConsumerStep, a: nat)
    requires Bookkept(w) && ConsumerEnabled(w, step) && Promised(ConsumerApply(w, step), a)
    ensures Promised(w, a)
  {
    hide Settled;
    hide Timed;
    hide Due;
    hide IdsKnown;
    hide QueueKnown;
    if step.handler in w.handlers {
      SettledMarksOne(w.queue, w.handlers[step.handler].message);
    }
  }

  /** It deletes no object of a live row. */
  lemma ConsumerDeletes(w: World, step: ConsumerStep, a: nat)
    requires Bookkept(w) && ConsumerEnabled(w, step)
    ensures ConsumerApply(w, step).ids.rows.Keys == w.ids.rows.Keys
    ensures a in w.store.normalized && a in w.ids.rows ==> a in ConsumerApply(w, step).store.normalized
  {
    hide Settled;
    hide Timed;
    hide Due;
    hide IdsKnown;
    hide QueueKnown;
  }

  lemma ConsumerBacked(w: World, step: ConsumerStep, a: nat)
    requires Bookkept(w) && Backed(w, a) && ConsumerEnabled(w, step)
    ensures Backed(ConsumerApply(w, step), a)
  {
    hide ConsumerApply;
    hide ConsumerEnabled;
    hide Bookkept;
    hide Promised;
    if Promised(ConsumerApply(w, step), a) {
      ConsumerPromises(w, step, a);
    }
    ConsumerDeletes(w, step, a);
  }

  lemma PurgeBacked(w: World, step: PurgeStep, a: nat)
    requires Bookkept(w) && Backed(w, a) && PurgeEnabled(w, step)
    ensures Backed(PurgeApply(w, step), a)
  {
  }

  // ----- nothing is orphaned -----

  lemma ClientSafe(w: World, step: ClientStep, a: nat)
    requires Bookkept(w) && RawSafe(w, a) && NormalizedSafe(w, a) && ClientEnabled(w, step)
    requires w.grace <= PURGE_FLOOR - URL_LIFETIME
    ensures RawSafe(ClientApply(w, step), a) && NormalizedSafe(ClientApply(w, step), a)
  {
  }

  lemma NormalizerSafe(w: World, step: NormalizerStep, a: nat)
    requires Bookkept(w) && RawSafe(w, a) && NormalizedSafe(w, a) && NormalizerEnabled(w, step)
    ensures RawSafe(NormalizerApply(w, step), a) && NormalizedSafe(NormalizerApply(w, step), a)
  {
    var next := NormalizerApply(w, step);
    if step.PutNormalized? && w.normalizers[step.normalizer].asset == a {
      assert next.normalizers[step.normalizer] == Normalizer(a, Put);
    } else if step.SendReady? && w.normalizers[step.normalizer].asset == a {
      assert next.queue.messages[w.queue.issued] == Message(a, true, false);
    } else if SendPending(w.normalizers, a) {
      var n :| n in w.normalizers && w.normalizers[n] == Normalizer(a, Put);
      assert next.normalizers[n] == Normalizer(a, Put);
    } else if ResultPending(w.queue, a) {
      var m :| m in w.queue.messages && w.queue.messages[m] == Message(a, true, false);
      assert next.queue.messages[m] == Message(a, true, false);
    }
  }

  /** A result for a vanished row is settled or acknowledged only after its object was deleted. */
  lemma ResultStays(w: World, step: ConsumerStep, a: nat)
    requires Bookkept(w) && ConsumerEnabled(w, step) && ResultPending(w.queue, a)
    requires a in ConsumerApply(w, step).store.normalized && a !in w.ids.rows
    ensures ResultPending(ConsumerApply(w, step).queue, a)
  {
    hide Settled;
    hide Timed;
    hide Due;
    hide NormalizersKnown;
    hide IdsKnown;
    hide QueueKnown;
    if step.handler in w.handlers {
      SettledMarksOne(w.queue, w.handlers[step.handler].message);
    }
    var next := ConsumerApply(w, step);
    var m :| m in w.queue.messages && w.queue.messages[m] == Message(a, true, false);
    assert m in next.queue.messages && next.queue.messages[m] == Message(a, true, false);
  }

  lemma ConsumerSafe(w: World, step: ConsumerStep, a: nat)
    requires Bookkept(w) && RawSafe(w, a) && NormalizedSafe(w, a) && ConsumerEnabled(w, step)
    ensures RawSafe(ConsumerApply(w, step), a) && NormalizedSafe(ConsumerApply(w, step), a)
  {
    hide ConsumerApply;
    hide ConsumerEnabled;
    hide Bookkept;
    hide ResultPending;
    hide SendPending;
    ConsumerFrames(w, step);
    if ResultPending(w.queue, a) && a in ConsumerApply(w, step).store.normalized && a !in w.ids.rows {
      ResultStays(w, step, a);
    }
  }

  lemma PurgeSafe(w: World, step: PurgeStep, a: nat)
    requires Bookkept(w) && RawSafe(w, a) && NormalizedSafe(w, a) && PurgeEnabled(w, step)
    ensures RawSafe(PurgeApply(w, step), a) && NormalizedSafe(PurgeApply(w, step), a)
  {
  }

  // ----- whole runs -----

  lemma StepKeeps(w: World, step: Step)
    requires Inv(w) && Enabled(w, step) && w.grace <= PURGE_FLOOR - URL_LIFETIME
    ensures Inv(Apply(w, step)) && Apply(w, step).grace == w.grace
  {
    hide Bookkept;
    hide Backed;
    hide RawSafe;
    hide NormalizedSafe;
    var next := Apply(w, step);
    match step
    case Client(s) =>
      ClientBookkept(w, s);
      forall a: nat ensures Backed(next, a) && RawSafe(next, a) && NormalizedSafe(next, a) {
        ClientBacked(w, s, a);
        ClientSafe(w, s, a);
      }
    case Normalize(s) =>
      NormalizerBookkept(w, s);
      forall a: nat ensures Backed(next, a) && RawSafe(next, a) && NormalizedSafe(next, a) {
        NormalizerBacked(w, s, a);
        NormalizerSafe(w, s, a);
      }
    case Consume(s) =>
      ConsumerBookkept(w, s);
      forall a: nat ensures Backed(next, a) && RawSafe(next, a) && NormalizedSafe(next, a) {
        ConsumerBacked(w, s, a);
        ConsumerSafe(w, s, a);
      }
    case PurgeAsset(s) =>
      PurgeBookkept(w, s);
      forall a: nat ensures Backed(next, a) && RawSafe(next, a) && NormalizedSafe(next, a) {
        PurgeBacked(w, s, a);
        PurgeSafe(w, s, a);
      }
  }

  lemma StartKeeps(now: int, grace: int)
    ensures Inv(Start(now, grace))
  {
  }

  lemma {:induction false} RunKeeps(w: World, steps: seq<Step>, end: World)
    requires Inv(w) && Reaches(w, steps, end) && w.grace <= PURGE_FLOOR - URL_LIFETIME
    ensures Inv(end) && end.grace == w.grace
    decreases |steps|
  {
    if steps != [] {
      hide Inv;
      hide Enabled;
      hide Apply;
      StepKeeps(w, steps[0]);
      RunKeeps(Apply(w, steps[0]), steps[1..], end);
    }
  }

  /** Whatever the interleaving, an object that has lost its row still has someone to delete it. */
  lemma ObjectsStayCovered(now: int, grace: int, steps: seq<Step>, w: World, a: nat)
    requires Reaches(Start(now, grace), steps, w) && grace <= PURGE_FLOOR - URL_LIFETIME
    ensures a in w.store.raw && a !in w.ids.rows ==> RawCovered(w, a)
    ensures a in w.store.normalized && a !in w.ids.rows ==> NormalizedCovered(w, a)
  {
    StartKeeps(now, grace);
    RunKeeps(Start(now, grace), steps, w);
    assert RawSafe(w, a) && NormalizedSafe(w, a);
  }

  /** No purge and no consumer ever takes the image of an asset that is still there. */
  lemma ReadyAssetsKeepTheirImage(now: int, grace: int, steps: seq<Step>, w: World, a: nat)
    requires Reaches(Start(now, grace), steps, w) && grace <= PURGE_FLOOR - URL_LIFETIME
    ensures a in w.ids.rows && w.ids.rows[a].status.Ready? ==> a in w.store.normalized
  {
    StartKeeps(now, grace);
    RunKeeps(Start(now, grace), steps, w);
    assert Backed(w, a);
  }

  /** Nobody has work left: every purge is published, no result waits and no normalizer is between
      its put and its send. */
  ghost predicate Quiet(w: World) {
    && (forall a | a in w.ids.purges :: w.ids.purges[a].published)
    && w.queue.messages == map[]
    && (forall n | n in w.normalizers :: !w.normalizers[n].stage.Put?)
  }

  ghost predicate NothingOrphaned(w: World) {
    w.store.raw + w.store.normalized <= w.ids.rows.Keys
  }

  ghost predicate NeverOrphans(now: int, grace: int) {
    forall steps, w | Reaches(Start(now, grace), steps, w) :: Quiet(w) ==> NothingOrphaned(w)
  }

  /** A run that strands a raw object when an accepted upload may outlast the purge floor. */
  lemma LateUploadOrphans(now: int, grace: int) returns (steps: seq<Step>, w: World)
    requires grace > PURGE_FLOOR - URL_LIFETIME
    ensures Reaches(Start(now, grace), steps, w) && Quiet(w) && !NothingOrphaned(w)
  {
    var s := Start(now, grace);
    var s1 := Apply(s, Client(SignUrl(0)));
    var s2 := Apply(s1, Client(CreateRow(0)));
    var s3 := Apply(s2, Client(DeleteAsset(0)));
    var s4 := Apply(s3, Client(Tick(now + PURGE_FLOOR)));
    var s5 := Apply(s4, PurgeAsset(PurgeRaw(0, 0)));
    var s6 := Apply(s5, PurgeAsset(PurgeNormalized(0)));
    var s7 := Apply(s6, PurgeAsset(PublishPurge(0)));
    w := Apply(s7, Client(Upload(0)));
    assert 0 in w.store.raw && 0 !in w.ids.rows && Quiet(w);
    hide Apply;
    hide Enabled;
    steps := [Client(Upload(0))] + [];
    ReachesCons(s7, Client(Upload(0)), [], w);
    ReachesCons(s6, PurgeAsset(PublishPurge(0)), steps, w);
    steps := [PurgeAsset(PublishPurge(0))] + steps;
    ReachesCons(s5, PurgeAsset(PurgeNormalized(0)), steps, w);
    steps := [PurgeAsset(PurgeNormalized(0))] + steps;
    ReachesCons(s4, PurgeAsset(PurgeRaw(0, 0)), steps, w);
    steps := [PurgeAsset(PurgeRaw(0, 0))] + steps;
    ReachesCons(s3, Client(Tick(now + PURGE_FLOOR)), steps, w);
    steps := [Client(Tick(now + PURGE_FLOOR))] + steps;
    ReachesCons(s2, Client(DeleteAsset(0)), steps, w);
    steps := [Client(DeleteAsset(0))] + steps;
    ReachesCons(s1, Client(CreateRow(0)), steps, w);
    steps := [Client(CreateRow(0))] + steps;
    ReachesCons(s, Client(SignUrl(0)), steps, w);
    steps := [Client(SignUrl(0))] + steps;
  }

  /** Nothing is orphaned once all parties are done, in any run, exactly when an accepted upload
      completes within the five minutes between the end of its URL and the purge floor. */
  lemma NeverOrphansExactly(now: int, grace: int)
    ensures NeverOrphans(now, grace) <==> grace <= 300
  {
    if grace > PURGE_FLOOR - URL_LIFETIME {
      var steps, w := LateUploadOrphans(now, grace);
    } else {
      forall steps, w | Reaches(Start(now, grace), steps, w) && Quiet(w)
        ensures NothingOrphaned(w)
      {
        forall a: nat
          ensures a in w.store.raw + w.store.normalized ==> a in w.ids.rows
        {
          ObjectsStayCovered(now, grace, steps, w, a);
        }
      }
    }
  }
}
