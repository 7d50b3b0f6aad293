/** The rows of an AI run and the transactions that compete for them: begin, renew, complete, fail,
    cancel and the recovery of stale runs. Times are in milliseconds. */
module AiRuns {
  import opened Queries

  type Id = string

  const RUN_LEASE: int := 60000
  const HEARTBEAT_LIMIT: int := 120000

  datatype Status = Reserved | Completed | Failed | Cancelled

  datatype Run = Run(account: Id, conversation: Id, status: Status, deadline: int, heartbeat: int,
                     completedAt: Option<int>, closedAt: Option<int>)

  datatype Role = User | Assistant

  datatype MessageStatus = Whole | Pending | Broken

  datatype Message = Message(conversation: Id, role: Role, run: Option<Id>, status: MessageStatus)

  datatype Json = Text(value: string) | OtherJson

  datatype Payload = Fields(fields: map<string, Json>) | OtherPayload

  datatype Part = Part(kind: string, payload: Payload)

  datatype Conversation = Conversation(account: Id, deleted: bool)

  datatype Asset = Asset(account: Id, conversation: Id, ready: bool)

  datatype Db = Db(
    runs: map<Id, Run>,
    messages: map<Id, Message>,
    parts: map<Id, seq<Part>>,
    conversations: map<Id, Conversation>,
    assets: map<Id, Asset>)

  // ----- the parts of a user's message -----

  datatype Turn = Turn(account: Id, conversation: Id, run: Id, message: Id, text: string, asset: Option<Id>)

  function TextPart(text: string): Part {
    Part("text", Fields(map["text" := Text(text)]))
  }

  function ImagePart(asset: Id): Part {
    Part("image", Fields(map["id" := Text(asset)]))
  }

  /** What a first begin inserts. */
  function PartsOf(turn: Turn): seq<Part> {
    (if turn.text != "" then [TextPart(turn.text)] else [])
    + (if turn.asset.Some? then [ImagePart(turn.asset.value)] else [])
  }

  datatype Expected = Expected(kind: string, value: string)

  function ExpectedOf(turn: Turn): seq<Expected> {
    (if turn.text != "" then [Expected("text", turn.text)] else [])
    + (if turn.asset.Some? then [Expected("image", turn.asset.value)] else [])
  }

  predicate StoredAs(part: Part, e: Expected) {
    && part.kind == e.kind && part.payload.Fields? && |part.payload.fields| == 1
    && (var key := if part.kind == "text" then "text" else "id";
        key in part.payload.fields && part.payload.fields[key] == Text(e.value))
  }

  /** What a later begin with the same message id compares. */
  predicate MatchesStored(stored: seq<Part>, turn: Turn) {
    var expected := ExpectedOf(turn);
    |stored| == |expected| && forall i | 0 <= i < |stored| :: StoredAs(stored[i], expected[i])
  }

  lemma OnlyKey(fields: map<string, Json>, key: string)
    requires key in fields && |fields| == 1
    ensures fields == map[key := fields[key]]
  {
    forall k | k in fields ensures k == key {
      if k != key {
        assert {k, key} <= fields.Keys && |{k, key}| == 2;
        SubsetIsSmaller({k, key}, fields.Keys);
      }
    }
  }

  lemma {:induction false} SubsetIsSmaller(a: set<string>, b: set<string>)
    requires a <= b
    ensures |a| <= |b|
    decreases a
  {
    if a != {} {
      var x :| x in a;
      SubsetIsSmaller(a - {x}, b - {x});
    }
  }

  /** The comparison accepts exactly what the insertion stores. */
  lemma MatchesExactlyTheInsertion(stored: seq<Part>, turn: Turn)
    ensures MatchesStored(stored, turn) <==> stored == PartsOf(turn)
  {
    if MatchesStored(stored, turn) {
      forall i | 0 <= i < |stored| ensures stored[i] == PartsOf(turn)[i] {
        assert StoredAs(stored[i], ExpectedOf(turn)[i]);
        OnlyKey(stored[i].payload.fields, if stored[i].kind == "text" then "text" else "id");
      }
    }
  }

  lemma PartsTellTheTurn(a: Turn, b: Turn)
    requires PartsOf(a) == PartsOf(b)
    ensures a.text == b.text && a.asset == b.asset
  {
    if a.text != "" {
      assert PartsOf(a)[0] == TextPart(a.text);
    } else if a.asset.Some? {
      assert PartsOf(a)[0] == ImagePart(a.asset.value);
    }
    if b.text != "" {
      assert PartsOf(b)[0] == TextPart(b.text);
    } else if b.asset.Some? {
      assert PartsOf(b)[0] == ImagePart(b.asset.value);
    }
    assert TextPart(a.text).payload.fields["text"] == Text(a.text);
    assert TextPart(b.text).payload.fields["text"] == Text(b.text);
    if a.asset.Some? && b.asset.Some? {
      assert PartsOf(a)[|PartsOf(a)| - 1] == ImagePart(a.asset.value);
      assert PartsOf(b)[|PartsOf(b)| - 1] == ImagePart(b.asset.value);
      assert ImagePart(a.asset.value).payload.fields["id"] == Text(a.asset.value);
      assert ImagePart(b.asset.value).payload.fields["id"] == Text(b.asset.value);
    }
  }

  // ----- begin -----

  datatype BeginOutcome = Begun | RunExists | MessageConflict | ConversationNotFound | AssetNotFound

  function NewRun(turn: Turn, now: int): Run {
    Run(turn.account, turn.conversation, Reserved, now + RUN_LEASE, now, None, None)
  }

  predicate Owns(db: Db, turn: Turn) {
    && turn.conversation in db.conversations && !db.conversations[turn.conversation].deleted
    && db.conversations[turn.conversation].account == turn.account
  }

  predicate SameMessage(db: Db, turn: Turn)
    requires turn.message in db.messages
  {
    var m := db.messages[turn.message];
    && m.conversation == turn.conversation && m.role.User? && m.status.Whole?
    && Owns(db, turn)
    && turn.message in db.parts && MatchesStored(db.parts[turn.message], turn)
  }

  predicate HasReadyAsset(db: Db, turn: Turn) {
    turn.asset.None? ||
    (turn.asset.value in db.assets && db.assets[turn.asset.value] == Asset(turn.account, turn.conversation, true))
  }

  function BeginOutcomeOf(db: Db, turn: Turn): BeginOutcome {
    if turn.run in db.runs then RunExists
    else if turn.message in db.messages then
      if SameMessage(db, turn) then Begun else MessageConflict
    else if !Owns(db, turn) then ConversationNotFound
    else if !HasReadyAsset(db, turn) then AssetNotFound
    else Begun
  }

  function BeginRun(db: Db, turn: Turn, now: int): Db {
    if !BeginOutcomeOf(db, turn).Begun? then db
    else
      var begun := db.(runs := db.runs[turn.run := NewRun(turn, now)]);
      if turn.message in db.messages then begun
      else begun.(messages := db.messages[turn.message := Message(turn.conversation, User, Some(turn.run), Whole)],
                  parts := db.parts[turn.message := PartsOf(turn)])
  }

  // ----- complete -----

  datatype Answer =
    Answer(conversation: Id, message: Id, text: string, question: Option<Payload>, products: seq<Payload>)

  function ProductParts(products: seq<Payload>): seq<Part> {
    if products == [] then [] else [Part("product_reference", products[0])] + ProductParts(products[1..])
  }

  function AnswerParts(answer: Answer): seq<Part> {
    (if answer.text != "" then [TextPart(answer.text)] else [])
    + (if answer.question.Some? then [Part("ask_user", answer.question.value)] else [])
    + ProductParts(answer.products)
  }

  datatype CompleteOutcome = Answered | LeaseLost | InsertFailed

  /** The update is guarded by the status; a message that exists, or an answer without parts, fails
      the insertion and undoes the update. */
  function CompleteOutcomeOf(db: Db, run: Id, answer: Answer): CompleteOutcome {
    if run !in db.runs || !db.runs[run].status.Reserved? then LeaseLost
    else if answer.message in db.messages || AnswerParts(answer) == [] then InsertFailed
    else Answered
  }

  function CompleteRun(db: Db, run: Id, answer: Answer, now: int): Db {
    if !CompleteOutcomeOf(db, run, answer).Answered? then db
    else db.(runs := db.runs[run := db.runs[run].(status := Completed, completedAt := Some(now))],
             messages := db.messages[answer.message := Message(answer.conversation, Assistant, Some(run), Whole)],
             parts := db.parts[answer.message := AnswerParts(answer)])
  }

  // ----- fail, cancel, renew, recover -----

  predicate IsReserved(db: Db, run: Id) {
    run in db.runs && db.runs[run].status.Reserved?
  }

  function FailRun(db: Db, run: Id, close: bool, now: int): Db {
    if !IsReserved(db, run) then db
    else
      var row := db.runs[run];
      db.(runs := db.runs[run := row.(status := Failed, completedAt := Some(now),
                                      closedAt := if close then Some(now) else row.closedAt)])
  }

  datatype CancelOutcome = CancelledNow | AlreadyCancelled | AlreadyCompleted | AlreadyFailed | RunNotFound

  predicate OwnsRun(db: Db, account: Id, conversation: Id, run: Id) {
    run in db.runs && db.runs[run].account == account && db.runs[run].conversation == conversation
  }

  function CancelOutcomeOf(db: Db, account: Id, conversation: Id, run: Id): CancelOutcome {
    if !OwnsRun(db, account, conversation, run) then RunNotFound
    else match db.runs[run].status
      case Reserved => CancelledNow
      case Cancelled => AlreadyCancelled
      case Completed => AlreadyCompleted
      case Failed => AlreadyFailed
  }

  function CancelRun(db: Db, account: Id, conversation: Id, run: Id, now: int): Db {
    if !CancelOutcomeOf(db, account, conversation, run).CancelledNow? then db
    else
      var ended := db.runs[run].(status := Cancelled, completedAt := Some(now), closedAt := Some(now));
      db.(runs := db.runs[run := ended])
  }

  function RenewRunLease(db: Db, run: Id, now: int): Db {
    if !IsReserved(db, run) then db
    else db.(runs := db.runs[run := db.runs[run].(heartbeat := now, deadline := now + RUN_LEASE)])
  }

  predicate Stale(run: Run, now: int) {
    run.status.Reserved? && (run.deadline <= now || run.heartbeat <= now - HEARTBEAT_LIMIT)
  }

  function Recovered(run: Run, now: int): Run {
    if Stale(run, now) then run.(status := Failed, completedAt := Some(now), closedAt := Some(now)) else run
  }

  /** Rows someone else has locked are passed over. */
  function RecoverStale(db: Db, locked: set<Id>, now: int): Db {
    db.(runs := map r | r in db.runs :: if r in locked then db.runs[r] else Recovered(db.runs[r], now))
  }

  // ----- runs of the system -----

  datatype Step =
    | Begin(turn: Turn, now: int)
    | Complete(run: Id, answer: Answer, now: int)
    | Fail(run: Id, close: bool, now: int)
    | Cancel(account: Id, conversation: Id, run: Id, now: int)
    | Renew(run: Id, now: int)
    | Recover(locked: set<Id>, now: int)
    | RemoveMessage(message: Id)                 // archived
    | CreateConversation(conversation: Id, account: Id)
    | DeleteConversation(conversation: Id)
    | PutAsset(asset: Id, row: Asset)
    | DropAsset(asset: Id)

  /** A conversation never changes hands. */
  predicate Enabled(db: Db, step: Step) {
    match step
    case CreateConversation(conversation, _) => conversation !in db.conversations
    case DeleteConversation(conversation) => conversation in db.conversations
    case _ => true
  }

  function Apply(db: Db, step: Step): Db
    requires Enabled(db, step)
  {
    match step
    case Begin(turn, now) => BeginRun(db, turn, now)
    case Complete(run, answer, now) => CompleteRun(db, run, answer, now)
    case Fail(run, close, now) => FailRun(db, run, close, now)
    case Cancel(account, conversation, run, now) => CancelRun(db, account, conversation, run, now)
    case Renew(run, now) => RenewRunLease(db, run, now)
    case Recover(locked, now) => RecoverStale(db, locked, now)
    case RemoveMessage(message) => db.(messages := db.messages - {message}, parts := db.parts - {message})
    case CreateConversation(conversation, account) =>
      db.(conversations := db.conversations[conversation := Conversation(account, false)])
    case DeleteConversation(conversation) =>
      db.(conversations := db.conversations[conversation := db.conversations[conversation].(deleted := true)])
    case PutAsset(asset, row) => db.(assets := db.assets[asset := row])
    case DropAsset(asset) => db.(assets := db.assets - {asset})
  }

  const EMPTY: Db := Db(map[], map[], map[], map[], map[])

  predicate Legal(db: Db, steps: seq<Step>)
    decreases |steps|
  {
    steps == [] || (Enabled(db, steps[0]) && Legal(Apply(db, steps[0]), steps[1..]))
  }

  function After(db: Db, steps: seq<Step>): Db
    requires Legal(db, steps)
    decreases |steps|
  {
    if steps == [] then db else After(Apply(db, steps[0]), steps[1..])
  }

  /** How often a run left `reserved`. */
  function Exits(db: Db, steps: seq<Step>, run: Id): nat
    requires Legal(db, steps)
    decreases |steps|
  {
    if steps == [] then 0
    else
      var next := Apply(db, steps[0]);
      (if IsReserved(db, run) && !IsReserved(next, run) then 1 else 0) + Exits(next, steps[1..], run)
  }

  /** The assistant messages of a run that are there after a step and were not before. */
  function NewAnswers(before: Db, after: Db, run: Id): set<Id> {
    set m | m in after.messages && m !in before.messages
            && after.messages[m].role.Assistant? && after.messages[m].run == Some(run)
  }

  /** How many assistant messages a run ever got, archived ones included. */
  function Answers(db: Db, steps: seq<Step>, run: Id): nat
    requires Legal(db, steps)
    decreases |steps|
  {
    if steps == [] then 0
    else
      var next := Apply(db, steps[0]);
      |NewAnswers(db, next, run)| + Answers(next, steps[1..], run)
  }

  predicate IsOver(db: Db, run: Id) {
    run in db.runs && !db.runs[run].status.Reserved?
  }

  predicate IsCompleted(db: Db, run: Id) {
    run in db.runs && db.runs[run].status.Completed?
  }

  // ----- one step -----

  /** A run that is over keeps its row for good. */
  lemma OverIsFinal(db: Db, step: Step, run: Id)
    requires Enabled(db, step) && IsOver(db, run)
    ensures run in Apply(db, step).runs && Apply(db, step).runs[run] == db.runs[run]
  {
  }

  lemma ReservedStays(db: Db, step: Step, run: Id)
    requires Enabled(db, step) && run in db.runs
    ensures run in Apply(db, step).runs
    ensures Apply(db, step).runs[run].account == db.runs[run].account
         && Apply(db, step).runs[run].conversation == db.runs[run].conversation
  {
  }

  lemma OnlyBeginAddsRuns(db: Db, step: Step, run: Id)
    requires Enabled(db, step) && run !in db.runs && run in Apply(db, step).runs
    ensures Apply(db, step).runs[run].status.Reserved?
  {
  }

  lemma AnswersAtCompletion(db: Db, step: Step, run: Id)
    requires Enabled(db, step)
    ensures |NewAnswers(db, Apply(db, step), run)|
         == if IsCompleted(Apply(db, step), run) && !IsCompleted(db, run) then 1 else 0
  {
    var next := Apply(db, step);
    if step.Complete? && CompleteOutcomeOf(db, step.run, step.answer).Answered? && step.run == run {
      assert NewAnswers(db, next, run) == {step.answer.message};
    } else {
      assert NewAnswers(db, next, run) == {};
    }
  }

  // ----- whole runs -----

  lemma {:induction false} OverForEver(db: Db, steps: seq<Step>, run: Id)
    requires Legal(db, steps) && IsOver(db, run)
    ensures run in After(db, steps).runs && After(db, steps).runs[run] == db.runs[run]
    ensures Exits(db, steps, run) == 0
    decreases |steps|
  {
    if steps != [] {
      hide Apply;
      hide Enabled;
      OverIsFinal(db, steps[0], run);
      OverForEver(Apply(db, steps[0]), steps[1..], run);
    }
  }

  /** A run leaves `reserved` once if it ends, and never again: whoever comes first wins. */
  lemma {:induction false} ReservedIsLeftOnce(db: Db, steps: seq<Step>, run: Id)
    requires Legal(db, steps) && !IsOver(db, run)
    ensures Exits(db, steps, run) == if IsOver(After(db, steps), run) then 1 else 0
    decreases |steps|
  {
    if steps != [] {
      hide Apply;
      hide Enabled;
      var next := Apply(db, steps[0]);
      if run in db.runs {
        ReservedStays(db, steps[0], run);
      } else if run in next.runs {
        OnlyBeginAddsRuns(db, steps[0], run);
      }
      if IsOver(next, run) {
        OverForEver(next, steps[1..], run);
      } else {
        ReservedIsLeftOnce(next, steps[1..], run);
      }
    }
  }

  /** A completed run got exactly one assistant message, any other run none. */
  lemma {:induction false} OneAnswerIfCompleted(db: Db, steps: seq<Step>, run: Id)
    requires Legal(db, steps) && !IsCompleted(db, run)
    ensures Answers(db, steps, run) == if IsCompleted(After(db, steps), run) then 1 else 0
    decreases |steps|
  {
    if steps != [] {
      hide Apply;
      hide Enabled;
      hide NewAnswers;
      var next := Apply(db, steps[0]);
      AnswersAtCompletion(db, steps[0], run);
      if IsCompleted(next, run) {
        NoMoreAnswers(next, steps[1..], run);
      } else {
        OneAnswerIfCompleted(next, steps[1..], run);
      }
    }
  }

  lemma {:induction false} NoMoreAnswers(db: Db, steps: seq<Step>, run: Id)
    requires Legal(db, steps) && IsCompleted(db, run)
    ensures Answers(db, steps, run) == 0 && IsCompleted(After(db, steps), run)
    decreases |steps|
  {
    if steps != [] {
      hide Apply;
      hide Enabled;
      hide NewAnswers;
      OverIsFinal(db, steps[0], run);
      AnswersAtCompletion(db, steps[0], run);
      NoMoreAnswers(Apply(db, steps[0]), steps[1..], run);
    }
  }

  // ----- why a run ended -----

  /** The step accounts for how the run ended: its own completion, a failure or a recovery, or a
      cancellation by its owner from its conversation. */
  predicate Ends(step: Step, run: Id, row: Run) {
    match row.status
    case Reserved => false
    case Completed => step.Complete? && step.run == run && row.completedAt == Some(step.now)
    case Failed =>
      || (step.Fail? && step.run == run && row.completedAt == Some(step.now)
          && (row.closedAt.Some? ==> step.close))
      || (step.Recover? && run !in step.locked && row.completedAt == Some(step.now) == row.closedAt)
    case Cancelled =>
      && step.Cancel? && step == Cancel(row.account, row.conversation, run, step.now)
      && row.completedAt == Some(step.now) == row.closedAt
  }

  ghost predicate OpenWhileReserved(db: Db) {
    forall r | r in db.runs && db.runs[r].status.Reserved? :: db.runs[r].closedAt.None?
  }

  lemma EndingStep(db: Db, step: Step, run: Id)
    requires Enabled(db, step) && OpenWhileReserved(db) && !IsOver(db, run) && IsOver(Apply(db, step), run)
    ensures Ends(step, run, Apply(db, step).runs[run])
  {
  }

  lemma OpenStays(db: Db, step: Step)
    requires Enabled(db, step) && OpenWhileReserved(db)
    ensures OpenWhileReserved(Apply(db, step))
  {
  }

  /** A run that is over was ended by one of the steps, and its row says by which kind and when. */
  lemma {:induction false} EveryEndHasItsCause(db: Db, steps: seq<Step>, run: Id)
    requires Legal(db, steps) && OpenWhileReserved(db) && !IsOver(db, run) && IsOver(After(db, steps), run)
    ensures exists i :: 0 <= i < |steps| && Ends(steps[i], run, After(db, steps).runs[run])
    decreases |steps|
  {
    hide Apply;
    hide Enabled;
    hide Ends;
    var next := Apply(db, steps[0]);
    if IsOver(next, run) {
      EndingStep(db, steps[0], run);
      OverForEver(next, steps[1..], run);
    } else {
      OpenStays(db, steps[0]);
      EveryEndHasItsCause(next, steps[1..], run);
      var i :| 0 <= i < |steps[1..]| && Ends(steps[1..][i], run, After(next, steps[1..]).runs[run]);
      assert steps[i + 1] == steps[1..][i];
    }
  }

  // ----- one message id, one turn -----

  /** The message is there with the turn's conversation, owner and parts. */
  ghost predicate Carries(db: Db, turn: Turn) {
    && turn.message in db.messages && db.messages[turn.message].conversation == turn.conversation
    && turn.message in db.parts && db.parts[turn.message] == PartsOf(turn)
    && turn.conversation in db.conversations && db.conversations[turn.conversation].account == turn.account
  }

  lemma BegunCarries(db: Db, turn: Turn, now: int)
    requires BeginOutcomeOf(db, turn).Begun?
    ensures Carries(BeginRun(db, turn, now), turn)
  {
    if turn.message in db.messages {
      MatchesExactlyTheInsertion(db.parts[turn.message], turn);
    }
  }

  lemma CarriesOn(db: Db, turn: Turn, step: Step)
    requires Carries(db, turn) && Enabled(db, step) && step != RemoveMessage(turn.message)
    ensures Carries(Apply(db, step), turn)
  {
    hide PartsOf;
  }

  lemma {:induction false} CarriesThrough(db: Db, turn: Turn, steps: seq<Step>)
    requires Carries(db, turn) && Legal(db, steps) && RemoveMessage(turn.message) !in steps
    ensures Carries(After(db, steps), turn)
    decreases |steps|
  {
    if steps != [] {
      hide Apply;
      hide Enabled;
      hide Carries;
      CarriesOn(db, turn, steps[0]);
      CarriesThrough(Apply(db, steps[0]), turn, steps[1..]);
    }
  }

  /** As long as a user's message is there, every run that begins with its id is for the same
      account, conversation, text and image, and inserts neither message nor parts again. */
  lemma OneTurnPerLiveMessage(db: Db, first: Turn, begun: int, steps: seq<Step>, second: Turn, now: int)
    requires BeginOutcomeOf(db, first).Begun? && Legal(BeginRun(db, first, begun), steps)
    requires RemoveMessage(first.message) !in steps && second.message == first.message
    requires BeginOutcomeOf(After(BeginRun(db, first, begun), steps), second).Begun?
    ensures second.(run := first.run) == first
    ensures var later := After(BeginRun(db, first, begun), steps);
            BeginRun(later, second, now) == later.(runs := later.runs[second.run := NewRun(second, now)])
  {
    BegunCarries(db, first, begun);
    CarriesThrough(BeginRun(db, first, begun), first, steps);
    var later := After(BeginRun(db, first, begun), steps);
    MatchesExactlyTheInsertion(later.parts[first.message], second);
    PartsTellTheTurn(first, second);
  }

  // ----- leases -----

  ghost predicate Leased(db: Db) {
    forall r | r in db.runs :: db.runs[r].deadline == db.runs[r].heartbeat + RUN_LEASE
  }

  lemma LeasedOn(db: Db, step: Step)
    requires Leased(db) && Enabled(db, step)
    ensures Leased(Apply(db, step))
  {
  }

  lemma {:induction false} LeasedThrough(db: Db, steps: seq<Step>)
    requires Leased(db) && Legal(db, steps)
    ensures Leased(After(db, steps))
    decreases |steps|
  {
    if steps != [] {
      hide Apply;
      hide Enabled;
      hide Leased;
      LeasedOn(db, steps[0]);
      LeasedThrough(Apply(db, steps[0]), steps[1..]);
    }
  }

  /** In every reachable state a recovery fails exactly the reserved runs whose minute is over: the
      two-minute limit on the heartbeat never adds one. */
  lemma RecoveryFollowsTheLease(steps: seq<Step>, run: Id, locked: set<Id>, now: int)
    requires Legal(EMPTY, steps) && run in After(EMPTY, steps).runs
    ensures var row := After(EMPTY, steps).runs[run];
            var recovered := RecoverStale(After(EMPTY, steps), locked, now).runs[run];
            && (Stale(row, now) <==> row.status.Reserved? && row.heartbeat + RUN_LEASE <= now)
            && (recovered != row <==> row.status.Reserved? && row.heartbeat + RUN_LEASE <= now && run !in locked)
  {
    LeasedThrough(EMPTY, steps);
  }
}
