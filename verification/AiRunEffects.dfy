/** What each transaction over the run tables stores and changes, told by the rows alone. */
module AiRunEffects {
  import opened Queries
  import opened AiRuns

  // ----- what is stored -----

  /** A text part, if there is a text, and then an image part, if there is an image. */
  ghost predicate StoresTurn(stored: seq<Part>, turn: Turn) {
    var texts := if turn.text == "" then 0 else 1;
    && |stored| == texts + (if turn.asset.Some? then 1 else 0)
    && (texts == 1 ==> stored[0] == Part("text", Fields(map["text" := Text(turn.text)])))
    && (turn.asset.Some? ==> stored[texts] == Part("image", Fields(map["id" := Text(turn.asset.value)])))
  }

  /** A text part, if there is a text, the question, if there is one, and then the products in their order. */
  ghost predicate StoresAnswer(stored: seq<Part>, answer: Answer) {
    var texts := if answer.text == "" then 0 else 1;
    var questions := if answer.question.None? then 0 else 1;
    && |stored| == texts + questions + |answer.products|
    && (texts == 1 ==> stored[0] == Part("text", Fields(map["text" := Text(answer.text)])))
    && (questions == 1 ==> stored[texts] == Part("ask_user", answer.question.value))
    && (forall i | 0 <= i < |answer.products| ::
          stored[texts + questions + i] == Part("product_reference", answer.products[i]))
  }

  lemma StoresTurnExactly(stored: seq<Part>, turn: Turn)
    ensures stored == PartsOf(turn) <==> StoresTurn(stored, turn)
  {
  }

  lemma {:induction false} ProductPart(products: seq<Payload>)
    ensures |ProductParts(products)| == |products|
    ensures forall i | 0 <= i < |products| :: ProductParts(products)[i] == Part("product_reference", products[i])
  {
    if products != [] {
      ProductPart(products[1..]);
    }
  }

  lemma StoredAt(stored: seq<Part>, answer: Answer, k: nat)
    requires StoresAnswer(stored, answer) && k < |stored|
    ensures var texts := if answer.text == "" then 0 else 1;
      var head := texts + if answer.question.None? then 0 else 1;
      && head <= |stored|
      && (k < texts ==> stored[k] == Part("text", Fields(map["text" := Text(answer.text)])))
      && (texts <= k < head ==> stored[k] == Part("ask_user", answer.question.value))
      && (head <= k ==> stored[k] == Part("product_reference", answer.products[k - head]))
  {
    var head := (if answer.text == "" then 0 else 1) + if answer.question.None? then 0 else 1;
    if head <= k {
      var i := k - head;
      assert stored[head + i] == Part("product_reference", answer.products[i]);
    }
  }

  lemma PartsAreStored(answer: Answer)
    ensures StoresAnswer(AnswerParts(answer), answer)
  {
    ProductPart(answer.products);
    hide ProductParts;
  }

  lemma StoresAnswerExactly(stored: seq<Part>, answer: Answer)
    ensures stored == AnswerParts(answer) <==> StoresAnswer(stored, answer)
  {
    PartsAreStored(answer);
    if StoresAnswer(stored, answer) {
      var parts := AnswerParts(answer);
      assert |parts| == |stored|;
      forall k | 0 <= k < |stored| ensures stored[k] == parts[k] {
        StoredAt(stored, answer, k);
        StoredAt(parts, answer, k);
      }
    }
    hide AnswerParts;
    hide StoresAnswer;
  }

  /** The stored parts tell text, question and products. */
  lemma PartsTellTheAnswer(stored: seq<Part>, a: Answer, b: Answer)
    requires StoresAnswer(stored, a) && StoresAnswer(stored, b)
    ensures a.text == b.text && a.question == b.question && a.products == b.products
  {
    SameHead(stored, a, b);
    SameHead(stored, b, a);
    var head := (if a.text == "" then 0 else 1) + if a.question.None? then 0 else 1;
    forall i | 0 <= i < |a.products| ensures a.products[i] == b.products[i] {
      StoredAt(stored, a, head + i);
      StoredAt(stored, b, head + i);
    }
  }

  lemma SameHead(stored: seq<Part>, a: Answer, b: Answer)
    requires StoresAnswer(stored, a) && StoresAnswer(stored, b)
    ensures a.text != "" ==> a.text == b.text
    ensures a.text == b.text && a.question.Some? ==> a.question == b.question
  {
    if a.text != "" {
      StoredAt(stored, a, 0);
      StoredAt(stored, b, 0);
      assert stored[0].payload.fields["text"] == Text(a.text);
    }
    if a.text == b.text && a.question.Some? {
      var k := if a.text == "" then 0 else 1;
      StoredAt(stored, a, k);
      StoredAt(stored, b, k);
    }
  }

  // ----- begin -----

  predicate OwnsConversation(db: Db, account: Id, conversation: Id) {
    && conversation in db.conversations
    && db.conversations[conversation].account == account && !db.conversations[conversation].deleted
  }

  /** A message that is there must be the same one; a new one needs its conversation and, with an image, a ready
      one of that account and conversation. */
  ghost predicate MayBegin(db: Db, turn: Turn) {
    && turn.run !in db.runs && OwnsConversation(db, turn.account, turn.conversation)
    && if turn.message in db.messages then
         && turn.message in db.parts && StoresTurn(db.parts[turn.message], turn)
         && db.messages[turn.message].conversation == turn.conversation
         && db.messages[turn.message].role == User && db.messages[turn.message].status == Whole
       else turn.asset.Some? ==>
         && turn.asset.value in db.assets && db.assets[turn.asset.value].account == turn.account
         && db.assets[turn.asset.value].conversation == turn.conversation && db.assets[turn.asset.value].ready
  }

  /** A reserved run with a minute's lease comes in, and unless it was there the message with its parts. */
  ghost predicate Begins(before: Db, turn: Turn, now: int, after: Db) {
    && after.runs == before.runs[turn.run :=
         Run(turn.account, turn.conversation, Reserved, now + 60_000, now, None, None)]
    && after.conversations == before.conversations && after.assets == before.assets
    && if turn.message in before.messages then after.messages == before.messages && after.parts == before.parts
       else
         && after.messages == before.messages[turn.message :=
              Message(turn.conversation, User, Some(turn.run), Whole)]
         && after.parts.Keys == before.parts.Keys + {turn.message}
         && StoresTurn(after.parts[turn.message], turn)
         && forall m | m in before.parts && m != turn.message :: after.parts[m] == before.parts[m]
  }

  ghost predicate BeginsOrRefuses(before: Db, turn: Turn, now: int, after: Db, outcome: BeginOutcome) {
    && (outcome == Begun <==> MayBegin(before, turn))
    && (outcome == RunExists <==> turn.run in before.runs)
    && (outcome == MessageConflict ==> turn.message in before.messages)
    && (outcome == ConversationNotFound ==>
          turn.message !in before.messages && !OwnsConversation(before, turn.account, turn.conversation))
    && (outcome == AssetNotFound ==>
          turn.message !in before.messages && OwnsConversation(before, turn.account, turn.conversation))
    && (outcome != Begun ==> after == before)
    && (outcome == Begun ==> Begins(before, turn, now, after))
  }

  lemma BeginTakesEffect(db: Db, turn: Turn, now: int)
    ensures BeginsOrRefuses(db, turn, now, AiRuns.BeginRun(db, turn, now), BeginOutcomeOf(db, turn))
  {
    if turn.message in db.messages && turn.message in db.parts {
      MatchesExactlyTheInsertion(db.parts[turn.message], turn);
      StoresTurnExactly(db.parts[turn.message], turn);
    }
    StoresTurnExactly(PartsOf(turn), turn);
    hide PartsOf;
    hide StoresTurn;
    hide MatchesStored;
  }

  // ----- complete -----

  ghost predicate Completes(before: Db, run: Id, answer: Answer, now: int, after: Db, outcome: CompleteOutcome) {
    && (outcome == LeaseLost <==> !(run in before.runs && before.runs[run].status == Reserved))
    && (outcome == Answered <==>
          && run in before.runs && before.runs[run].status == Reserved && answer.message !in before.messages
          && (answer.text != "" || answer.question.Some? || answer.products != []))
    && (outcome != Answered ==> after == before)
    && (outcome == Answered && run in before.runs ==>
          && after.runs == before.runs[run := before.runs[run].(status := Completed, completedAt := Some(now))]
          && after.messages == before.messages[answer.message :=
               Message(answer.conversation, Assistant, Some(run), Whole)]
          && after.parts.Keys == before.parts.Keys + {answer.message}
          && StoresAnswer(after.parts[answer.message], answer)
          && (forall m | m in before.parts && m != answer.message :: after.parts[m] == before.parts[m])
          && after.conversations == before.conversations && after.assets == before.assets)
  }

  lemma CompletionTakesEffect(db: Db, run: Id, answer: Answer, now: int)
    ensures Completes(db, run, answer, now, AiRuns.CompleteRun(db, run, answer, now),
                      CompleteOutcomeOf(db, run, answer))
  {
    StoresAnswerExactly(AnswerParts(answer), answer);
    hide AnswerParts;
  }

  // ----- one row -----

  /** Of one run the row changes; all else stays. */
  ghost predicate Becomes(before: Db, run: Id, row: Run, after: Db) {
    after == before.(runs := after.runs) && after.runs == before.runs[run := row]
  }

  ghost predicate Fails(before: Db, run: Id, close: bool, now: int, after: Db) {
    if run in before.runs && before.runs[run].status == Reserved then
      var row := before.runs[run];
      Becomes(before, run, Run(row.account, row.conversation, Failed, row.deadline, row.heartbeat, Some(now),
                               if close then Some(now) else row.closedAt), after)
    else after == before
  }

  lemma FailureTakesEffect(db: Db, run: Id, close: bool, now: int)
    ensures Fails(db, run, close, now, AiRuns.FailRun(db, run, close, now))
  {
  }

  /** Only the account and conversation of a run may cancel it, and only while it is reserved. */
  ghost predicate Cancels(before: Db, account: Id, conversation: Id, run: Id, now: int, after: Db,
                          outcome: CancelOutcome)
  {
    var own :=
      run in before.runs && before.runs[run].account == account && before.runs[run].conversation == conversation;
    && (outcome == RunNotFound <==> !own)
    && (outcome == CancelledNow <==> own && before.runs[run].status == Reserved)
    && (outcome == AlreadyCancelled <==> own && before.runs[run].status == AiRuns.Cancelled)
    && (outcome == AlreadyCompleted <==> own && before.runs[run].status == Completed)
    && (outcome == AlreadyFailed <==> own && before.runs[run].status == Failed)
    && (outcome != CancelledNow ==> after == before)
    && (outcome == CancelledNow && own ==>
          var row := before.runs[run];
          Becomes(before, run, Run(account, conversation, AiRuns.Cancelled, row.deadline, row.heartbeat, Some(now),
                                   Some(now)), after))
  }

  lemma CancellationTakesEffect(db: Db, account: Id, conversation: Id, run: Id, now: int)
    ensures Cancels(db, account, conversation, run, now, AiRuns.CancelRun(db, account, conversation, run, now),
                    CancelOutcomeOf(db, account, conversation, run))
  {
  }

  /** A reserved run gets a minute more. */
  ghost predicate Renews(before: Db, run: Id, now: int, after: Db, renewed: bool) {
    && (renewed <==> run in before.runs && before.runs[run].status == Reserved)
    && (!renewed ==> after == before)
    && (renewed && run in before.runs ==>
          var row := before.runs[run];
          Becomes(before, run, Run(row.account, row.conversation, Reserved, now + 60_000, now, row.completedAt,
                                   row.closedAt), after))
  }

  lemma RenewalTakesEffect(db: Db, run: Id, now: int)
    ensures Renews(db, run, now, AiRuns.RenewRunLease(db, run, now), IsReserved(db, run))
  {
  }

  /** The lease is over, or there was no heartbeat for two minutes. */
  predicate IsStale(row: Run, now: int) {
    row.status == Reserved && (row.deadline <= now || row.heartbeat + 120_000 <= now)
  }

  ghost predicate Recovers(before: Db, locked: set<Id>, now: int, after: Db) {
    && after == before.(runs := after.runs) && after.runs.Keys == before.runs.Keys
    && forall r | r in before.runs ::
         var row := before.runs[r];
         after.runs[r] ==
           if r !in locked && IsStale(row, now)
           then Run(row.account, row.conversation, Failed, row.deadline, row.heartbeat, Some(now), Some(now)) else row
  }

  lemma RecoveryTakesEffect(db: Db, locked: set<Id>, now: int)
    ensures Recovers(db, locked, now, RecoverStale(db, locked, now))
  {
  }

  // ----- the rest of the system -----

  /** An archived message goes with its parts, and a deleted conversation is owned by nobody. */
  lemma RemovalsTakeEffect(db: Db, message: Id, conversation: Id, account: Id)
    ensures var next := AiRuns.Apply(db, RemoveMessage(message));
      && next.messages == db.messages - {message} && next.parts == db.parts - {message}
      && next.runs == db.runs && next.conversations == db.conversations && next.assets == db.assets
    ensures conversation in db.conversations ==>
      !OwnsConversation(AiRuns.Apply(db, DeleteConversation(conversation)), account, conversation)
    ensures conversation !in db.conversations ==>
      OwnsConversation(AiRuns.Apply(db, CreateConversation(conversation, account)), account, conversation)
  {
  }
}
