/** The repository's transactions over the run tables, statement by statement; a transaction that
    fails puts back what it had changed. */
module AiRunRepository {
  import opened Queries
  import opened AiRuns
  import opened AiRunEffects

  class AiRepository {
    var runs: map<Id, Run>
    var messages: map<Id, Message>
    var parts: map<Id, seq<Part>>
    var conversations: map<Id, Conversation>
    var assets: map<Id, Asset>

    ghost function Tables(): Db
      reads this
    {
      Db(runs, messages, parts, conversations, assets)
    }

    constructor ()
      ensures Tables() == EMPTY
    {
      runs := map[];
      messages := map[];
      parts := map[];
      conversations := map[];
      assets := map[];
    }

    /** Claims the run id, then either recognises the message or stores it. */
    method BeginRun(turn: Turn, now: int) returns (outcome: BeginOutcome)
      modifies this
      ensures Tables() == AiRuns.BeginRun(old(Tables()), turn, now)
      ensures outcome == BeginOutcomeOf(old(Tables()), turn)
      ensures BeginsOrRefuses(old(Tables()), turn, now, Tables(), outcome)
    {
      hide BeginsOrRefuses;
      BeginTakesEffect(Tables(), turn, now);
      if turn.run in runs {
        return RunExists;
      }
      var before := runs;
      runs := runs[turn.run := NewRun(turn, now)];
      if turn.message in messages {
        var same := RecognisesMessage(turn);
        assert SameMessage(Tables(), turn) == SameMessage(old(Tables()), turn);
        if !same {
          runs := before;
          return MessageConflict;
        }
        return Begun;
      }
      if !(turn.conversation in conversations && !conversations[turn.conversation].deleted
           && conversations[turn.conversation].account == turn.account) {
        runs := before;
        return ConversationNotFound;
      }
      if turn.asset.Some? {
        if !(turn.asset.value in assets && assets[turn.asset.value] == Asset(turn.account, turn.conversation, true)) {
          runs := before;
          return AssetNotFound;
        }
      }
      messages := messages[turn.message := Message(turn.conversation, User, Some(turn.run), Whole)];
      var stored: seq<Part> := [];
      if |turn.text| > 0 {
        stored := stored + [TextPart(turn.text)];
      }
      if turn.asset.Some? {
        stored := stored + [ImagePart(turn.asset.value)];
      }
      assert stored == PartsOf(turn);
      parts := parts[turn.message := stored];
      outcome := Begun;
    }

    method RecognisesMessage(turn: Turn) returns (same: bool)
      requires turn.message in messages
      ensures same == (turn.message in messages && SameMessage(Tables(), turn))
    {
      var m := messages[turn.message];
      if m.conversation !in conversations {
        return false;
      }
      var conversation := conversations[m.conversation];
      if conversation.account != turn.account || m.conversation != turn.conversation || conversation.deleted
         || m.role != User || m.status != Whole || turn.message !in parts
      {
        return false;
      }
      var stored := parts[turn.message];
      var expected := ExpectedOf(turn);
      if |stored| != |expected| {
        return false;
      }
      var i := 0;
      while i < |stored|
        invariant 0 <= i <= |stored|
        invariant forall k | 0 <= k < i :: StoredAs(stored[k], expected[k])
      {
        if !StoredAs(stored[i], expected[i]) {
          return false;
        }
        i := i + 1;
      }
      same := true;
    }

    /** Completes the row before it inserts the answer; both stand or neither. */
    method CompleteRun(run: Id, answer: Answer, now: int) returns (outcome: CompleteOutcome)
      modifies this
      ensures Tables() == AiRuns.CompleteRun(old(Tables()), run, answer, now)
      ensures outcome == CompleteOutcomeOf(old(Tables()), run, answer)
      ensures Completes(old(Tables()), run, answer, now, Tables(), outcome)
      ensures outcome.Answered? ==> answer.message in parts && StoresAnswer(parts[answer.message], answer)
    {
      hide Completes;
      hide StoresAnswer;
      hide ProductParts;
      hide AnswerParts;
      CompletionTakesEffect(Tables(), run, answer, now);
      PartsAreStored(answer);
      if run !in runs || runs[run].status != Reserved {
        return LeaseLost;
      }
      var before := runs;
      runs := runs[run := runs[run].(status := Completed, completedAt := Some(now))];
      var stored: seq<Part> := [];
      if |answer.text| > 0 {
        stored := stored + [TextPart(answer.text)];
      }
      if answer.question.Some? {
        stored := stored + [Part("ask_user", answer.question.value)];
      }
      HeadIsStored(answer, stored);
      ghost var claimed := Tables();
      var i := 0;
      while i < |answer.products|
        invariant 0 <= i <= |answer.products|
        invariant stored + ProductParts(answer.products[i..]) == AnswerParts(answer)
        invariant Tables() == claimed
      {
        NextProduct(stored, answer.products, i);
        stored := stored + [Part("product_reference", answer.products[i])];
        i := i + 1;
      }
      NoMoreProducts(stored, answer.products);
      assert stored == AnswerParts(answer);
      if answer.message in messages || stored == [] {
        runs := before;
        return InsertFailed;
      }
      messages := messages[answer.message := Message(answer.conversation, Assistant, Some(run), Whole)];
      parts := parts[answer.message := stored];
      outcome := Answered;
    }

    method FailRun(run: Id, now: int)
      modifies this
      ensures Tables() == AiRuns.FailRun(old(Tables()), run, false, now)
      ensures Fails(old(Tables()), run, false, now, Tables())
    {
      if run in runs && runs[run].status == Reserved {
        runs := runs[run := runs[run].(status := Failed, completedAt := Some(now))];
      }
    }

    method FailRunAndClose(run: Id, now: int)
      modifies this
      ensures Tables() == AiRuns.FailRun(old(Tables()), run, true, now)
      ensures Fails(old(Tables()), run, true, now, Tables())
    {
      if run in runs && runs[run].status == Reserved {
        runs := runs[run := runs[run].(status := Failed, completedAt := Some(now), closedAt := Some(now))];
      }
    }

    method CancelRun(account: Id, conversation: Id, run: Id, now: int) returns (outcome: CancelOutcome)
      modifies this
      ensures Tables() == AiRuns.CancelRun(old(Tables()), account, conversation, run, now)
      ensures outcome == CancelOutcomeOf(old(Tables()), account, conversation, run)
      ensures Cancels(old(Tables()), account, conversation, run, now, Tables(), outcome)
    {
      var owned := run in runs && runs[run].account == account && runs[run].conversation == conversation;
      if owned && runs[run].status == Reserved {
        runs := runs[run := runs[run].(status := Cancelled, completedAt := Some(now), closedAt := Some(now))];
        return CancelledNow;
      }
      if !owned {
        return RunNotFound;
      }
      var status := runs[run].status;
      if status == Cancelled {
        return AlreadyCancelled;
      }
      outcome := if status == Completed then AlreadyCompleted else AlreadyFailed;
    }

    method RenewRunLease(run: Id, now: int) returns (renewed: bool)
      modifies this
      ensures Tables() == AiRuns.RenewRunLease(old(Tables()), run, now)
      ensures renewed == IsReserved(old(Tables()), run)
      ensures Renews(old(Tables()), run, now, Tables(), renewed)
    {
      renewed := run in runs && runs[run].status == Reserved;
      if renewed {
        runs := runs[run := runs[run].(heartbeat := now, deadline := now + RUN_LEASE)];
      }
    }

    /** Selects the stale rows nobody holds and fails them one by one. */
    method RecoverStaleReservedRuns(locked: set<Id>, now: int) returns (recovered: nat)
      modifies this
      ensures Tables() == RecoverStale(old(Tables()), locked, now)
      ensures Recovers(old(Tables()), locked, now, Tables())
      ensures recovered == |set r | r in old(runs) && r !in locked && IsStale(old(runs)[r], now)|
    {
      hide Recovers;
      hide RecoverStale;
      hide Recovered;
      hide RecoveredSoFar;
      hide StaleRuns;
      RecoveryTakesEffect(Tables(), locked, now);
      ghost var was := Tables();
      ghost var all := StaleRuns(was, locked, now);
      var stale := set r | r in runs && r !in locked && Stale(runs[r], now);
      StaleAre(was, locked, now);
      NoneRecovered(was, now);
      assert all - stale == {};
      recovered := 0;
      while stale != {}
        invariant stale <= all && recovered == |all| - |stale|
        invariant RecoveredSoFar(was, now, all - stale, runs)
        invariant Tables() == was.(runs := runs)
        decreases |stale|
      {
        var r :| r in stale;
        RecoverOne(was, locked, now, all, all - stale, runs, r);
        if runs[r].status == Reserved {
          runs := runs[r := runs[r].(status := Failed, completedAt := Some(now), closedAt := Some(now))];
          recovered := recovered + 1;
        }
        assert all - (stale - {r}) == (all - stale) + {r};
        stale := stale - {r};
      }
      assert all - {} == all;
      AllRecovered(was, locked, now, all, runs);
    }
  }

  // ----- steps of the loops -----

  lemma HeadIsStored(answer: Answer, head: seq<Part>)
    requires head == (if answer.text != "" then [TextPart(answer.text)] else [])
                   + (if answer.question.Some? then [Part("ask_user", answer.question.value)] else [])
    ensures head + ProductParts(answer.products[0..]) == AnswerParts(answer)
  {
    assert answer.products[0..] == answer.products;
  }

  lemma NextProduct(stored: seq<Part>, products: seq<Payload>, i: nat)
    requires i < |products|
    ensures (stored + [Part("product_reference", products[i])]) + ProductParts(products[i + 1..])
         == stored + ProductParts(products[i..])
  {
    assert products[i..][1..] == products[i + 1..];
  }

  lemma NoMoreProducts(stored: seq<Part>, products: seq<Payload>)
    ensures stored + ProductParts(products[|products|..]) == stored
  {
  }

  ghost predicate RecoveredSoFar(was: Db, now: int, done: set<Id>, runs: map<Id, Run>) {
    && runs.Keys == was.runs.Keys
    && (forall r | r in runs :: runs[r] == if r in done then Recovered(was.runs[r], now) else was.runs[r])
  }

  ghost function StaleRuns(was: Db, locked: set<Id>, now: int): set<Id> {
    set r | r in was.runs && r !in locked && Stale(was.runs[r], now)
  }

  lemma RecoverOne(was: Db, locked: set<Id>, now: int, all: set<Id>, done: set<Id>, runs: map<Id, Run>, r: Id)
    requires RecoveredSoFar(was, now, done, runs) && all == StaleRuns(was, locked, now) && r in all && r !in done
    ensures r in runs && runs[r].status == Reserved
    ensures var row := runs[r].(status := Failed, completedAt := Some(now), closedAt := Some(now));
      RecoveredSoFar(was, now, done + {r}, runs[r := row])
  {
  }

  lemma StaleAre(was: Db, locked: set<Id>, now: int)
    ensures StaleRuns(was, locked, now) == set r | r in was.runs && r !in locked && Stale(was.runs[r], now)
  {
  }

  lemma NoneRecovered(was: Db, now: int)
    ensures RecoveredSoFar(was, now, {}, was.runs)
  {
  }

  lemma AllRecovered(was: Db, locked: set<Id>, now: int, all: set<Id>, runs: map<Id, Run>)
    requires all == StaleRuns(was, locked, now)
    requires RecoveredSoFar(was, now, all, runs)
    ensures was.(runs := runs) == RecoverStale(was, locked, now)
    ensures all == set r | r in was.runs && r !in locked && IsStale(was.runs[r], now)
  {
    assert runs == RecoverStale(was, locked, now).runs;
  }
}
