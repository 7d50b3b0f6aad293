/** The in-memory outcome of a stream on top of its run row. Completing and failing wait for the
    database, and everything else goes on meanwhile: other writers of the row, a second outcome and
    the end of the public stream. */
module AiStreams {
  import opened Queries
  import opened AiRuns

  datatype Outcome = Undecided | Succeeded | Erred | Stopped

  /** Where the one call of `complete` is: waiting for its transaction, about to be resumed with what the
      transaction did, or resumed. `Unseen` is a commit whose acknowledgement is lost. */
  datatype Phase = Idle | Waiting(answer: Answer) | Committed | Unseen | Refused | Resumed | ResumedUnseen

  datatype Chunk = RunFinished | RunError

  /** `failing` counts the `failRun` calls under way, `ended` that the terminal chunk was asked for. */
  datatype Stream = Stream(outcome: Outcome, phase: Phase, failing: nat, ended: bool, sent: Option<Chunk>)

  datatype World = World(db: Db, streams: map<Id, Stream>)

  const START: World := World(EMPTY, map[])

  datatype Move =
    | Tables(step: Step)                         // any other transaction
    | Open(run: Id)
    | CallComplete(run: Id, answer: Answer)
    | LosesProducts(run: Id)                     // the products of the answer cannot be read
    | Commit(run: Id, now: int)
    | CommitUnseen(run: Id, now: int)
    | Resume(run: Id)
    | CallFail(run: Id)
    | FailLands(run: Id, now: int)
    | FailLost(run: Id)
    | CallCancel(run: Id)
    | EndStream(run: Id)

  predicate Enabled(w: World, move: Move) {
    match move
    case Tables(step) => !step.Complete? && AiRuns.Enabled(w.db, step)
    case Open(run) => run in w.db.runs && run !in w.streams
    case CallComplete(run, _) => run in w.streams && w.streams[run].outcome.Undecided? && w.streams[run].phase.Idle?
    case LosesProducts(run) => run in w.streams && w.streams[run].phase.Waiting?
    case Commit(run, _) => run in w.streams && w.streams[run].phase.Waiting?
    case CommitUnseen(run, _) => run in w.streams && w.streams[run].phase.Waiting?
    case Resume(run) =>
      run in w.streams &&
      (w.streams[run].phase.Committed? || w.streams[run].phase.Unseen? || w.streams[run].phase.Refused?)
    case CallFail(run) => run in w.streams
    case FailLands(run, _) => run in w.streams && w.streams[run].failing > 0
    case FailLost(run) => run in w.streams && w.streams[run].failing > 0
    case CallCancel(run) => run in w.streams
    case EndStream(run) => run in w.streams
  }

  function Terminal(outcome: Outcome): Option<Chunk> {
    match outcome
    case Succeeded => Some(RunFinished)
    case Erred => Some(RunError)
    case _ => None
  }

  /** The stream's own part of a move. */
  function StreamAfter(db: Db, s: Stream, move: Move): Stream {
    match move
    case CallComplete(_, answer) => s.(phase := Waiting(answer))
    case LosesProducts(_) => s.(phase := Refused)
    case Commit(run, _) =>
      if s.phase.Waiting? && CompleteOutcomeOf(db, run, s.phase.answer).Answered?
      then s.(phase := Committed) else s.(phase := Refused)
    case CommitUnseen(run, _) =>
      if s.phase.Waiting? && CompleteOutcomeOf(db, run, s.phase.answer).Answered?
      then s.(phase := Unseen) else s.(phase := Refused)
    case Resume(_) =>
      if s.phase.Committed? then s.(outcome := Succeeded, phase := Resumed)
      else s.(outcome := Erred, phase := if s.phase.Unseen? then ResumedUnseen else Resumed, failing := s.failing + 1)
    case CallFail(_) => if s.outcome.Undecided? then s.(outcome := Erred, failing := s.failing + 1) else s
    case FailLands(_, _) => s.(failing := if s.failing > 0 then s.failing - 1 else 0)
    case FailLost(_) => s.(failing := if s.failing > 0 then s.failing - 1 else 0)
    case CallCancel(_) => if s.outcome.Undecided? then s.(outcome := Stopped) else s
    case EndStream(_) => if s.ended then s else s.(ended := true, sent := Terminal(s.outcome))
    case _ => s
  }

  /** What the callbacks do to a stream: the completion's transaction decides when it is resumed, failing and
      cancelling decide what is open, a failed run is to be marked once for each error, and the client is told once. */
  lemma CallbacksTakeEffect(db: Db, s: Stream, run: Id, answer: Answer, now: int)
    ensures var resumed := StreamAfter(db, s, Resume(run));
      && resumed.outcome == (if s.phase == Committed then Succeeded else Erred)
      && resumed.failing == (if s.phase == Committed then s.failing else s.failing + 1)
      && resumed.phase == (if s.phase == Unseen then ResumedUnseen else Resumed)
      && resumed.ended == s.ended && resumed.sent == s.sent
    ensures StreamAfter(db, s, CallFail(run)) ==
      if s.outcome == Undecided then s.(outcome := Erred, failing := s.failing + 1) else s
    ensures StreamAfter(db, s, CallCancel(run)) == if s.outcome == Undecided then s.(outcome := Stopped) else s
    ensures s.failing > 0 ==>
      && StreamAfter(db, s, FailLands(run, now)) == s.(failing := s.failing - 1)
      && StreamAfter(db, s, FailLost(run)) == s.(failing := s.failing - 1)
    ensures StreamAfter(db, s, CallComplete(run, answer)) == s.(phase := Waiting(answer))
    ensures var told := StreamAfter(db, s, EndStream(run));
      if s.ended then told == s
      else
        && told == s.(ended := true, sent := told.sent)
        && (told.sent == Some(RunFinished) <==> s.outcome == Succeeded)
        && (told.sent == Some(RunError) <==> s.outcome == Erred)
  {
  }

  /** The transaction a move commits. */
  function DbAfter(w: World, move: Move): Db
    requires Enabled(w, move)
  {
    match move
    case Tables(step) => AiRuns.Apply(w.db, step)
    case Commit(run, now) => CompleteRun(w.db, run, w.streams[run].phase.answer, now)
    case CommitUnseen(run, now) => CompleteRun(w.db, run, w.streams[run].phase.answer, now)
    case FailLands(run, now) => FailRun(w.db, run, false, now)
    case _ => w.db
  }

  /** A failure that lands fails a reserved run and leaves its stream open; a lost one and a lost list of products
      change no table. */
  lemma FailuresLand(w: World, run: Id, now: int)
    ensures Enabled(w, FailLands(run, now)) ==>
      DbAfter(w, FailLands(run, now)) ==
        if run in w.db.runs && w.db.runs[run].status == Reserved
        then w.db.(runs := w.db.runs[run := w.db.runs[run].(status := Failed, completedAt := Some(now))])
        else w.db
    ensures Enabled(w, FailLost(run)) ==> DbAfter(w, FailLost(run)) == w.db
    ensures Enabled(w, LosesProducts(run)) ==> DbAfter(w, LosesProducts(run)) == w.db
  {
  }

  function Apply(w: World, move: Move): World
    requires Enabled(w, move)
  {
    if move.Tables? then World(DbAfter(w, move), w.streams)
    else if move.Open? then World(w.db, w.streams[move.run := Stream(Undecided, Idle, 0, false, None)])
    else World(DbAfter(w, move), w.streams[move.run := StreamAfter(w.db, w.streams[move.run], move)])
  }

  ghost predicate Reaches(w: World, moves: seq<Move>, end: World)
    decreases |moves|
  {
    if moves == [] then w == end else Enabled(w, moves[0]) && Reaches(Apply(w, moves[0]), moves[1..], end)
  }

  // ----- what a stream may say about its row -----

  /** The row is completed and the stream has yet to learn of it. */
  predicate InFlight(s: Stream) {
    s.phase.Committed? || s.phase.Unseen?
  }

  ghost predicate Honest(w: World, run: Id) {
    && (run in w.streams ==> run in w.db.runs)
    && (IsCompleted(w.db, run) <==>
          run in w.streams &&
          (InFlight(w.streams[run]) || w.streams[run].phase.ResumedUnseen? || w.streams[run].outcome.Succeeded?))
    && (run in w.streams && w.streams[run].outcome.Succeeded? ==> w.streams[run].phase.Resumed?)
    && (run in w.streams && w.streams[run].sent == Some(RunFinished) ==> w.streams[run].outcome.Succeeded?)
  }

  lemma RowsChange(w: World, move: Move, run: Id)
    requires Enabled(w, move) && run in w.db.runs
    ensures run in DbAfter(w, move).runs
    ensures IsOver(w.db, run) ==> DbAfter(w, move).runs[run] == w.db.runs[run]
    ensures !IsCompleted(w.db, run) && IsCompleted(DbAfter(w, move), run) ==>
      (move.Commit? || move.CommitUnseen?) && move.run == run
        && CompleteOutcomeOf(w.db, run, w.streams[run].phase.answer).Answered?
  {
    if move.Tables? {
      if IsOver(w.db, run) {
        OverIsFinal(w.db, move.step, run);
      } else {
        ReservedStays(w.db, move.step, run);
      }
    }
  }

  lemma NewRowsAreReserved(w: World, move: Move, run: Id)
    requires Enabled(w, move) && run !in w.db.runs
    ensures !IsCompleted(DbAfter(w, move), run)
  {
    if move.Tables? && run in DbAfter(w, move).runs {
      OnlyBeginAddsRuns(w.db, move.step, run);
    }
  }

  lemma HonestOn(w: World, move: Move, run: Id)
    requires Honest(w, run) && Enabled(w, move)
    ensures Honest(Apply(w, move), run)
  {
    hide AiRuns.Apply;
    hide AiRuns.Enabled;
    if run in w.db.runs {
      RowsChange(w, move, run);
    } else {
      NewRowsAreReserved(w, move, run);
    }
  }

  lemma {:induction false} HonestThrough(w: World, moves: seq<Move>, end: World, run: Id)
    requires Honest(w, run) && Reaches(w, moves, end)
    ensures Honest(end, run)
    decreases |moves|
  {
    if moves != [] {
      hide Honest;
      hide Enabled;
      hide Apply;
      HonestOn(w, moves[0], run);
      HonestThrough(Apply(w, moves[0]), moves[1..], end, run);
    }
  }

  /** Whatever interleaves, a client is told that its run finished only if the row is completed, and once no
      completion is in flight the stream has succeeded exactly if the row is completed, unless the
      acknowledgement of its commit was lost. */
  lemma FinishedMeansCompleted(moves: seq<Move>, w: World, run: Id)
    requires Reaches(START, moves, w) && run in w.streams
    ensures w.streams[run].sent == Some(RunFinished) ==> IsCompleted(w.db, run)
    ensures !InFlight(w.streams[run]) && !w.streams[run].phase.ResumedUnseen? ==>
      (w.streams[run].outcome.Succeeded? <==> IsCompleted(w.db, run))
    ensures w.streams[run].phase.ResumedUnseen? ==> IsCompleted(w.db, run) && !w.streams[run].outcome.Succeeded?
  {
    HonestThrough(START, moves, w, run);
  }

  // ----- an error may be reported too early -----

  /** A completion that can still succeed. */
  ghost predicate CanStillComplete(w: World, run: Id) {
    && run in w.streams && w.streams[run].phase.Waiting? && IsReserved(w.db, run)
    && AnswerParts(w.streams[run].phase.answer) != []
  }

  ghost predicate NeverCompletes(w: World, run: Id) {
    && run in w.streams && run in w.db.runs && !IsCompleted(w.db, run)
    && !w.streams[run].outcome.Undecided? && !CanStillComplete(w, run)
  }

  lemma NeverCompletesOn(w: World, move: Move, run: Id)
    requires NeverCompletes(w, run) && Enabled(w, move)
    ensures NeverCompletes(Apply(w, move), run)
  {
    hide AiRuns.Apply;
    hide AiRuns.Enabled;
    RowsChange(w, move, run);
  }

  lemma {:induction false} NeverCompletesThrough(w: World, moves: seq<Move>, end: World, run: Id)
    requires NeverCompletes(w, run) && Reaches(w, moves, end)
    ensures NeverCompletes(end, run)
    decreases |moves|
  {
    if moves != [] {
      hide NeverCompletes;
      hide Enabled;
      hide Apply;
      NeverCompletesOn(w, moves[0], run);
      NeverCompletesThrough(Apply(w, moves[0]), moves[1..], end, run);
    }
  }

  ghost predicate MayEndCompleted(w: World, run: Id) {
    exists moves, end :: Reaches(w, moves, end) && IsCompleted(end.db, run)
  }

  lemma StillCompletes(w: World, run: Id) returns (moves: seq<Move>, end: World)
    requires CanStillComplete(w, run)
    ensures Reaches(w, moves, end) && IsCompleted(end.db, run)
  {
    var answer := w.streams[run].phase.answer;
    var remove, commit := Tables(RemoveMessage(answer.message)), Commit(run, 0);
    var mid := Apply(w, remove);
    end := Apply(mid, commit);
    moves := [remove, commit];
    assert moves[1..] == [commit] && [commit][1..] == [];
    assert Reaches(mid, [commit], end);
  }

  /** Once a stream has taken an error for its outcome, its row can end as completed exactly if it
      already has or a completion that can still succeed is under way. */
  lemma FailedRunsCompleteExactly(w: World, run: Id)
    requires run in w.streams && run in w.db.runs && w.streams[run].outcome.Erred?
    ensures MayEndCompleted(w, run) <==> IsCompleted(w.db, run) || CanStillComplete(w, run)
  {
    if IsCompleted(w.db, run) {
      assert Reaches(w, [], w);
    } else if CanStillComplete(w, run) {
      var moves, end := StillCompletes(w, run);
    } else {
      forall moves, end | Reaches(w, moves, end) ensures !IsCompleted(end.db, run) {
        NeverCompletesThrough(w, moves, end, run);
      }
    }
  }

  lemma ReachesCons(w: World, move: Move, moves: seq<Move>, end: World)
    requires Enabled(w, move) && Reaches(Apply(w, move), moves, end)
    ensures Reaches(w, [move] + moves, end)
  {
    assert ([move] + moves)[1..] == moves;
  }

  lemma TurnBegins(turn: Turn) returns (moves: seq<Move>, w: World)
    requires turn.asset.None?
    ensures Reaches(START, moves, w)
    ensures w.streams == map[] && IsReserved(w.db, turn.run) && w.db.messages.Keys == {turn.message}
  {
    var create, begin := Tables(CreateConversation(turn.conversation, turn.account)), Tables(Begin(turn, 0));
    var w1 := Apply(START, create);
    w := Apply(w1, begin);
    assert BeginOutcomeOf(w1.db, turn).Begun?;
    assert Reaches(w, [], w);
    hide Reaches;
    moves := [create] + ([begin] + []);
    ReachesCons(w1, begin, [], w);
    ReachesCons(START, create, [begin] + [], w);
  }

  lemma StreamErrs(w: World, run: Id, answer: Answer) returns (moves: seq<Move>, end: World)
    requires w.streams == map[] && run in w.db.runs
    ensures Reaches(w, moves, end)
      && end == World(w.db, map[run := Stream(Erred, Waiting(answer), 1, true, Some(RunError))])
  {
    var w1 := World(w.db, map[run := Stream(Undecided, Idle, 0, false, None)]);
    var w2 := World(w.db, map[run := Stream(Undecided, Waiting(answer), 0, false, None)]);
    var w3 := World(w.db, map[run := Stream(Erred, Waiting(answer), 1, false, None)]);
    end := World(w.db, map[run := Stream(Erred, Waiting(answer), 1, true, Some(RunError))]);
    assert Reaches(end, [], end);
    hide Reaches;
    moves := [Open(run)] + ([CallComplete(run, answer)] + ([CallFail(run)] + ([EndStream(run)] + [])));
    ReachesCons(w3, EndStream(run), [], end);
    ReachesCons(w2, CallFail(run), [EndStream(run)] + [], end);
    ReachesCons(w1, CallComplete(run, answer), [CallFail(run)] + ([EndStream(run)] + []), end);
    ReachesCons(w, Open(run), [CallComplete(run, answer)] + ([CallFail(run)] + ([EndStream(run)] + [])), end);
  }

  lemma {:induction false} ReachesOn(w: World, moves: seq<Move>, mid: World, more: seq<Move>, end: World)
    requires Reaches(w, moves, mid) && Reaches(mid, more, end)
    ensures Reaches(w, moves + more, end)
    decreases |moves|
  {
    if moves == [] {
      assert moves + more == more;
    } else {
      ReachesOn(Apply(w, moves[0]), moves[1..], mid, more, end);
      assert (moves + more)[1..] == moves[1..] + more;
    }
  }

  /** Such a run: a conversation and a turn, a stream that has called `complete`, takes an error for its outcome
      meanwhile and tells the client so. */
  lemma ErrsWhileCompleting(turn: Turn, answer: Answer) returns (moves: seq<Move>, w: World)
    requires turn.asset.None?
    ensures Reaches(START, moves, w) && turn.run in w.streams
    ensures w.streams[turn.run] == Stream(Erred, Waiting(answer), 1, true, Some(RunError))
    ensures IsReserved(w.db, turn.run) && w.db.messages.Keys == {turn.message}
  {
    hide Reaches;
    var first, begun := TurnBegins(turn);
    var second;
    second, w := StreamErrs(begun, turn.run, answer);
    moves := first + second;
    ReachesOn(START, first, begun, second, w);
  }

  /** From there the transaction commits: the client was told of an error and the run is completed. */
  lemma ErredRunCompletes(turn: Turn, answer: Answer) returns (moves: seq<Move>, w: World, more: seq<Move>, end: World)
    requires turn.asset.None? && answer.message != turn.message && AnswerParts(answer) != []
    ensures Reaches(START, moves, w) && turn.run in w.streams && w.streams[turn.run].outcome.Erred?
    ensures w.streams[turn.run].sent == Some(RunError) && !IsCompleted(w.db, turn.run)
    ensures Reaches(w, more, end) && IsCompleted(end.db, turn.run)
    ensures turn.run in end.streams && end.streams[turn.run].sent == Some(RunError)
  {
    var run := turn.run;
    moves, w := ErrsWhileCompleting(turn, answer);
    var committed := Apply(w, Commit(run, 1));
    assert CompleteOutcomeOf(w.db, run, answer).Answered?;
    end := Apply(committed, Resume(run));
    more := [Commit(run, 1)] + ([Resume(run)] + []);
    assert Reaches(end, [], end);
    ReachesCons(committed, Resume(run), [], end);
    ReachesCons(w, Commit(run, 1), [Resume(run)] + [], end);
  }
}
