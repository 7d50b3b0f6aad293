/** The stream a client reads: the provider's chunks that may be seen, then what became of the run. */
module PublicStream {
  import opened Queries
  import AiStreams

  type Id = string

  datatype TextKind = Begins | Continues | Ends

  datatype Chunk =
    | RunStarted
    | RunFinished
    | RunError
    | ToolCallStart(parent: Id, call: Id)
    | ToolCallOther(call: Id)
    | TextMessage(kind: TextKind, message: Id, text: string)
    | Internal

  predicate Visible(chunk: Chunk) {
    chunk.RunStarted? || chunk.ToolCallStart? || chunk.ToolCallOther? || chunk.TextMessage?
  }

  /** Text and tool calls carry the id of the one assistant message. */
  function Rewritten(chunk: Chunk, assistant: Id): Chunk {
    match chunk
    case TextMessage(kind, _, text) => TextMessage(kind, assistant, text)
    case ToolCallStart(_, call) => ToolCallStart(assistant, call)
    case _ => chunk
  }

  predicate Started(chunks: seq<Chunk>) {
    RunStarted in chunks
  }

  predicate Passes(before: seq<Chunk>, chunk: Chunk) {
    Visible(chunk) && !(chunk.RunStarted? && Started(before))
  }

  /** The provider's chunks as the client sees them. */
  function Published(chunks: seq<Chunk>, assistant: Id): seq<Chunk> {
    if chunks == [] then []
    else
      var before, last := chunks[..|chunks| - 1], chunks[|chunks| - 1];
      Published(before, assistant) + if Passes(before, last) then [Rewritten(last, assistant)] else []
  }

  predicate Attributed(chunk: Chunk, assistant: Id) {
    && (chunk.TextMessage? ==> chunk.message == assistant)
    && (chunk.ToolCallStart? ==> chunk.parent == assistant)
  }

  /** The provider never announces the end of the run to the client, starts it once, and everything
      said belongs to the assistant's message. */
  lemma {:induction false} PublishedIsClean(chunks: seq<Chunk>, assistant: Id)
    ensures forall c | c in Published(chunks, assistant) :: Visible(c) && Attributed(c, assistant)
    ensures multiset(Published(chunks, assistant))[RunStarted] == if Started(chunks) then 1 else 0
  {
    if chunks != [] {
      var before, last := chunks[..|chunks| - 1], chunks[|chunks| - 1];
      PublishedIsClean(before, assistant);
      assert chunks == before + [last];
    }
  }

  function TextsOf(chunks: seq<Chunk>): seq<string> {
    if chunks == [] then []
    else
      var last := chunks[|chunks| - 1];
      TextsOf(chunks[..|chunks| - 1]) + if last.TextMessage? then [last.text] else []
  }

  /** Nothing the model wrote is lost, doubled or moved. */
  lemma {:induction false} TextIsKept(chunks: seq<Chunk>, assistant: Id)
    ensures TextsOf(Published(chunks, assistant)) == TextsOf(chunks)
  {
    if chunks != [] {
      var before, last := chunks[..|chunks| - 1], chunks[|chunks| - 1];
      TextIsKept(before, assistant);
      var out := Published(before, assistant);
      if Passes(before, last) {
        assert (out + [Rewritten(last, assistant)])[..|out|] == out;
      } else {
        assert out + [] == out;
      }
    }
  }

  /** The texts are those of the text chunks, one for each and in their order. */
  lemma EachTextInOrder(chunks: seq<Chunk>, chunk: Chunk)
    ensures TextsOf(chunks + [chunk]) == TextsOf(chunks) + if chunk.TextMessage? then [chunk.text] else []
    ensures TextsOf([]) == []
  {
    assert (chunks + [chunk])[..|chunks|] == chunks;
  }

  function TerminalChunk(outcome: AiStreams.Outcome): Option<Chunk> {
    var terminal := AiStreams.Terminal(outcome);
    if terminal.None? then None
    else if terminal.value.RunFinished? then Some(RunFinished) else Some(RunError)
  }

  lemma TerminalTells(outcome: AiStreams.Outcome, chunk: Option<Chunk>)
    ensures TerminalChunk(outcome) == Some(RunFinished) <==> outcome == AiStreams.Succeeded
    ensures TerminalChunk(outcome) == Some(RunError) <==> outcome == AiStreams.Erred
    ensures |OneOrNone(chunk)| == (if chunk.Some? then 1 else 0) && (chunk.Some? ==> OneOrNone(chunk)[0] == chunk.value)
  {
  }

  function OneOrNone(chunk: Option<Chunk>): seq<Chunk> {
    if chunk.Some? then [chunk.value] else []
  }

  lemma ReadOne(chunks: seq<Chunk>, n: nat, assistant: Id)
    requires n < |chunks|
    ensures Published(chunks[..n + 1], assistant)
         == Published(chunks[..n], assistant)
            + if Passes(chunks[..n], chunks[n]) then [Rewritten(chunks[n], assistant)] else []
    ensures Started(chunks[..n + 1]) == (Started(chunks[..n]) || chunks[n].RunStarted?)
  {
    assert chunks[..n + 1] == chunks[..n] + [chunks[n]];
  }

  class Stream {
    const assistant: Id
    const source: seq<Chunk>
    const throws: bool                 // how the source ends
    var outcome: AiStreams.Outcome
    var position: nat
    var sourceDone: bool
    var terminalYielded: bool
    var runStarted: bool
    ghost var seen: seq<Chunk>         // what the client got
    ghost var told: Option<Chunk>      // and what it was told at the end

    ghost predicate Valid()
      reads this
    {
      && position <= |source|
      && runStarted == Started(source[..position])
      && (terminalYielded ==> sourceDone)
      && (sourceDone ==> outcome != AiStreams.Undecided)
      && (told.Some? ==> terminalYielded && told.value in {RunFinished, RunError})
      && seen == Published(source[..position], assistant) + OneOrNone(told)
    }

    constructor (assistant: Id, source: seq<Chunk>, throws: bool)
      ensures Valid() && fresh(this) && seen == [] && !sourceDone && outcome == AiStreams.Undecided
      ensures this.source == source && this.assistant == assistant
    {
      this.assistant := assistant;
      this.source := source;
      this.throws := throws;
      outcome := AiStreams.Undecided;
      position := 0;
      sourceDone := false;
      terminalYielded := false;
      runStarted := false;
      seen := [];
      told := None;
    }

    /** An outcome once decided is reported once, and it is the last thing the client gets. */
    method NextTerminal() returns (chunk: Option<Chunk>)
      requires Valid() && sourceDone
      modifies this`terminalYielded, this`seen, this`told
      ensures Valid() && terminalYielded
      ensures chunk == if old(terminalYielded) then None else TerminalChunk(outcome)
      ensures !old(terminalYielded) ==>
        && (chunk == Some(RunFinished) <==> outcome == AiStreams.Succeeded)
        && (chunk == Some(RunError) <==> outcome == AiStreams.Erred)
        && (chunk == None <==> outcome == AiStreams.Undecided || outcome == AiStreams.Stopped)
      ensures seen == old(seen) + OneOrNone(chunk)
    {
      if terminalYielded {
        return None;
      }
      terminalYielded := true;
      chunk := TerminalChunk(outcome);
      told := chunk;
      seen := seen + OneOrNone(chunk);
    }

    /** The call of `complete` is resumed: what its transaction did decides, whatever was decided meanwhile. */
    method Resume(answered: bool)
      requires Valid()
      modifies this`outcome
      ensures Valid() && outcome != AiStreams.Undecided
      ensures forall db, s: AiStreams.Stream, run | s.outcome == old(outcome) && s.phase.Committed? == answered ::
        AiStreams.StreamAfter(db, s, AiStreams.Resume(run)).outcome == outcome
    {
      outcome := if answered then AiStreams.Succeeded else AiStreams.Erred;
    }

    /** Failing decides only an outcome that is open. */
    method Fail()
      modifies this`outcome
      ensures outcome == if old(outcome) == AiStreams.Undecided then AiStreams.Erred else old(outcome)
      ensures forall db, s: AiStreams.Stream, run | s.outcome == old(outcome) ::
        AiStreams.StreamAfter(db, s, AiStreams.CallFail(run)).outcome == outcome
    {
      if outcome == AiStreams.Undecided {
        outcome := AiStreams.Erred;
      }
    }

    /** So does cancelling. */
    method Cancel()
      requires Valid()
      modifies this`outcome
      ensures Valid() && outcome != AiStreams.Undecided
      ensures forall db, s: AiStreams.Stream, run | s.outcome == old(outcome) ::
        AiStreams.StreamAfter(db, s, AiStreams.CallCancel(run)).outcome == outcome
    {
      if outcome == AiStreams.Undecided {
        outcome := AiStreams.Stopped;
      }
    }

    method Next() returns (chunk: Option<Chunk>)
      requires Valid()
      modifies this
      ensures Valid()
      ensures seen == old(seen) + OneOrNone(chunk)
      ensures chunk.Some? ==> seen == old(seen) + [chunk.value]
      ensures old(terminalYielded) ==> chunk == None
      // a chunk of the source is handed on, or the source has ended and its outcome is
      ensures sourceDone || chunk.Some?
      ensures !old(sourceDone) && sourceDone ==> position == |source| && chunk == TerminalChunk(outcome)
      ensures !sourceDone ==> Visible(chunk.value) && Attributed(chunk.value, assistant) && old(position) < position
      ensures outcome == if sourceDone && old(outcome) == AiStreams.Undecided then AiStreams.Erred else old(outcome)
    {
      hide Published;
      hide Started;
      hide TerminalChunk;
      hide AiStreams.StreamAfter;
      if sourceDone {
        chunk := NextTerminal();
        return;
      }
      while true
        invariant Valid() && !sourceDone
        invariant seen == old(seen) && outcome == old(outcome) && old(position) <= position
        decreases |source| - position
      {
        if position == |source| {
          // whether the source is exhausted or has thrown
          sourceDone := true;
          Fail();
          chunk := NextTerminal();
          return;
        }
        var c := source[position];
        ReadOne(source, position, assistant);
        position := position + 1;
        if c.RunFinished? || c.RunError? {
          continue;
        }
        if c.RunStarted? {
          if runStarted {
            continue;
          }
          runStarted := true;
        }
        if Visible(c) {
          chunk := Some(Rewritten(c, assistant));
          seen := seen + OneOrNone(chunk);
          return;
        }
      }
    }

    /** The client hangs up: nothing follows, and a run without an outcome has failed. */
    method Return()
      requires Valid()
      modifies this
      ensures Valid() && sourceDone && terminalYielded && seen == old(seen)
      ensures outcome ==
              if !old(sourceDone) && old(outcome) == AiStreams.Undecided then AiStreams.Erred else old(outcome)
    {
      if !sourceDone {
        sourceDone := true;
        Fail();
      }
      terminalYielded := true;
    }
  }
}
