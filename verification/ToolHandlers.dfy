/** The five tool handlers and the fields they share within one turn. */
module ToolHandlers {
  import opened Queries
  import opened ToolGate
  import opened ToolEffects

  class Tools {
    const textTurn: bool
    const skips: bool
    var assessment: Option<Assessment>
    var assessmentRequired: bool
    var searched: bool
    var products: seq<string>
    var summaries: map<string, string>
    var question: Option<Question>
    var searching: nat

    ghost function Now(): State
      reads this
    {
      State(textTurn, skips, assessment, assessmentRequired, searched, products, summaries, question, searching)
    }

    constructor (textTurn: bool, skips: bool)
      ensures Now() == Start(textTurn, skips)
    {
      this.textTurn := textTurn;
      this.skips := skips;
      assessment := None;
      assessmentRequired := textTurn;
      searched := false;
      products := [];
      summaries := map[];
      question := None;
      searching := 0;
    }

    method Assess(input: Clarity) returns (reply: Reply)
      requires input.Valid()
      modifies this
      ensures Now() == Handle(old(Now()), Call.Assess(input)) && reply == Answer(old(Now()), Call.Assess(input))
      ensures Assesses(old(Now()), input, Now(), reply)
    {
      AssessTakesEffect(Now(), input);
      var evaluated := Evaluate(input);
      if evaluated.kind.Shopping? && evaluated.score.Some? && evaluated.score.value > AMBIGUITY_THRESHOLD
         && evaluated.dimension.None? && !skips
      {
        assessmentRequired := true;
        return InvalidAssessment(evaluated.score.value);
      }
      assessment := Some(evaluated.(dimension := if skips then None else evaluated.dimension));
      reply := Accepted;
    }

    /** The refusals that searching, looking up and recording share. */
    method PassGate() returns (reply: Reply)
      modifies this`assessmentRequired
      ensures reply == Gate(old(Now())) && Now() == Refused(old(Now()), reply)
    {
      if textTurn && assessment.None? {
        assessmentRequired := true;
        return AssessmentRequired;
      }
      if assessment.Some? && assessment.value.kind.Other? {
        return NotShopping;
      }
      if assessment.Some? && assessment.value.dimension.Some? {
        return ClarificationRequired(assessment.value.dimension.value);
      }
      reply := Accepted;
    }

    method AskUser(asked: Question) returns (reply: Reply)
      modifies this
      ensures Now() == Handle(old(Now()), Call.AskUser(asked)) && reply == Answer(old(Now()), Call.AskUser(asked))
      ensures Asks(old(Now()), asked, Now(), reply)
    {
      GateTakesEffect(Now(), asked);
      if textTurn && assessment.None? {
        assessmentRequired := true;
        return AssessmentRequired;
      }
      if assessment.Some? && assessment.value.kind.Other? {
        return NotShopping;
      }
      var expected := if assessment.Some? then assessment.value.dimension else None;
      if expected.Some? && asked.dimension != expected.value {
        return InvalidClarification(expected.value);
      }
      question := Some(asked);
      reply := Accepted;
    }

    /** The part of a search before it waits for the providers. */
    method BeginSearch() returns (reply: Reply)
      modifies this
      ensures Now() == Handle(old(Now()), Search) && reply == Answer(old(Now()), Search)
      ensures Searches(old(Now()), Now(), reply)
    {
      reply := PassGate();
      if reply.Accepted? {
        searching := searching + 1;
      }
    }

    /** The part after: whatever happened meanwhile, what was found is remembered. */
    method FinishSearch(items: seq<string>)
      requires searching > 0
      modifies this
      ensures Now() == Handle(old(Now()), Found(items))
      ensures Distinct(old(products)) ==> Finds(old(Now()), items, Now())
    {
      hide Distinct;
      hide Finds;
      if Distinct(products) {
        FoundTakesEffect(Now(), items);
      }
      var i := 0;
      while i < |items|
        invariant 0 <= i <= |items|
        invariant AddAll(products, items[i..]) == AddAll(old(products), items)
        invariant Now() == old(Now()).(products := products)
      {
        if items[i] !in products {
          products := products + [items[i]];
        }
        assert items[i..][1..] == items[i + 1..];
        i := i + 1;
      }
      searched := true;
      searching := searching - 1;
    }

    method GetProduct() returns (reply: Reply)
      modifies this
      ensures Now() == Handle(old(Now()), Call.GetProduct) && reply == Answer(old(Now()), Call.GetProduct)
      ensures LooksUp(old(Now()), Now(), reply)
    {
      reply := PassGate();
    }

    method Record(recommendations: seq<Summary>) returns (reply: Reply)
      requires Enabled(Now(), Call.Record(recommendations))
      modifies this
      ensures Now() == Handle(old(Now()), Call.Record(recommendations))
      ensures reply == Answer(old(Now()), Call.Record(recommendations))
      ensures Distinct(old(products)) ==> Records(old(Now()), recommendations, Now(), reply)
    {
      hide Distinct;
      hide Records;
      if Distinct(products) {
        RecordTakesEffect(Now(), recommendations);
      }
      reply := PassGate();
      if !reply.Accepted? {
        return;
      }
      if !MatchesExpected(recommendations, products) {
        return InvalidRecommendations(products);
      }
      summaries := map[];
      var i := 0;
      while i < |recommendations|
        invariant 0 <= i <= |recommendations|
        invariant summaries == SummariesOf(recommendations[..i])
        invariant Now() == old(Now()).(summaries := summaries)
      {
        assert recommendations[..i + 1][..i] == recommendations[..i];
        summaries := summaries[recommendations[i].product := recommendations[i].text];
        i := i + 1;
      }
      assert recommendations[..i] == recommendations;
    }
  }
}
