/** What each tool call answers and changes, told by the shared fields alone. */
module ToolEffects {
  import opened Queries
  import opened ToolGate

  // ----- assessing -----

  /** Ten times the clarity: the goal counts four, constraints and success three each. */
  function Weight(input: Clarity): real {
    4.0 * input.goal + 3.0 * input.constraint + 3.0 * input.success
  }

  /** A request about shopping is vague below a weight of eight. Without a next question a vague one is refused,
      unless questions are skipped; any other assessment is taken over. */
  ghost predicate Assesses(s: State, input: Clarity, next: State, reply: Reply) {
    var vague := input.kind == Shopping && Weight(input) < 8.0;
    var score := if input.kind == Other then None else Some((10.0 - Weight(input)) / 10.0);
    if vague && input.next == None && !s.skips
    then next == s.(assessmentRequired := true) && score.Some? && reply == InvalidAssessment(score.value)
    else
      && reply == Accepted
      && next == s.(assessment := Some(Assessment(input.kind, score, if vague && !s.skips then input.next else None)))
  }

  lemma AssessTakesEffect(s: State, input: Clarity)
    ensures Assesses(s, input, Handle(s, Assess(input)), Answer(s, Assess(input)))
  {
    var score := 1.0 - (input.goal * 0.4 + input.constraint * 0.3 + input.success * 0.3);
    assert 10.0 * score == 10.0 - Weight(input);
  }

  // ----- the gate -----

  predicate IsOther(s: State) {
    s.assessment.Some? && s.assessment.value.kind == Other
  }

  predicate WantsClarity(s: State) {
    s.assessment.Some? && s.assessment.value.kind == Shopping && s.assessment.value.dimension != None
  }

  /** What the gate says, and that a missing assessment is remembered. */
  ghost predicate PassesGate(s: State, next: State, reply: Reply) {
    && (reply == AssessmentRequired <==> s.textTurn && s.assessment == None)
    && (reply == NotShopping <==> IsOther(s))
    && (reply.ClarificationRequired? <==> WantsClarity(s))
    && (reply.ClarificationRequired? && s.assessment.Some? ==> s.assessment.value.dimension == Some(reply.dimension))
    && (reply == AssessmentRequired ==> next == s.(assessmentRequired := true))
  }

  ghost predicate Searches(s: State, next: State, reply: Reply) {
    && PassesGate(s, next, reply)
    && (reply == Accepted <==> !(s.textTurn && s.assessment == None) && !IsOther(s) && !WantsClarity(s))
    && (reply == Accepted ==> next == s.(searching := s.searching + 1))
    && (reply != Accepted && reply != AssessmentRequired ==> next == s)
  }

  ghost predicate LooksUp(s: State, next: State, reply: Reply) {
    && PassesGate(s, next, reply)
    && (reply == Accepted <==> !(s.textTurn && s.assessment == None) && !IsOther(s) && !WantsClarity(s))
    && (reply != AssessmentRequired ==> next == s)
  }

  /** A question is refused as the gate would, but for the clarity it is to bring: there it must be about what
      is wanted. */
  ghost predicate Asks(s: State, asked: Question, next: State, reply: Reply) {
    && (reply == AssessmentRequired <==> s.textTurn && s.assessment == None)
    && (reply == NotShopping <==> IsOther(s))
    && (reply.InvalidClarification? <==> WantsClarity(s) && s.assessment.value.dimension != Some(asked.dimension))
    && (reply.InvalidClarification? && s.assessment.Some? ==> s.assessment.value.dimension == Some(reply.expected))
    && (reply == AssessmentRequired ==> next == s.(assessmentRequired := true))
    && (reply == Accepted ==> next == s.(question := Some(asked)))
    && (reply.Accepted? || reply.AssessmentRequired? || reply.NotShopping? || reply.InvalidClarification?)
    && (reply != Accepted && reply != AssessmentRequired ==> next == s)
  }

  lemma GateTakesEffect(s: State, asked: Question)
    ensures Searches(s, Handle(s, Search), Answer(s, Search))
    ensures LooksUp(s, Handle(s, GetProduct), Answer(s, GetProduct))
    ensures Asks(s, asked, Handle(s, AskUser(asked)), Answer(s, AskUser(asked)))
  {
  }

  // ----- what is found -----

  /** What is found joins what was, each product once and where it first came up. */
  ghost predicate Finds(s: State, items: seq<string>, next: State) {
    && next == s.(products := next.products, searched := true, searching := next.searching)
    && (s.searching > 0 ==> next.searching == s.searching - 1)
    && InFirstSeenOrder(next.products, s.products + items)
  }

  /** A search that fails leaves nothing but that it is over. */
  lemma FailedSearchTakesEffect(s: State)
    ensures Enabled(s, SearchFailed) <==> s.searching > 0
    ensures s.searching > 0 ==> Handle(s, SearchFailed) == s.(searching := s.searching - 1)
    ensures Answer(s, SearchFailed) == Accepted
  {
  }

  lemma FoundTakesEffect(s: State, items: seq<string>)
    requires Distinct(s.products) && s.searching > 0
    ensures Finds(s, items, Handle(s, Found(items)))
  {
    hide InFirstSeenOrder;
    assert [] + s.products == s.products;
    NewItemsAreAdded([], s.products);
    AddAllJoins([], s.products, items);
    FoundInOrder(s.products + items);
  }

  // ----- recording -----

  /** Twenty characters or more with the word for a recommendation in them. */
  predicate IsConvincing(text: string) {
    |text| >= 20 && exists i :: 0 <= i && i + 1 < |text| && text[i] == '\U{CD94}' && text[i + 1] == '\U{CC9C}'
  }

  ghost predicate Praises(recommendations: seq<Summary>, products: seq<string>) {
    && |recommendations| == |products|
    && forall i | 0 <= i < |products| ::
         recommendations[i].product == products[i] && IsConvincing(recommendations[i].text)
  }

  /** Past the gate, only a convincing summary for each product found, in their order, is recorded, in the place of
      what was recorded before. */
  ghost predicate Records(s: State, recommendations: seq<Summary>, next: State, reply: Reply) {
    && PassesGate(s, next, reply)
    && (reply == Accepted <==>
          && !(s.textTurn && s.assessment == None) && !IsOther(s) && !WantsClarity(s)
          && Praises(recommendations, s.products))
    && (reply != Accepted && reply != AssessmentRequired ==> next == s)
    && (reply.InvalidRecommendations? ==> reply.expectedProducts == s.products)
    && (reply == Accepted ==>
          && next == s.(summaries := next.summaries)
          && Summarises(next.summaries, recommendations, s.products))
  }

  lemma ConvincingIsConvincing(text: string)
    ensures Convincing(text) <==> IsConvincing(text)
  {
    if Convincing(text) {
      var i :| 0 <= i <= |text| - |RECOMMEND| && HasAt(text, RECOMMEND, i);
      assert text[i..i + 2][0] == RECOMMEND[0] && text[i..i + 2][1] == RECOMMEND[1];
    }
    if IsConvincing(text) {
      var i :| 0 <= i && i + 1 < |text| && text[i] == '\U{CD94}' && text[i + 1] == '\U{CC9C}';
      assert text[i..i + 2] == RECOMMEND;
      assert HasAt(text, RECOMMEND, i);
    }
  }

  ghost predicate Summarises(summaries: map<string, string>, recommendations: seq<Summary>, products: seq<string>) {
    && |recommendations| == |products|
    && (forall p :: p in summaries <==> p in products)
    && (forall i | 0 <= i < |products| ::
          products[i] in summaries && summaries[products[i]] == recommendations[i].text)
  }

  lemma OneSummaryMore(summaries: map<string, string>, recommendations: seq<Summary>, products: seq<string>,
                       last: Summary)
    requires Summarises(summaries, recommendations, products) && last.product !in products
    ensures Summarises(summaries[last.product := last.text], recommendations + [last], products + [last.product])
  {
  }

  lemma LastIsNew(products: seq<string>)
    requires products != [] && Distinct(products)
    ensures var n := |products| - 1; Distinct(products[..n]) && products[n] !in products[..n]
  {
  }

  ghost predicate Names(recommendations: seq<Summary>, products: seq<string>) {
    |recommendations| == |products| && forall i | 0 <= i < |products| :: recommendations[i].product == products[i]
  }

  lemma NamesWithoutLast(recommendations: seq<Summary>, products: seq<string>)
    requires Names(recommendations, products) && products != []
    ensures var n := |products| - 1;
      && |recommendations| == n + 1 && recommendations[n].product == products[n]
      && Names(recommendations[..n], products[..n])
  {
  }

  lemma Snoc<T>(s: seq<T>)
    requires s != []
    ensures s == s[..|s| - 1] + [s[|s| - 1]]
  {
  }

  lemma {:induction false} SummaryOfEach(recommendations: seq<Summary>, products: seq<string>)
    requires Names(recommendations, products) && Distinct(products)
    ensures Summarises(SummariesOf(recommendations), recommendations, products)
    decreases |products|
  {
    if products == [] {
      assert recommendations == [];
    } else {
      hide Summarises;
      hide Distinct;
      hide Names;
      var n := |products| - 1;
      NamesWithoutLast(recommendations, products);
      LastIsNew(products);
      Snoc(products);
      Snoc(recommendations);
      SummaryOfEach(recommendations[..n], products[..n]);
      OneSummaryMore(SummariesOf(recommendations[..n]), recommendations[..n], products[..n], recommendations[n]);
    }
  }

  lemma RecordTakesEffect(s: State, recommendations: seq<Summary>)
    requires Distinct(s.products)
    ensures Records(s, recommendations, Handle(s, Record(recommendations)), Answer(s, Record(recommendations)))
  {
    hide Convincing;
    hide IsConvincing;
    hide Distinct;
    hide SummariesOf;
    forall r | r in recommendations ensures Convincing(r.text) <==> IsConvincing(r.text) {
      ConvincingIsConvincing(r.text);
    }
    assert MatchesExpected(recommendations, s.products) <==> Praises(recommendations, s.products);
    if MatchesExpected(recommendations, s.products) {
      SummaryOfEach(recommendations, s.products);
    }
  }

  /** The input schemas: one to ten recommendations of one to eighty characters, and clarities from zero to one. */
  lemma SchemasAllow(s: State, recommendations: seq<Summary>, input: Clarity)
    ensures Enabled(s, Record(recommendations)) <==>
      1 <= |recommendations| <= 10 && forall r | r in recommendations :: 1 <= |r.text| <= 80
    ensures Enabled(s, Assess(input)) <==>
      && 0.0 <= input.goal <= 1.0 && 0.0 <= input.constraint <= 1.0 && 0.0 <= input.success <= 1.0
  {
  }

  // ----- the end of a turn -----

  /** A question ends the turn without text or recommendations, whatever the model wrote. */
  lemma QuestionEndsTheTurn(s: State, finishReason: string, content: string)
    requires s.question.Some?
    ensures StreamResult(finishReason, content, s) == Some(Result("", [], s.question)) && NextToolChoice(s) == None
  {
  }

  /** White space and line ends as JavaScript has them. */
  const BLANKS: string :=
    " \U{9}\U{A}\U{B}\U{C}\U{D}\U{A0}\U{1680}\U{2000}\U{2001}\U{2002}\U{2003}\U{2004}\U{2005}\U{2006}"
    + "\U{2007}\U{2008}\U{2009}\U{200A}\U{2028}\U{2029}\U{202F}\U{205F}\U{3000}\U{FEFF}"

  predicate Blank(s: string) {
    forall c | c in s :: c in BLANKS
  }

  lemma SpacesAreBlanks(c: char)
    ensures IsSpace(c) <==> c in BLANKS
  {
  }

  predicate AllSpaces(s: string) {
    forall c | c in s :: IsSpace(c)
  }

  lemma OneSpaceMore(c: char, s: string)
    requires IsSpace(c) && AllSpaces(s)
    ensures AllSpaces([c] + s) && AllSpaces(s + [c])
  {
  }

  lemma {:induction false} TrimTakesSpaces(s: string) returns (before: string, after: string)
    ensures s == before + Trim(s) + after && AllSpaces(before) && AllSpaces(after)
    ensures Trim(s) != "" ==> !IsSpace(Trim(s)[0]) && !IsSpace(Trim(s)[|Trim(s)| - 1])
    decreases |s|
  {
    hide IsSpace;
    before, after := "", "";
    assert AllSpaces("");
    hide AllSpaces;
    if s != "" {
      if IsSpace(s[0]) {
        before, after := TrimTakesSpaces(s[1..]);
        OneSpaceMore(s[0], before);
        before := [s[0]] + before;
      } else if IsSpace(s[|s| - 1]) {
        before, after := TrimTakesSpaces(s[..|s| - 1]);
        OneSpaceMore(s[|s| - 1], after);
        after := after + [s[|s| - 1]];
        assert s == s[..|s| - 1] + [s[|s| - 1]];
      }
    }
  }

  /** The text is what was written without the blanks around it. */
  lemma TextIsTrimmed(s: string) returns (before: string, after: string)
    ensures s == before + Trim(s) + after && Blank(before) && Blank(after)
    ensures Trim(s) != "" ==> !Blank([Trim(s)[0]]) && !Blank([Trim(s)[|Trim(s)| - 1]])
  {
    before, after := TrimTakesSpaces(s);
    forall c: char ensures IsSpace(c) <==> Blank([c]) {
      SpacesAreBlanks(c);
    }
    OnlyBlanks(before);
    OnlyBlanks(after);
  }

  lemma OnlyBlanks(s: string)
    ensures Blank(s) <==> AllSpaces(s)
  {
    forall c | c in s ensures IsSpace(c) <==> c in BLANKS {
      SpacesAreBlanks(c);
    }
    hide IsSpace;
  }
}
