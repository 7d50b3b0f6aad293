/** The tools a language model may call during one turn, and the state they share. Nothing is taken
    for granted about which tools it calls, in which order or how often; a search is two steps, for
    other calls may run while it waits. Clarity and ambiguity are real numbers. */
module ToolGate {
  import opened Queries

  const AMBIGUITY_THRESHOLD: real := 0.2
  const MOST_RECOMMENDATIONS: nat := 10
  const LONGEST_SUMMARY: nat := 80
  const SHORTEST_SUMMARY: nat := 20
  const RECOMMEND: string := "\U{CD94}\U{CC9C}"

  datatype Kind = Shopping | Other

  datatype Dimension = Purpose | Budget | Requirement

  datatype Assessment = Assessment(kind: Kind, score: Option<real>, dimension: Option<Dimension>)

  datatype Clarity = Clarity(kind: Kind, goal: real, constraint: real, success: real, next: Option<Dimension>) {
    predicate Valid() {
      0.0 <= goal <= 1.0 && 0.0 <= constraint <= 1.0 && 0.0 <= success <= 1.0
    }
  }

  function Evaluate(input: Clarity): Assessment {
    if input.kind.Other? then Assessment(Other, None, None)
    else
      var score := 1.0 - (input.goal * 0.4 + input.constraint * 0.3 + input.success * 0.3);
      Assessment(Shopping, Some(score), if score > AMBIGUITY_THRESHOLD then input.next else None)
  }

  datatype Question = Question(dimension: Dimension, text: string)

  datatype Summary = Summary(product: string, text: string)

  /** `products` are the ids found so far in first-seen order; `searching` counts the searches that
      passed the gate and still wait. */
  datatype State = State(
    textTurn: bool,
    skips: bool,
    assessment: Option<Assessment>,
    assessmentRequired: bool,
    searched: bool,
    products: seq<string>,
    summaries: map<string, string>,
    question: Option<Question>,
    searching: nat)

  function Start(textTurn: bool, skips: bool): State {
    State(textTurn, skips, None, textTurn, false, [], map[], None, 0)
  }

  datatype Call =
    | Assess(input: Clarity)
    | AskUser(asked: Question)
    | Search
    | Found(items: seq<string>)
    | SearchFailed
    | GetProduct
    | Record(recommendations: seq<Summary>)

  datatype Reply =
    | Accepted
    | InvalidAssessment(score: real)
    | AssessmentRequired
    | NotShopping
    | ClarificationRequired(dimension: Dimension)
    | InvalidClarification(expected: Dimension)
    | InvalidRecommendations(expectedProducts: seq<string>)

  /** What the input schemas let through to a handler. */
  predicate Enabled(s: State, call: Call) {
    match call
    case Assess(input) => input.Valid()
    case Found(_) => s.searching > 0
    case SearchFailed => s.searching > 0
    case Record(recommendations) =>
      && 1 <= |recommendations| <= MOST_RECOMMENDATIONS
      && (forall r | r in recommendations :: 1 <= |r.text| <= LONGEST_SUMMARY)
    case _ => true
  }

  predicate HasAt(s: string, part: string, i: nat) {
    i + |part| <= |s| && s[i..i + |part|] == part
  }

  predicate Includes(s: string, part: string) {
    exists i :: 0 <= i <= |s| - |part| && HasAt(s, part, i)
  }

  predicate Convincing(text: string) {
    |text| >= SHORTEST_SUMMARY && Includes(text, RECOMMEND)
  }

  predicate MatchesExpected(recommendations: seq<Summary>, products: seq<string>) {
    && |recommendations| == |products|
    && forall i | 0 <= i < |recommendations| ::
         recommendations[i].product == products[i] && Convincing(recommendations[i].text)
  }

  function AddAll(products: seq<string>, items: seq<string>): seq<string>
    decreases |items|
  {
    if items == [] then products
    else AddAll(if items[0] in products then products else products + [items[0]], items[1..])
  }

  /** Later entries replace earlier ones. */
  function SummariesOf(recommendations: seq<Summary>): map<string, string> {
    if recommendations == [] then map[]
    else
      var last := recommendations[|recommendations| - 1];
      SummariesOf(recommendations[..|recommendations| - 1])[last.product := last.text]
  }

  /** The gate before searching, looking up and recording. */
  function Gate(s: State): Reply {
    if s.textTurn && s.assessment.None? then AssessmentRequired
    else if s.assessment.Some? && s.assessment.value.kind.Other? then NotShopping
    else if s.assessment.Some? && s.assessment.value.dimension.Some?
    then ClarificationRequired(s.assessment.value.dimension.value)
    else Accepted
  }

  function Refused(s: State, reply: Reply): State {
    if reply.AssessmentRequired? || reply.InvalidAssessment? then s.(assessmentRequired := true) else s
  }

  function Answer(s: State, call: Call): Reply {
    match call
    case Assess(input) =>
      var a := Evaluate(input);
      if a.kind.Shopping? && a.score.Some? && a.score.value > AMBIGUITY_THRESHOLD && a.dimension.None? && !s.skips
      then InvalidAssessment(a.score.value)
      else Accepted
    case AskUser(asked) =>
      var gate := Gate(s);
      if !gate.ClarificationRequired? then gate
      else if asked.dimension != gate.dimension then InvalidClarification(gate.dimension)
      else Accepted
    case Found(_) => Accepted
    case SearchFailed => Accepted
    case Record(recommendations) =>
      var gate := Gate(s);
      if !gate.Accepted? then gate
      else if !MatchesExpected(recommendations, s.products) then InvalidRecommendations(s.products)
      else Accepted
    case _ => Gate(s)
  }

  function Handle(s: State, call: Call): State {
    var reply := Answer(s, call);
    if !reply.Accepted? then Refused(s, reply)
    else
      match call
      case Assess(input) =>
        var a := Evaluate(input);
        s.(assessment := Some(if s.skips then a.(dimension := None) else a))
      case AskUser(asked) => s.(question := Some(asked))
      case Search => s.(searching := s.searching + 1)
      case Found(items) =>
        s.(products := AddAll(s.products, items), searched := true,
           searching := if s.searching > 0 then s.searching - 1 else 0)
      case SearchFailed => s.(searching := if s.searching > 0 then s.searching - 1 else 0)
      case GetProduct => s
      case Record(recommendations) => s.(summaries := SummariesOf(recommendations))
  }

  // ----- what the turn demands next, and when it may end -----

  datatype Choice = MustAssess | MustAsk | MustSearch | MustRecord

  predicate RecommendationsComplete(s: State) {
    s.products == [] || forall p | p in s.products :: p in s.summaries
  }

  function NextToolChoice(s: State): Option<Choice> {
    if s.question.Some? then None
    else if s.assessmentRequired && s.assessment.None? then Some(MustAssess)
    else if s.assessment.Some? && s.assessment.value.dimension.Some? then Some(MustAsk)
    else if s.assessment.Some? && s.assessment.value.kind.Shopping? && !s.searched then Some(MustSearch)
    else if RecommendationsComplete(s) then None
    else Some(MustRecord)
  }

  datatype Result = Result(text: string, recommendations: seq<Summary>, question: Option<Question>)

  predicate IsSpace(c: char) {
    || '\U{9}' <= c <= '\U{D}' || c == ' ' || c == '\U{A0}' || c == '\U{1680}' || '\U{2000}' <= c <= '\U{200A}'
    || c == '\U{2028}' || c == '\U{2029}' || c == '\U{202F}' || c == '\U{205F}' || c == '\U{3000}' || c == '\U{FEFF}'
  }

  function Trim(s: string): string
    decreases |s|
  {
    if s == "" then ""
    else if IsSpace(s[0]) then Trim(s[1..])
    else if IsSpace(s[|s| - 1]) then Trim(s[..|s| - 1])
    else s
  }

  function Listed(products: seq<string>, summaries: map<string, string>): seq<Summary> {
    if products == [] then []
    else
      var p := products[0];
      (if p in summaries && summaries[p] != "" then [Summary(p, summaries[p])] else [])
        + Listed(products[1..], summaries)
  }

  function StreamResult(finishReason: string, content: string, s: State): Option<Result> {
    var text := Trim(content);
    var needsAssessment := s.assessmentRequired && s.assessment.None?;
    var needsClarification := s.assessment.Some? && s.assessment.value.dimension.Some?;
    var needsSearch :=
      s.assessment.Some? && s.assessment.value.kind.Shopping? && !needsClarification && !s.searched;
    if s.question.None? &&
       (needsAssessment || needsClarification || needsSearch || finishReason != "stop" || text == ""
        || !RecommendationsComplete(s))
    then None
    else Some(Result(if s.question.Some? then "" else text,
                     if s.question.Some? then [] else Listed(s.products, s.summaries),
                     s.question))
  }

  // ----- runs -----

  predicate Legal(s: State, calls: seq<Call>)
    decreases |calls|
  {
    calls == [] || (Enabled(s, calls[0]) && Legal(Handle(s, calls[0]), calls[1..]))
  }

  function After(s: State, calls: seq<Call>): State
    decreases |calls|
  {
    if calls == [] then s else After(Handle(s, calls[0]), calls[1..])
  }

  /** Everything the searches of a run returned, in the order they came back. */
  function AllFound(calls: seq<Call>): seq<string> {
    if calls == [] then []
    else (if calls[0].Found? then calls[0].items else []) + AllFound(calls[1..])
  }

  // ----- the invariant -----

  /** What an accepted assessment says: a score in range, and above the threshold a next question
      unless the user chose to skip it. */
  ghost predicate Sensible(a: Assessment, skips: bool) {
    && (a.kind.Other? <==> a.score.None?)
    && (a.kind.Other? ==> a.dimension.None?)
    && (a.score.Some? ==> 0.0 <= a.score.value <= 1.0)
    && (a.dimension.Some? ==> a.score.Some? && a.score.value > AMBIGUITY_THRESHOLD)
    && (skips ==> a.dimension.None?)
    && (a.score.Some? && a.score.value > AMBIGUITY_THRESHOLD && !skips ==> a.dimension.Some?)
  }

  ghost predicate Distinct(s: seq<string>) {
    forall i, j | 0 <= i < j < |s| :: s[i] != s[j]
  }

  ghost predicate Inv(s: State) {
    && (s.textTurn ==> s.assessmentRequired)
    && (s.textTurn && s.assessment.None? ==> s.products == [] && s.searching == 0 && s.question.None?)
    && (s.assessment.Some? ==> Sensible(s.assessment.value, s.skips))
    && Distinct(s.products)
    && (forall p | p in s.summaries :: p in s.products && Convincing(s.summaries[p]))
  }

  lemma EvaluateIsSensible(input: Clarity, skips: bool)
    requires input.Valid()
    requires var a := Evaluate(input);
             a.dimension.None? ==> skips || a.score.None? || a.score.value <= AMBIGUITY_THRESHOLD
    ensures Sensible(if skips then Evaluate(input).(dimension := None) else Evaluate(input), skips)
  {
    var score := input.goal * 0.4 + input.constraint * 0.3 + input.success * 0.3;
    assert 0.0 <= score <= 1.0;
  }

  lemma {:induction false} AddAllKeeps(products: seq<string>, items: seq<string>)
    requires Distinct(products)
    ensures Distinct(AddAll(products, items)) && products <= AddAll(products, items)
    ensures forall p :: p in AddAll(products, items) <==> p in products || p in items
    decreases |items|
  {
    if items != [] {
      var more := if items[0] in products then products else products + [items[0]];
      AddAllKeeps(more, items[1..]);
      forall p ensures p in AddAll(products, items) <==> p in products || p in items {
        assert p in items <==> p == items[0] || p in items[1..];
        assert p in more <==> p in products || p == items[0];
      }
    }
  }

  lemma {:induction false} SummariesFollow(recommendations: seq<Summary>, products: seq<string>)
    requires MatchesExpected(recommendations, products)
    ensures SummariesOf(recommendations).Keys == set p | p in products
    ensures forall p | p in SummariesOf(recommendations) :: Convincing(SummariesOf(recommendations)[p])
    decreases |products|
  {
    if products != [] {
      var n := |products| - 1;
      SummariesFollow(recommendations[..n], products[..n]);
      assert products == products[..n] + [products[n]];
    } else {
      assert SummariesOf(recommendations).Keys == {};
    }
  }

  lemma CallKeeps(s: State, call: Call)
    requires Inv(s) && Enabled(s, call)
    ensures Inv(Handle(s, call))
  {
    hide Convincing;
    hide AddAll;
    if call.Assess? {
      hide Sensible;
      assert Answer(s, call).Accepted? ==> Sensible(Handle(s, call).assessment.value, s.skips) by {
        if Answer(s, call).Accepted? {
          EvaluateIsSensible(call.input, s.skips);
        }
      }
    } else if call.Found? {
      AddAllKeeps(s.products, call.items);
    } else if call.Record? && Answer(s, call).Accepted? {
      SummariesFollow(call.recommendations, s.products);
    }
  }

  lemma {:induction false} RunKeeps(s: State, calls: seq<Call>)
    requires Inv(s) && Legal(s, calls)
    ensures Inv(After(s, calls))
    decreases |calls|
  {
    if calls != [] {
      hide Inv;
      hide Handle;
      hide Enabled;
      CallKeeps(s, calls[0]);
      RunKeeps(Handle(s, calls[0]), calls[1..]);
    }
  }

  lemma HandleCollects(s: State, call: Call)
    ensures var next := Handle(s, call);
            && next.textTurn == s.textTurn && next.skips == s.skips
            && next.products == if call.Found? then AddAll(s.products, call.items) else s.products
  {
  }

  lemma {:induction false} RunCollects(s: State, calls: seq<Call>)
    ensures After(s, calls).products == AddAll(s.products, AllFound(calls))
    ensures After(s, calls).textTurn == s.textTurn && After(s, calls).skips == s.skips
    decreases |calls|
  {
    if calls != [] {
      hide Handle;
      HandleCollects(s, calls[0]);
      RunCollects(Handle(s, calls[0]), calls[1..]);
      if calls[0].Found? {
        AddAllJoins(s.products, calls[0].items, AllFound(calls[1..]));
      } else {
        assert [] + AllFound(calls[1..]) == AllFound(calls[1..]);
      }
    }
  }

  /** The turn counts as searched exactly once some search came back. */
  lemma {:induction false} SearchedMeansFound(s: State, calls: seq<Call>)
    ensures After(s, calls).searched <==> s.searched || exists i :: 0 <= i < |calls| && calls[i].Found?
    decreases |calls|
  {
    if calls != [] {
      SearchedMeansFound(Handle(s, calls[0]), calls[1..]);
      assert forall i | 0 < i < |calls| :: calls[i] == calls[1..][i - 1];
      if i :| 0 <= i < |calls[1..]| && calls[1..][i].Found? {
        assert calls[i + 1].Found?;
      }
      assert Handle(s, calls[0]).searched <==> s.searched || calls[0].Found?;
    }
  }

  lemma {:induction false} AddAllJoins(products: seq<string>, items: seq<string>, more: seq<string>)
    ensures AddAll(products, items + more) == AddAll(AddAll(products, items), more)
    decreases |items|
  {
    if items == [] {
      assert items + more == more;
    } else {
      assert (items + more)[1..] == items[1..] + more;
      AddAllJoins(if items[0] in products then products else products + [items[0]], items[1..], more);
    }
  }

  // ----- the order products are listed in -----

  /** Where a product first came up. */
  function FirstIndex(found: seq<string>, p: string): (i: nat)
    requires p in found
    ensures i < |found| && found[i] == p && forall j | 0 <= j < i :: found[j] != p
  {
    if found[0] == p then 0 else 1 + FirstIndex(found[1..], p)
  }

  /** Each product found is listed once, and whichever came up first stands first. */
  ghost predicate InFirstSeenOrder(listed: seq<string>, found: seq<string>) {
    && Distinct(listed)
    && (forall p :: p in listed <==> p in found)
    && (forall i, j | 0 <= i < j < |listed| && listed[i] in found && listed[j] in found ::
          FirstIndex(found, listed[i]) < FirstIndex(found, listed[j]))
  }

  lemma {:induction false} AddAllAppends(products: seq<string>, items: seq<string>, item: string)
    ensures AddAll(products, items + [item])
         == AddAll(products, items) + if item in AddAll(products, items) then [] else [item]
    decreases |items|
  {
    AddAllJoins(products, items, [item]);
    assert AddAll(AddAll(products, items), [item])
        == AddAll(if item in AddAll(products, items)
                  then AddAll(products, items)
                  else AddAll(products, items) + [item], []);
  }

  lemma FirstIndexStays(found: seq<string>, item: string, p: string)
    requires p in found
    ensures p in found + [item] && FirstIndex(found + [item], p) == FirstIndex(found, p)
  {
    var i := FirstIndex(found, p);
    assert (found + [item])[i] == p;
    assert forall j | 0 <= j < i :: (found + [item])[j] != p;
  }

  lemma {:induction false} FoundInOrder(found: seq<string>)
    ensures InFirstSeenOrder(AddAll([], found), found)
    decreases |found|
  {
    if found == [] {
      assert AddAll([], found) == [];
    } else {
      var init, item := found[..|found| - 1], found[|found| - 1];
      FoundInOrder(init);
      AddAllAppends([], init, item);
      assert found == init + [item];
      var before := AddAll([], init);
      forall p | p in init ensures p in found && FirstIndex(found, p) == FirstIndex(init, p) {
        FirstIndexStays(init, item, p);
      }
      if item !in init {
        assert FirstIndex(found, item) == |init|;
      }
    }
  }

  lemma {:induction false} ListedInFull(products: seq<string>, summaries: map<string, string>)
    requires forall p | p in products :: p in summaries && summaries[p] != ""
    ensures |Listed(products, summaries)| == |products|
    ensures forall i | 0 <= i < |products| ::
      Listed(products, summaries)[i] == Summary(products[i], summaries[products[i]])
  {
    if products != [] {
      ListedInFull(products[1..], summaries);
    }
  }

  function Products(recommendations: seq<Summary>): (products: seq<string>)
    ensures |products| == |recommendations|
    ensures forall i | 0 <= i < |products| :: products[i] == recommendations[i].product
  {
    if recommendations == [] then [] else [recommendations[0].product] + Products(recommendations[1..])
  }

  lemma ConvincingIsNotEmpty(text: string)
    requires Convincing(text)
    ensures text != ""
  {
  }

  /** Whatever the model called in whatever order, a turn without an image that ends without a
      question was assessed, searched if it is about shopping, and lists every product any search
      found, once, in first-seen order, each with a convincing summary. */
  lemma TextTurnResults(skips: bool, calls: seq<Call>, finishReason: string, content: string)
    requires Legal(Start(true, skips), calls)
    requires var s := After(Start(true, skips), calls);
             StreamResult(finishReason, content, s).Some? && s.question.None?
    ensures var s := After(Start(true, skips), calls);
            var r := StreamResult(finishReason, content, s).value;
            && s.assessment.Some? && Sensible(s.assessment.value, skips) && s.assessment.value.dimension.None?
            && (s.assessment.value.kind.Shopping? ==> exists i :: 0 <= i < |calls| && calls[i].Found?)
            && r.text == Trim(content) && r.text != ""
            && InFirstSeenOrder(Products(r.recommendations), AllFound(calls))
            && (forall i | 0 <= i < |r.recommendations| :: Convincing(r.recommendations[i].text))
  {
    hide Convincing;
    hide Legal;
    hide After;
    hide AllFound;
    hide AddAll;
    hide InFirstSeenOrder;
    hide Listed;
    hide Trim;
    RunKeeps(Start(true, skips), calls);
    RunCollects(Start(true, skips), calls);
    SearchedMeansFound(Start(true, skips), calls);
    var s := After(Start(true, skips), calls);
    var r := StreamResult(finishReason, content, s).value;
    forall t | Convincing(t) ensures t != "" {
      ConvincingIsNotEmpty(t);
    }
    ListedInFull(s.products, s.summaries);
    assert Products(r.recommendations) == s.products;
    FoundInOrder(AllFound(calls));
  }

  // ----- what the gate lets through -----

  /** In a turn without an image nothing is searched, looked up or recorded before the request was
      assessed as about shopping and either clear enough or not to be asked about. */
  lemma ActsOnlyOnClearRequests(skips: bool, calls: seq<Call>, call: Call)
    requires Legal(Start(true, skips), calls) && (call.Search? || call.GetProduct? || call.Record?)
    requires Answer(After(Start(true, skips), calls), call).Accepted?
    ensures var a := After(Start(true, skips), calls).assessment;
            && a.Some? && a.value.kind.Shopping? && a.value.score.Some?
            && (a.value.score.value <= AMBIGUITY_THRESHOLD || skips)
  {
    RunKeeps(Start(true, skips), calls);
    RunCollects(Start(true, skips), calls);
  }

  /** And nothing is asked but about an assessed shopping request, the required dimension first. */
  lemma AsksTheRequiredQuestion(skips: bool, calls: seq<Call>, asked: Question)
    requires Legal(Start(true, skips), calls)
    requires Answer(After(Start(true, skips), calls), AskUser(asked)).Accepted?
    ensures var a := After(Start(true, skips), calls).assessment;
            && a.Some? && a.value.kind.Shopping? && a.value.score.Some?
            && (a.value.score.value > AMBIGUITY_THRESHOLD && !skips ==> a.value.dimension == Some(asked.dimension))
  {
    RunKeeps(Start(true, skips), calls);
    RunCollects(Start(true, skips), calls);
  }

  // ----- the demanded tool -----

  /** Without a question, nothing is demanded exactly when only the finish reason or an empty text
      can still keep the turn from ending. */
  lemma NothingDemandedExactly(s: State, finishReason: string, content: string)
    requires s.question.None?
    ensures StreamResult(finishReason, content, s).None?
            <==> NextToolChoice(s).Some? || finishReason != "stop" || Trim(content) == ""
  {
  }

  predicate Serves(call: Call, choice: Choice) {
    match choice
    case MustAssess => call.Assess?
    case MustAsk => call.AskUser?
    case MustSearch => call.Search?
    case MustRecord => call.Record?
  }

  ghost predicate CanServe(s: State, choice: Choice) {
    exists call :: Enabled(s, call) && Serves(call, choice) && Answer(s, call).Accepted?
  }

  function Praise(): string {
    RECOMMEND + RECOMMEND + RECOMMEND + RECOMMEND + RECOMMEND
    + RECOMMEND + RECOMMEND + RECOMMEND + RECOMMEND + RECOMMEND
  }

  function PraiseAll(products: seq<string>): (recommendations: seq<Summary>)
    ensures |recommendations| == |products|
    ensures forall i | 0 <= i < |products| :: recommendations[i] == Summary(products[i], Praise())
  {
    if products == [] then [] else [Summary(products[0], Praise())] + PraiseAll(products[1..])
  }

  /** The tool demanded next can be called with success, except that a demanded recording is refused
      whatever it says when more than ten products were found, or when the request was assessed anew
      as not about shopping. */
  lemma DemandCanBeMetExactly(s: State)
    requires Inv(s) && NextToolChoice(s).Some?
    ensures CanServe(s, NextToolChoice(s).value) <==>
      (NextToolChoice(s) == Some(MustRecord) ==>
         |s.products| <= MOST_RECOMMENDATIONS && (s.assessment.Some? ==> s.assessment.value.kind.Shopping?))
  {
    match NextToolChoice(s).value
    case MustAssess =>
      var call := Assess(Clarity(Other, 1.0, 1.0, 1.0, None));
      assert Enabled(s, call) && Answer(s, call).Accepted?;
    case MustAsk =>
      var call := AskUser(Question(s.assessment.value.dimension.value, "?"));
      assert Enabled(s, call) && Answer(s, call).Accepted?;
    case MustSearch =>
      assert Enabled(s, Search) && Answer(s, Search).Accepted?;
    case MustRecord =>
      var call := Record(PraiseAll(s.products));
      assert Convincing(Praise()) by {
        assert HasAt(Praise(), RECOMMEND, 0);
      }
      if |s.products| <= MOST_RECOMMENDATIONS && (s.assessment.Some? ==> s.assessment.value.kind.Shopping?) {
        assert Enabled(s, call) && Answer(s, call).Accepted?;
      }
  }

  lemma {:induction false} NewItemsAreAdded(products: seq<string>, items: seq<string>)
    requires Distinct(products + items)
    ensures AddAll(products, items) == products + items
    decreases |items|
  {
    if items != [] {
      assert items[0] !in products by {
        assert (products + items)[|products|] == items[0];
        forall i | 0 <= i < |products| ensures products[i] != items[0] {
          assert (products + items)[i] == products[i];
        }
      }
      assert products + items == (products + [items[0]]) + items[1..];
      NewItemsAreAdded(products + [items[0]], items[1..]);
    } else {
      assert products + items == products;
    }
  }

  lemma CallThen(s: State, call: Call, calls: seq<Call>)
    requires Enabled(s, call) && Legal(Handle(s, call), calls)
    ensures Legal(s, [call] + calls) && After(s, [call] + calls) == After(Handle(s, call), calls)
  {
    assert ([call] + calls)[1..] == calls;
  }

  function Searched(items: seq<string>): State {
    State(true, false, Some(Assessment(Shopping, Some(0.0), None)), true, true, items, map[], None, 0)
  }

  lemma SearchedIsReached(items: seq<string>)
    requires Distinct(items)
    ensures var calls := [Assess(Clarity(Shopping, 1.0, 1.0, 1.0, None)), Search, Found(items)];
            Legal(Start(true, false), calls) && After(Start(true, false), calls) == Searched(items)
    ensures Inv(Searched(items))
  {
    var calls := [Assess(Clarity(Shopping, 1.0, 1.0, 1.0, None)), Search, Found(items)];
    var s1 := Handle(Start(true, false), calls[0]);
    var s2 := Handle(s1, calls[1]);
    assert [] + items == items;
    NewItemsAreAdded([], items);
    assert Handle(s2, calls[2]) == Searched(items);
    CallThen(s2, calls[2], []);
    CallThen(s1, calls[1], [calls[2]]);
    CallThen(Start(true, false), calls[0], [calls[1]] + [calls[2]]);
    assert calls == [calls[0]] + ([calls[1]] + [calls[2]]) && [calls[2]] + [] == [calls[2]];
  }

  /** A search more can find an eleventh product; then the turn demands a recording that cannot succeed. */
  lemma ElevenProductsCannotBeRecorded(items: seq<string>, more: seq<string>)
    requires Distinct(items + more) && items != [] && |items + more| > MOST_RECOMMENDATIONS
    ensures Legal(Searched(items), [Search, Found(more)])
    ensures var s := After(Searched(items), [Search, Found(more)]);
            NextToolChoice(s) == Some(MustRecord) && !CanServe(s, MustRecord)
  {
    NewItemsAreAdded(items, more);
    var s1 := Handle(Searched(items), Search);
    var s := Handle(s1, Found(more));
    assert s == Searched(items + more);
    CallThen(s1, Found(more), []);
    CallThen(Searched(items), Search, [Found(more)]);
    assert [Search, Found(more)] == [Search] + [Found(more)] && [Found(more)] + [] == [Found(more)];
    assert s.products[0] !in s.summaries;
    SearchedIsReached(items + more);
    DemandCanBeMetExactly(s);
  }

  /** So does a turn whose products were found before its request was assessed as something else. */
  lemma ReassessedProductsCannotBeRecorded(items: seq<string>)
    requires Distinct(items) && items != []
    ensures var call := Assess(Clarity(Other, 1.0, 1.0, 1.0, None));
            var s := Handle(Searched(items), call);
            Enabled(Searched(items), call) && NextToolChoice(s) == Some(MustRecord) && !CanServe(s, MustRecord)
  {
    var call := Assess(Clarity(Other, 1.0, 1.0, 1.0, None));
    var s := Handle(Searched(items), call);
    SearchedIsReached(items);
    CallKeeps(Searched(items), call);
    assert s.products[0] !in s.summaries;
    DemandCanBeMetExactly(s);
  }
}
