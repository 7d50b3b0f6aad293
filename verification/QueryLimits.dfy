/** The depth and the cost the server computes for a query before it runs it. */
module QueryLimits {
  import opened Queries

  const MAXIMUM_FIRST: nat := 50

  datatype Value = IntValue(value: int) | OtherValue

  datatype Argument = Argument(name: string, value: Value)

  /** A selection set is never empty, so a field without one has no children. */
  datatype Selection =
    | Field(name: string, arguments: seq<Argument>, children: seq<Selection>)
    | Inline(selections: seq<Selection>)
    | Spread(fragment: string)

  type Fragments = map<string, seq<Selection>>

  datatype Definition =
    | Operation(selections: seq<Selection>)
    | Fragment(name: string, selections: seq<Selection>)
    | OtherDefinition

  function Larger(a: nat, b: nat): nat {
    if a < b then b else a
  }

  // ----- the two measures, with the names already expanded -----

  function Depth(selections: seq<Selection>, fragments: Fragments, visited: set<string>): nat
    decreases fragments.Keys - visited, selections
  {
    if selections == [] then 0
    else
      var s := selections[0];
      var first :=
        if s.Field? then 1 + Depth(s.children, fragments, visited)
        else if s.Inline? then Depth(s.selections, fragments, visited)
        else if s.fragment in visited || s.fragment !in fragments then 0
        else Depth(fragments[s.fragment], fragments, visited + {s.fragment});
      Larger(first, Depth(selections[1..], fragments, visited))
  }

  /** So many fields below one another, on a way that enters no fragment twice. */
  ghost predicate Nests(selections: seq<Selection>, fragments: Fragments, visited: set<string>, n: nat)
    decreases fragments.Keys - visited, selections
  {
    n == 0 || (selections != [] &&
      var s := selections[0];
      || (s.Field? && Nests(s.children, fragments, visited, n - 1))
      || (s.Inline? && Nests(s.selections, fragments, visited, n))
      || (s.Spread? && s.fragment in fragments && s.fragment !in visited
          && Nests(fragments[s.fragment], fragments, visited + {s.fragment}, n))
      || Nests(selections[1..], fragments, visited, n))
  }

  /** The depth is the largest number of fields below one another. */
  lemma {:induction false} DepthIsTheLongestNesting(
      selections: seq<Selection>, fragments: Fragments, visited: set<string>, n: nat)
    ensures n <= Depth(selections, fragments, visited) <==> Nests(selections, fragments, visited, n)
    decreases fragments.Keys - visited, selections
  {
    if selections != [] && n > 0 {
      var s := selections[0];
      if s.Field? {
        DepthIsTheLongestNesting(s.children, fragments, visited, n - 1);
      } else if s.Inline? {
        DepthIsTheLongestNesting(s.selections, fragments, visited, n);
      } else if s.Spread? && s.fragment in fragments && s.fragment !in visited {
        DepthIsTheLongestNesting(fragments[s.fragment], fragments, visited + {s.fragment}, n);
      }
      DepthIsTheLongestNesting(selections[1..], fragments, visited, n);
    }
  }

  /** The argument named `first` that comes first, held between 1 and 50. */
  function RequestedFirst(arguments: seq<Argument>): (n: nat)
    ensures 1 <= n <= MAXIMUM_FIRST
  {
    if arguments == [] then MAXIMUM_FIRST
    else if arguments[0].name != "first" then RequestedFirst(arguments[1..])
    else if arguments[0].value.IntValue? then
      var n := arguments[0].value.value;
      if n < 1 then 1 else if n > MAXIMUM_FIRST then MAXIMUM_FIRST else n
    else MAXIMUM_FIRST
  }

  /** A later argument of that name does not matter, and an integer within the bounds is taken as is. */
  lemma {:induction false} FirstArgumentDecides(arguments: seq<Argument>, i: nat)
    requires i < |arguments| && arguments[i].name == "first"
    requires forall j | 0 <= j < i :: arguments[j].name != "first"
    ensures arguments[i].value.OtherValue? ==> RequestedFirst(arguments) == MAXIMUM_FIRST
    ensures arguments[i].value.IntValue? && 1 <= arguments[i].value.value <= MAXIMUM_FIRST ==>
              RequestedFirst(arguments) == arguments[i].value.value
    ensures arguments[i].value.IntValue? && arguments[i].value.value < 1 ==> RequestedFirst(arguments) == 1
    decreases i
  {
    if i > 0 {
      FirstArgumentDecides(arguments[1..], i - 1);
    }
  }

  predicate Paginated(name: string) {
    name in ["conversations", "messages", "searchProducts", "savedProducts"]
  }

  function Multiplier(s: Selection): (n: nat)
    requires s.Field?
    ensures 1 <= n
  {
    if Paginated(s.name) then RequestedFirst(s.arguments) else 1
  }

  function Complexity(selections: seq<Selection>, fragments: Fragments, visited: set<string>): nat
    decreases fragments.Keys - visited, selections
  {
    if selections == [] then 0
    else
      var s := selections[0];
      var first :=
        if s.Field? then
          1 + Complexity(s.children, fragments, visited) * Multiplier(s)
        else if s.Inline? then Complexity(s.selections, fragments, visited)
        else if s.fragment in visited || s.fragment !in fragments then 0
        else Complexity(fragments[s.fragment], fragments, visited + {s.fragment});
      first + Complexity(selections[1..], fragments, visited)
  }

  // ----- what the cost says of one field -----

  /** The value of the argument named `first` that comes first. */
  ghost predicate DecidesFirst(arguments: seq<Argument>, value: Value) {
    exists i :: 0 <= i < |arguments| && arguments[i] == Argument("first", value)
             && forall j | 0 <= j < i :: arguments[j].name != "first"
  }

  lemma {:induction false} FirstDecided(arguments: seq<Argument>, value: Value)
    requires DecidesFirst(arguments, value)
    ensures RequestedFirst(arguments) ==
      if value.OtherValue? || value.value > 50 then 50 else if value.value < 1 then 1 else value.value
  {
    if arguments[0].name != "first" {
      var i :| 0 <= i < |arguments| && arguments[i] == Argument("first", value)
            && forall j | 0 <= j < i :: arguments[j].name != "first";
      assert arguments[1..][i - 1] == arguments[i];
      assert DecidesFirst(arguments[1..], value) by {
        assert forall j | 0 <= j < i - 1 :: arguments[1..][j] == arguments[j + 1];
      }
      FirstDecided(arguments[1..], value);
    }
  }

  lemma {:induction false} NoFirst(arguments: seq<Argument>)
    requires forall a | a in arguments :: a.name != "first"
    ensures RequestedFirst(arguments) == 50
  {
    if arguments != [] {
      NoFirst(arguments[1..]);
    }
  }

  /** How many entries a field asks for: of the four lists with pages as many as the deciding `first` says, held
      between one and fifty, and fifty without one; of any other field one. */
  ghost predicate AsksFor(name: string, arguments: seq<Argument>, n: int) {
    if name == "conversations" || name == "messages" || name == "searchProducts" || name == "savedProducts" then
      && 1 <= n <= 50
      && ((forall a | a in arguments :: a.name != "first") || DecidesFirst(arguments, OtherValue) ==> n == 50)
      && (forall v: int | DecidesFirst(arguments, IntValue(v)) ::
            (1 <= v <= 50 ==> n == v) && (v < 1 ==> n == 1) && (v > 50 ==> n == 50))
    else n == 1
  }

  lemma MultiplierAsks(s: Selection)
    requires s.Field?
    ensures AsksFor(s.name, s.arguments, Multiplier(s))
  {
    if forall a | a in s.arguments :: a.name != "first" {
      NoFirst(s.arguments);
    }
    forall value | DecidesFirst(s.arguments, value)
      ensures RequestedFirst(s.arguments) ==
        if value.OtherValue? || value.value > 50 then 50 else if value.value < 1 then 1 else value.value
    {
      FirstDecided(s.arguments, value);
    }
  }

  lemma {:induction false} SomethingDecides(arguments: seq<Argument>)
    ensures (forall a | a in arguments :: a.name != "first") || exists value :: DecidesFirst(arguments, value)
  {
    if arguments != [] {
      if arguments[0].name == "first" {
        assert DecidesFirst(arguments, arguments[0].value);
      } else {
        SomethingDecides(arguments[1..]);
        if value :| DecidesFirst(arguments[1..], value) {
          var i :| 0 <= i < |arguments[1..]| && arguments[1..][i] == Argument("first", value)
                && forall j | 0 <= j < i :: arguments[1..][j].name != "first";
          var k := i + 1;
          assert arguments[k] == Argument("first", value);
          forall j | 0 <= j < k ensures arguments[j].name != "first" {
            assert j > 0 ==> arguments[j] == arguments[1..][j - 1];
          }
          assert DecidesFirst(arguments, value);
        } else {
          assert forall a | a in arguments :: a == arguments[0] || a in arguments[1..];
        }
      }
    }
  }

  /** The number asked for is one, so what allows a response that many entries leaves nothing open. */
  lemma AsksForOne(name: string, arguments: seq<Argument>, n: int, m: int)
    requires AsksFor(name, arguments, n) && AsksFor(name, arguments, m)
    ensures n == m
  {
    SomethingDecides(arguments);
    if value :| DecidesFirst(arguments, value) {
      assert value.IntValue? ==> DecidesFirst(arguments, IntValue(value.value));
    }
  }

  /** A field costs one and as many times what is below it as it asks for entries; a fragment costs what is in it,
      and nothing where it is met again on the way or is not defined. */
  lemma CostByName(selections: seq<Selection>, fragments: Fragments, visited: set<string>, n: int)
    requires selections != []
    requires selections[0].Field? ==> AsksFor(selections[0].name, selections[0].arguments, n)
    ensures var s := selections[0];
      Complexity(selections, fragments, visited) == Complexity(selections[1..], fragments, visited) +
        if s.Field? then 1 + n * Complexity(s.children, fragments, visited)
        else if s.Inline? then Complexity(s.selections, fragments, visited)
        else if s.fragment in fragments && s.fragment !in visited
        then Complexity(fragments[s.fragment], fragments, visited + {s.fragment}) else 0
  {
    hide AsksFor;
    hide Multiplier;
    var s := selections[0];
    if s.Field? {
      MultiplierAsks(s);
      AsksForOne(s.name, s.arguments, n, Multiplier(s));
      var below := Complexity(s.children, fragments, visited);
      assert below * Multiplier(s) == n * below;
    }
  }

  lemma {:induction false} DepthWithinComplexity(selections: seq<Selection>, fragments: Fragments, visited: set<string>)
    ensures Depth(selections, fragments, visited) <= Complexity(selections, fragments, visited)
    decreases fragments.Keys - visited, selections
  {
    if selections != [] {
      var s := selections[0];
      if s.Field? {
        DepthWithinComplexity(s.children, fragments, visited);
        Scales(Complexity(s.children, fragments, visited), Multiplier(s));
      } else if s.Inline? {
        DepthWithinComplexity(s.selections, fragments, visited);
      } else if s.Spread? && s.fragment !in visited && s.fragment in fragments {
        DepthWithinComplexity(fragments[s.fragment], fragments, visited + {s.fragment});
      }
      DepthWithinComplexity(selections[1..], fragments, visited);
    }
  }

  lemma Scales(n: nat, factor: nat)
    requires factor >= 1
    ensures n <= n * factor
  {
    assert n * factor == n + n * (factor - 1);
  }

  // ----- the fully inlined query -----

  /** Ranks that fall along every spread: what a document has when its fragments form no cycle. */
  ghost predicate SpreadsBelow(selections: seq<Selection>, fragments: Fragments, rank: map<string, nat>, bound: nat)
    decreases selections
  {
    selections == [] ||
    var s := selections[0];
    && (s.Field? ==> SpreadsBelow(s.children, fragments, rank, bound))
    && (s.Inline? ==> SpreadsBelow(s.selections, fragments, rank, bound))
    && (s.Spread? && s.fragment in fragments ==> s.fragment in rank && rank[s.fragment] < bound)
    && SpreadsBelow(selections[1..], fragments, rank, bound)
  }

  ghost predicate Ranked(fragments: Fragments, rank: map<string, nat>) {
    forall f | f in fragments :: f in rank && SpreadsBelow(fragments[f], fragments, rank, rank[f])
  }

  /** Every spread replaced by the fragment it names, without any record of the way. */
  function Inlined(selections: seq<Selection>, fragments: Fragments, ghost rank: map<string, nat>,
                   ghost bound: nat): seq<Selection>
    requires Ranked(fragments, rank) && SpreadsBelow(selections, fragments, rank, bound)
    decreases bound, selections
  {
    if selections == [] then []
    else
      var s := selections[0];
      var first :=
        if s.Field? then
          s.(children := Inlined(s.children, fragments, rank, bound))
        else if s.Inline? then Inline(Inlined(s.selections, fragments, rank, bound))
        else if s.fragment in fragments then Inline(Inlined(fragments[s.fragment], fragments, rank, rank[s.fragment]))
        else Inline([]);
      [first] + Inlined(selections[1..], fragments, rank, bound)
  }

  /** Depth of a query without spreads. */
  function PlainDepth(selections: seq<Selection>): nat {
    if selections == [] then 0
    else
      var s := selections[0];
      var first :=
        if s.Field? then 1 + PlainDepth(s.children)
        else if s.Inline? then PlainDepth(s.selections)
        else 0;
      Larger(first, PlainDepth(selections[1..]))
  }

  /** Cost of a query without spreads. */
  function PlainComplexity(selections: seq<Selection>): nat
    decreases selections, 1
  {
    if selections == [] then 0 else PlainCost(selections[0]) + PlainComplexity(selections[1..])
  }

  function PlainCost(s: Selection): nat
    decreases s, 0
  {
    match s
    case Field(_, _, children) => 1 + PlainComplexity(children) * Multiplier(s)
    case Inline(selections) => PlainComplexity(selections)
    case Spread(_) => 0
  }

  /** On the way to a selection only fragments of higher rank were visited. */
  ghost predicate VisitedAbove(visited: set<string>, rank: map<string, nat>, bound: nat) {
    forall v | v in visited :: v in rank ==> bound <= rank[v]
  }

  lemma {:induction false} MeasuresMatchInlining(
      selections: seq<Selection>, fragments: Fragments, visited: set<string>, rank: map<string, nat>, bound: nat)
    requires Ranked(fragments, rank) && SpreadsBelow(selections, fragments, rank, bound)
    requires VisitedAbove(visited, rank, bound)
    ensures Depth(selections, fragments, visited) == PlainDepth(Inlined(selections, fragments, rank, bound))
    ensures Complexity(selections, fragments, visited) == PlainComplexity(Inlined(selections, fragments, rank, bound))
    decreases bound, selections
  {
    hide RequestedFirst;
    hide Paginated;
    if selections != [] {
      var s := selections[0];
      var flat := Inlined(selections, fragments, rank, bound);
      if s.Field? {
        MeasuresMatchInlining(s.children, fragments, visited, rank, bound);
      } else if s.Inline? {
        MeasuresMatchInlining(s.selections, fragments, visited, rank, bound);
      } else if s.Spread? && s.fragment in fragments {
        MeasuresMatchInlining(fragments[s.fragment], fragments, visited + {s.fragment}, rank, rank[s.fragment]);
      }
      MeasuresMatchInlining(selections[1..], fragments, visited, rank, bound);
      assert flat[1..] == Inlined(selections[1..], fragments, rank, bound);
    }
  }

  // ----- what a query may resolve -----

  /** The lists of the schema that take no `first`, such as a message's parts, with the most entries
      the data has in one of them. */
  type Widths = map<string, nat>

  function Width(name: string, widths: Widths): (n: nat)
    ensures 1 <= n
  {
    if name in widths && widths[name] > 1 then widths[name] else 1
  }

  /** What one selection came to: nothing, a field with the objects below it, or the fields of a
      fragment that applied. A copy may use `share` of what its field allows. */
  datatype Result =
    | Absent
    | Resolved(copies: seq<Copy>)
    | Expanded(results: seq<Result>)

  datatype Copy = Copy(share: nat, results: seq<Result>)

  function Shares(copies: seq<Copy>): nat {
    if copies == [] then 0 else copies[0].share + Shares(copies[1..])
  }

  /** A paginated field may repeat what is below it `first` times, at its own list or at one further
      down; a list without pages as often as it is wide; nothing else repeats. `allowance` is how many
      repeats are granted from above. */
  ghost predicate Conforms(selections: seq<Selection>, results: seq<Result>, allowance: nat, widths: Widths)
    decreases results, 1
  {
    if selections == [] then results == []
    else
      && results != []
      && ConformsOne(selections[0], results[0], allowance, widths)
      && Conforms(selections[1..], results[1..], allowance, widths)
  }

  ghost predicate ConformsOne(s: Selection, r: Result, allowance: nat, widths: Widths)
    decreases r, 0
  {
    match r
    case Absent => true
    case Resolved(copies) =>
      && s.Field?
      && MayRepeat(s.name, s.arguments, Shares(copies), allowance * Width(s.name, widths))
      && ConformingCopies(s.children, copies, widths)
    case Expanded(results) => s.Inline? && Conforms(s.selections, results, allowance, widths)
  }

  /** For each of `times` lists no more entries than the field asks for. */
  ghost predicate MayRepeat(name: string, arguments: seq<Argument>, repeats: int, times: nat) {
    exists n: nat :: AsksFor(name, arguments, n) && repeats <= times * n
  }

  ghost predicate ConformingCopies(children: seq<Selection>, copies: seq<Copy>, widths: Widths)
    decreases copies, 2
  {
    copies == [] ||
    (&& copies[0].share >= 1
     && Conforms(children, copies[0].results, copies[0].share, widths)
     && ConformingCopies(children, copies[1..], widths))
  }

  /** How many fields were resolved. */
  function Count(results: seq<Result>): nat
    decreases results, 1
  {
    if results == [] then 0 else CountOne(results[0]) + Count(results[1..])
  }

  function CountOne(r: Result): nat
    decreases r, 0
  {
    match r
    case Absent => 0
    case Resolved(copies) => 1 + CountCopies(copies)
    case Expanded(results) => Count(results)
  }

  function CountCopies(copies: seq<Copy>): nat
    decreases copies, 2
  {
    if copies == [] then 0 else Count(copies[0].results) + CountCopies(copies[1..])
  }

  lemma MulMono(a: nat, b: nat, c: nat)
    requires a <= b
    ensures a * c <= b * c
  {
  }

  /** How often a field may repeat what is below it for each repeat granted from above. */
  function Fanout(s: Selection, widths: Widths): (n: nat)
    requires s.Field?
    ensures 1 <= n
  {
    MulMono(1, Multiplier(s), Width(s.name, widths));
    Multiplier(s) * Width(s.name, widths)
  }

  lemma RepeatsWithinFanout(s: Selection, repeats: int, allowance: nat, widths: Widths)
    requires s.Field?
    ensures MayRepeat(s.name, s.arguments, repeats, allowance * Width(s.name, widths))
       <==> repeats <= allowance * Fanout(s, widths)
  {
    var width, m := Width(s.name, widths), Multiplier(s);
    MultiplierAsks(s);
    assert allowance * (m * width) == (allowance * width) * m;
    if n: nat :| AsksFor(s.name, s.arguments, n) && repeats <= allowance * width * n {
      AsksForOne(s.name, s.arguments, n, m);
    }
  }

  /** The cost that counts the lists without pages as well. */
  function WideComplexity(selections: seq<Selection>, widths: Widths): nat
    decreases selections, 1
  {
    if selections == [] then 0 else WideCost(selections[0], widths) + WideComplexity(selections[1..], widths)
  }

  function WideCost(s: Selection, widths: Widths): nat
    decreases s, 0
  {
    match s
    case Field(_, _, children) => 1 + WideComplexity(children, widths) * Fanout(s, widths)
    case Inline(selections) => WideComplexity(selections, widths)
    case Spread(_) => 0
  }

  lemma FieldFits(shares: nat, allowance: nat, multiplier: nat, cost: nat, counted: nat)
    requires counted <= shares * cost && shares <= allowance * multiplier && allowance >= 1
    ensures 1 + counted <= allowance * (1 + cost * multiplier)
  {
    MulMono(shares, allowance * multiplier, cost);
    assert allowance * (1 + cost * multiplier) == allowance + allowance * multiplier * cost;
  }

  lemma {:induction false} CountWithinWideComplexity(
      selections: seq<Selection>, results: seq<Result>, allowance: nat, widths: Widths)
    requires Conforms(selections, results, allowance, widths) && allowance >= 1
    ensures Count(results) <= allowance * WideComplexity(selections, widths)
    decreases results, 1
  {
    if selections != [] {
      CountOneWithinCost(selections[0], results[0], allowance, widths);
      CountWithinWideComplexity(selections[1..], results[1..], allowance, widths);
      assert allowance * (WideCost(selections[0], widths) + WideComplexity(selections[1..], widths))
          == allowance * WideCost(selections[0], widths) + allowance * WideComplexity(selections[1..], widths);
    }
  }

  lemma {:induction false} CountOneWithinCost(s: Selection, r: Result, allowance: nat, widths: Widths)
    requires ConformsOne(s, r, allowance, widths) && allowance >= 1
    ensures CountOne(r) <= allowance * WideCost(s, widths)
    decreases r, 0
  {
    match r
    case Absent =>
    case Resolved(copies) =>
      CopiesWithinShares(s.children, copies, widths);
      RepeatsWithinFanout(s, Shares(copies), allowance, widths);
      FieldFits(Shares(copies), allowance, Fanout(s, widths), WideComplexity(s.children, widths), CountCopies(copies));
    case Expanded(results) =>
      CountWithinWideComplexity(s.selections, results, allowance, widths);
  }

  lemma {:induction false} CopiesWithinShares(children: seq<Selection>, copies: seq<Copy>, widths: Widths)
    requires ConformingCopies(children, copies, widths)
    ensures CountCopies(copies) <= Shares(copies) * WideComplexity(children, widths)
    decreases copies, 2
  {
    if copies != [] {
      CountWithinWideComplexity(children, copies[0].results, copies[0].share, widths);
      CopiesWithinShares(children, copies[1..], widths);
      assert (copies[0].share + Shares(copies[1..])) * WideComplexity(children, widths)
          == copies[0].share * WideComplexity(children, widths)
            + Shares(copies[1..]) * WideComplexity(children, widths);
    }
  }

  // ----- the wide cost is the most a query can resolve -----

  function Repeat(n: nat, c: Copy): seq<Copy> {
    if n == 0 then [] else [c] + Repeat(n - 1, c)
  }

  /** Every field present, every page full and every other list as wide as it gets. */
  function Full(selections: seq<Selection>, widths: Widths): seq<Result>
    decreases selections, 1
  {
    if selections == [] then [] else [FullOne(selections[0], widths)] + Full(selections[1..], widths)
  }

  function FullOne(s: Selection, widths: Widths): Result
    decreases s, 0
  {
    match s
    case Field(_, _, children) => Resolved(Repeat(Fanout(s, widths), Copy(1, Full(children, widths))))
    case Inline(selections) => Expanded(Full(selections, widths))
    case Spread(_) => Absent
  }

  lemma {:induction false} RepeatFits(children: seq<Selection>, n: nat, results: seq<Result>, widths: Widths)
    requires Conforms(children, results, 1, widths)
    ensures ConformingCopies(children, Repeat(n, Copy(1, results)), widths)
    ensures Shares(Repeat(n, Copy(1, results))) == n
    ensures CountCopies(Repeat(n, Copy(1, results))) == n * Count(results)
    decreases n
  {
    if n > 0 {
      RepeatFits(children, n - 1, results, widths);
      assert Repeat(n, Copy(1, results))[1..] == Repeat(n - 1, Copy(1, results));
      assert n * Count(results) == Count(results) + (n - 1) * Count(results);
    }
  }

  lemma {:induction false} FullMeetsComplexity(selections: seq<Selection>, widths: Widths)
    ensures Conforms(selections, Full(selections, widths), 1, widths)
    ensures Count(Full(selections, widths)) == WideComplexity(selections, widths)
    decreases selections, 1
  {
    if selections != [] {
      FullOneMeetsCost(selections[0], widths);
      FullMeetsComplexity(selections[1..], widths);
      assert Full(selections, widths)[1..] == Full(selections[1..], widths);
    }
  }

  lemma {:induction false} FullOneMeetsCost(s: Selection, widths: Widths)
    ensures ConformsOne(s, FullOne(s, widths), 1, widths) && CountOne(FullOne(s, widths)) == WideCost(s, widths)
    decreases s, 0
  {
    match s
    case Field(_, _, children) =>
      FullMeetsComplexity(children, widths);
      RepeatFits(children, Fanout(s, widths), Full(children, widths), widths);
      RepeatsWithinFanout(s, Fanout(s, widths), 1, widths);
    case Inline(selections) =>
      FullMeetsComplexity(selections, widths);
    case Spread(_) =>
  }

  // ----- when the server's cost bounds what is resolved -----

  /** No field is asked for below a list without pages that can have a second entry. */
  predicate NothingBelowWideLists(selections: seq<Selection>, widths: Widths)
    decreases selections
  {
    selections == [] ||
    var s := selections[0];
    && (s.Field? ==>
      && (Width(s.name, widths) > 1 ==> PlainComplexity(s.children) == 0)
      && NothingBelowWideLists(s.children, widths))
    && (s.Inline? ==> NothingBelowWideLists(s.selections, widths))
    && NothingBelowWideLists(selections[1..], widths)
  }

  lemma Widening(plain: nat, wide: nat, multiplier: nat, width: nat)
    requires plain <= wide && multiplier >= 1 && width >= 1
    ensures plain * multiplier <= wide * (multiplier * width)
    ensures wide * (multiplier * width) == plain * multiplier <==> wide == plain && (width > 1 ==> plain == 0)
  {
    var unit := wide * multiplier;
    assert wide * (multiplier * width) == unit * width == unit + unit * (width - 1);
    assert unit == plain * multiplier + (wide - plain) * multiplier;
    Scales(wide - plain, multiplier);
    Scales(wide, multiplier);
    if width > 1 {
      Scales(unit, width - 1);
    }
  }

  /** The two costs differ exactly when something lies below a wide list. */
  lemma {:induction false} WideCostExactly(selections: seq<Selection>, widths: Widths)
    ensures PlainComplexity(selections) <= WideComplexity(selections, widths)
    ensures WideComplexity(selections, widths) == PlainComplexity(selections)
      <==> NothingBelowWideLists(selections, widths)
    decreases selections
  {
    if selections != [] {
      var s := selections[0];
      if s.Field? {
        WideCostExactly(s.children, widths);
        Widening(PlainComplexity(s.children), WideComplexity(s.children, widths), Multiplier(s), Width(s.name, widths));
      } else if s.Inline? {
        WideCostExactly(s.selections, widths);
      }
      WideCostExactly(selections[1..], widths);
    }
  }

  /** A limit holds for every response exactly if it holds for the wide cost. */
  lemma LimitHoldsExactly(selections: seq<Selection>, widths: Widths, limit: int)
    ensures (forall results | Conforms(selections, results, 1, widths) :: Count(results) <= limit)
       <==> WideComplexity(selections, widths) <= limit
  {
    FullMeetsComplexity(selections, widths);
    forall results | Conforms(selections, results, 1, widths)
      ensures Count(results) <= WideComplexity(selections, widths)
    {
      CountWithinWideComplexity(selections, results, 1, widths);
    }
  }

  /** What the server computes is a bound on every response exactly if nothing lies below a wide list. */
  lemma CountWithinComplexityExactly(selections: seq<Selection>, widths: Widths)
    ensures (forall results | Conforms(selections, results, 1, widths) :: Count(results) <= PlainComplexity(selections))
       <==> NothingBelowWideLists(selections, widths)
  {
    LimitHoldsExactly(selections, widths, PlainComplexity(selections));
    WideCostExactly(selections, widths);
  }

  /** `parts { kind }` and a response of two parts. */
  const PARTS: seq<Selection> := [Field("parts", [], [Field("kind", [], [])])]
  const TWO_PARTS: seq<Result> := [Resolved([Copy(1, [Resolved([])]), Copy(1, [Resolved([])])])]

  lemma TwoPartsConform(widths: Widths)
    requires widths == map["parts" := 2]
    ensures Conforms(PARTS, TWO_PARTS, 1, widths) && Count(TWO_PARTS) == 3 && PlainComplexity(PARTS) == 2
  {
    var kind := Resolved([]);
    var part := Copy(1, [kind]);
    var kinds := PARTS[0].children;
    RepeatsWithinFanout(kinds[0], 0, 1, widths);
    assert kinds[1..] == [] && [kind][1..] == [];
    assert ConformsOne(kinds[0], kind, 1, widths);
    assert Conforms(kinds, [kind], 1, widths);
    assert [part, part][1..] == [part];
    assert ConformingCopies(kinds, [part], widths);
    assert Fanout(PARTS[0], widths) == 2 && Shares([part, part]) == 2;
    RepeatsWithinFanout(PARTS[0], 2, 1, widths);
    assert CountCopies([part, part]) == 1 + CountCopies([part]);
  }

  /** `messages(first: 1) { parts { kind } }` costs three, and with one message of two parts it
      resolves four fields. */
  lemma PartsOutgrowTheCost()
    ensures
      var query := [Field("messages", [Argument("first", IntValue(1))], PARTS)];
      var response := [Resolved([Copy(1, TWO_PARTS)])];
      && PlainComplexity(query) == 3
      && Conforms(query, response, 1, map["parts" := 2]) && Count(response) == 4
  {
    hide Conforms;
    hide PlainComplexity;
    hide Count;
    var messages := Field("messages", [Argument("first", IntValue(1))], PARTS);
    var one := Copy(1, TWO_PARTS);
    var widths: Widths := map["parts" := 2];
    TwoPartsConform(widths);
    assert Fanout(messages, widths) == 1;
    RepeatsWithinFanout(messages, 1, 1, widths);
    assert ConformingCopies(PARTS, [one], widths);
    assert Shares([one]) == 1 && CountCopies([one]) == 3;
    assert ConformsOne(messages, Resolved([one]), 1, widths);
    assert CountOne(Resolved([one])) == 4;
    SingleField(messages, Resolved([one]), widths);
  }

  lemma SingleField(s: Selection, r: Result, widths: Widths)
    ensures PlainComplexity([s]) == PlainCost(s)
    ensures Count([r]) == CountOne(r)
    ensures ConformsOne(s, r, 1, widths) ==> Conforms([s], [r], 1, widths)
  {
  }

  // ----- the code -----

  /** The definition of a name that comes last wins. */
  function FragmentsOf(definitions: seq<Definition>): Fragments {
    if definitions == [] then map[]
    else
      var before := FragmentsOf(definitions[..|definitions| - 1]);
      var d := definitions[|definitions| - 1];
      if d.Fragment? then before[d.name := d.selections] else before
  }

  lemma {:induction false} LastFragmentWins(definitions: seq<Definition>, i: nat)
    requires i < |definitions| && definitions[i].Fragment?
    requires forall j | i < j < |definitions| :: definitions[j].Fragment? ==> definitions[j].name != definitions[i].name
    ensures definitions[i].name in FragmentsOf(definitions)
    ensures FragmentsOf(definitions)[definitions[i].name] == definitions[i].selections
  {
    if i < |definitions| - 1 {
      LastFragmentWins(definitions[..|definitions| - 1], i);
    }
  }

  method FragmentsFrom(definitions: seq<Definition>) returns (fragments: Fragments)
    ensures fragments == FragmentsOf(definitions)
  {
    fragments := map[];
    for i := 0 to |definitions|
      invariant fragments == FragmentsOf(definitions[..i])
    {
      assert definitions[..i + 1][..i] == definitions[..i];
      if definitions[i].Fragment? {
        fragments := fragments[definitions[i].name := definitions[i].selections];
      }
    }
    assert definitions[..|definitions|] == definitions;
  }

  method NestedDepth(selections: seq<Selection>, fragments: Fragments, visited: set<string>) returns (maximum: nat)
    ensures maximum == Depth(selections, fragments, visited)
    decreases fragments.Keys - visited, selections
  {
    maximum := 0;
    for i := 0 to |selections|
      invariant Larger(maximum, Depth(selections[i..], fragments, visited)) == Depth(selections, fragments, visited)
    {
      var s := selections[i];
      assert selections[i..][1..] == selections[i + 1..];
      if s.Field? {
        var below := NestedDepth(s.children, fragments, visited);
        maximum := Larger(maximum, 1 + below);
      } else if s.Inline? {
        var below := NestedDepth(s.selections, fragments, visited);
        maximum := Larger(maximum, below);
      } else if s.fragment !in visited {
        if s.fragment in fragments {
          var below := NestedDepth(fragments[s.fragment], fragments, visited + {s.fragment});
          maximum := Larger(maximum, below);
        }
      }
    }
  }

  method ComplexityOf(selections: seq<Selection>, fragments: Fragments, visited: set<string>) returns (total: nat)
    ensures total == Complexity(selections, fragments, visited)
    decreases fragments.Keys - visited, selections
  {
    total := 0;
    for i := 0 to |selections|
      invariant total + Complexity(selections[i..], fragments, visited) == Complexity(selections, fragments, visited)
    {
      var s := selections[i];
      assert selections[i..][1..] == selections[i + 1..];
      if s.Field? {
        var child := ComplexityOf(s.children, fragments, visited);
        var multiplier := if Paginated(s.name) then RequestedFirst(s.arguments) else 1;
        total := total + 1 + child * multiplier;
      } else if s.Inline? {
        var below := ComplexityOf(s.selections, fragments, visited);
        total := total + below;
      } else if s.fragment !in visited {
        if s.fragment in fragments {
          var below := ComplexityOf(fragments[s.fragment], fragments, visited + {s.fragment});
          total := total + below;
        }
      }
    }
  }

  datatype LimitError = DepthExceeded(depth: nat, maximum: int) | ComplexityExceeded(complexity: nat, maximum: int)

  /** Every operation of the document is within both limits. */
  ghost predicate WithinLimits(definitions: seq<Definition>, maximumDepth: int, maximumComplexity: int) {
    forall i | 0 <= i < |definitions| && definitions[i].Operation? ::
      && Depth(definitions[i].selections, FragmentsOf(definitions), {}) <= maximumDepth
      && Complexity(definitions[i].selections, FragmentsOf(definitions), {}) <= maximumComplexity
  }

  ghost predicate Deserved(
      d: Definition, fragments: Fragments, maximumDepth: int, maximumComplexity: int, e: LimitError) {
    d.Operation? &&
    var depth := Depth(d.selections, fragments, {});
    var complexity := Complexity(d.selections, fragments, {});
    || (e == DepthExceeded(depth, maximumDepth) && depth > maximumDepth)
    || (e == ComplexityExceeded(complexity, maximumComplexity) && complexity > maximumComplexity)
  }

  method QueryLimitRule(maximumDepth: int, maximumComplexity: int, definitions: seq<Definition>)
    returns (errors: seq<LimitError>)
    ensures errors == [] <==> WithinLimits(definitions, maximumDepth, maximumComplexity)
    ensures forall e | e in errors ::
      exists i :: 0 <= i < |definitions|
        && Deserved(definitions[i], FragmentsOf(definitions), maximumDepth, maximumComplexity, e)
  {
    var fragments := FragmentsFrom(definitions);
    errors := [];
    for i := 0 to |definitions|
      invariant errors == [] <==> forall k | 0 <= k < i && definitions[k].Operation? ::
        && Depth(definitions[k].selections, fragments, {}) <= maximumDepth
        && Complexity(definitions[k].selections, fragments, {}) <= maximumComplexity
      invariant forall e | e in errors ::
        exists k :: 0 <= k < i && Deserved(definitions[k], fragments, maximumDepth, maximumComplexity, e)
    {
      if definitions[i].Operation? {
        var depth := NestedDepth(definitions[i].selections, fragments, {});
        if depth > maximumDepth {
          assert Deserved(definitions[i], fragments, maximumDepth, maximumComplexity,
                          DepthExceeded(depth, maximumDepth));
          errors := errors + [DepthExceeded(depth, maximumDepth)];
        }
        var complexity := ComplexityOf(definitions[i].selections, fragments, {});
        if complexity > maximumComplexity {
          assert Deserved(definitions[i], fragments, maximumDepth, maximumComplexity,
                          ComplexityExceeded(complexity, maximumComplexity));
          errors := errors + [ComplexityExceeded(complexity, maximumComplexity)];
        }
      }
    }
  }

  /** What the rule is for: an operation it lets through, in a document whose fragments form no
      cycle, resolves no more fields than the limit, whatever the data, if it asks for nothing below a
      list without pages that can have a second entry. If it does ask for something there, then the
      same operation passes under a limit that a response exceeds. */
  lemma AcceptedOperationsStayWithinLimits(
      definitions: seq<Definition>, maximumDepth: int, maximumComplexity: int, i: nat,
      rank: map<string, nat>, bound: nat, widths: Widths)
    requires WithinLimits(definitions, maximumDepth, maximumComplexity)
    requires i < |definitions| && definitions[i].Operation?
    requires Ranked(FragmentsOf(definitions), rank)
    requires SpreadsBelow(definitions[i].selections, FragmentsOf(definitions), rank, bound)
    ensures
      var query := Inlined(definitions[i].selections, FragmentsOf(definitions), rank, bound);
      && PlainDepth(query) <= maximumDepth
      && ((forall results | Conforms(query, results, 1, widths) :: Count(results) <= maximumComplexity)
          <==> WideComplexity(query, widths) <= maximumComplexity)
      && (NothingBelowWideLists(query, widths) ==> WideComplexity(query, widths) <= maximumComplexity)
      && (!NothingBelowWideLists(query, widths) ==>
            exists results :: Conforms(query, results, 1, widths)
              && Count(results) > Complexity(definitions[i].selections, FragmentsOf(definitions), {}))
  {
    var fragments := FragmentsOf(definitions);
    var query := Inlined(definitions[i].selections, fragments, rank, bound);
    MeasuresMatchInlining(definitions[i].selections, fragments, {}, rank, bound);
    LimitHoldsExactly(query, widths, maximumComplexity);
    WideCostExactly(query, widths);
    CountWithinComplexityExactly(query, widths);
  }
}
