/** A load as its separate reads: the live rows, the manifests, each object, and the parts of the rows
    that were live. Messages are appended and archived between any two of them. */
module MessageReads {
  import opened Queries
  import opened MessageStore
  import opened MessageArchive

  // ----- two moments of a history -----

  /** What later events leave of an earlier state: batches are never taken back, nor is the log. */
  ghost predicate Grown(s: Store, log: seq<Message>, later: Store, longer: seq<Message>) {
    s.manifests <= later.manifests && log <= longer
  }

  lemma EventGrows(events: seq<Event>)
    requires Legal(events) && events != []
    ensures var init := events[..|events| - 1];
      Legal(init) && Grown(After(init), Log(init), After(events), Log(events))
  {
    var init, event := events[..|events| - 1], events[|events| - 1];
    LegalPrefix(events);
    hide Legal;
    hide Inv;
    hide Fits;
    if event.Append? {
      assert After(events).manifests == After(init).manifests;
    } else {
      hide MessageStore.Apply;
      HistoryInv(init);
      PassKeeps(After(init), Log(init), event);
    }
  }

  lemma {:induction false} HistoryGrows(events: seq<Event>, more: seq<Event>)
    requires Legal(events + more)
    ensures Legal(events) && Grown(After(events), Log(events), After(events + more), Log(events + more))
    decreases |more|
  {
    hide Legal;
    hide After;
    hide Log;
    var all := events + more;
    if more == [] {
      assert all == events;
    } else {
      var init := more[..|more| - 1];
      assert all[..|all| - 1] == events + init;
      EventGrows(all);
      HistoryGrows(events, init);
    }
  }

  lemma SharesGrow(s: Store, log: seq<Message>, later: Store, longer: seq<Message>, c: nat)
    requires Grown(s, log, later, longer)
    ensures Where(s.manifests, ManifestOf(c)) <= Where(later.manifests, ManifestOf(c))
  {
    assert later.manifests[..|s.manifests|] == s.manifests;
    WhereTake(later.manifests, |s.manifests|, ManifestOf(c));
  }

  lemma {:induction false} ContentsOfPrefix(ms: seq<Manifest>, more: seq<Manifest>)
    requires ms <= more
    ensures Contents(ms) <= Contents(more)
    ensures ms != more && (forall m | m in more :: m.checksum != []) ==> |Contents(ms)| < |Contents(more)|
  {
    if ms == [] {
      assert more != [] ==> more[0] in more;
    } else {
      ContentsOfPrefix(ms[1..], more[1..]);
    }
  }

  // ----- the messages of a load -----

  /** The batches of the conversation are the same at both reads. */
  ghost predicate NoneMoved(first: Store, second: Store, c: nat) {
    Where(second.manifests, ManifestOf(c)) == Where(first.manifests, ManifestOf(c))
  }

  ghost predicate Filled(first: Store, c: nat) {
    |Share(first.live, c)| >= MAXIMUM_MESSAGES
  }

  /** What a load takes from the archive. */
  function TakenBy(first: Store, second: Store, fetched: map<Key, seq<Message>>, c: nat): Option<seq<Message>> {
    var current := NewestLive(first.live, c, MAXIMUM_MESSAGES);
    Collect(OrderBy(Where(second.manifests, ManifestOf(c)), NewestFirst), fetched, MAXIMUM_MESSAGES - |current|)
  }

  lemma MergeKeepsAll(current: seq<Message>, taken: seq<Message>)
    requires |current| + |taken| <= MAXIMUM_MESSAGES
    ensures multiset(Merge(current, taken)) == multiset(current) + multiset(taken)
  {
    Orders();
    OrderBySorts(current + taken, ByTime);
  }

  /** What is archived only grows. */
  lemma TiersGrow(first: Store, log: seq<Message>, second: Store, longer: seq<Message>, c: nat)
    requires Inv(first, log) && Inv(second, longer) && Grown(first, log, second, longer)
    ensures var before := Contents(Where(first.manifests, ManifestOf(c)));
      var archived := Contents(Where(second.manifests, ManifestOf(c)));
      && Share(log, c) == before + Share(first.live, c)
      && Ascending(archived, ByTime)
      && before <= archived
      && (!NoneMoved(first, second, c) ==> |before| < |archived|)
  {
    Tiers(first, log, c);
    Tiers(second, longer, c);
    SharesGrow(first, log, second, longer, c);
    ManifestsReversed(second, longer, c);
    hide Where;
    hide Share;
    hide Inv;
    hide OrderBy;
    AscendingParts(Contents(Where(second.manifests, ManifestOf(c))), Share(second.live, c), ByTime);
    ContentsOfPrefix(Where(first.manifests, ManifestOf(c)), Where(second.manifests, ManifestOf(c)));
    hide Contents;
  }

  /** The newest message archived by the second read is one the first read saw live or had no chance to see. */
  lemma NewestMoved(first: Store, log: seq<Message>, second: Store, longer: seq<Message>, c: nat)
    requires Inv(first, log) && Inv(second, longer) && Grown(first, log, second, longer)
    requires !NoneMoved(first, second, c)
    ensures var archived := Contents(Where(second.manifests, ManifestOf(c)));
      && archived != []
      && (archived[|archived| - 1] in Share(first.live, c) || archived[|archived| - 1] !in Share(log, c))
  {
    hide Where;
    hide Share;
    hide Contents;
    hide Inv;
    hide Grown;
    hide NoneMoved;
    hide Ascending;
    TiersGrow(first, log, second, longer, c);
    NewestOfPrefix(Contents(Where(first.manifests, ManifestOf(c))), Contents(Where(second.manifests, ManifestOf(c))));
  }

  lemma NewestOfPrefix(before: seq<Message>, archived: seq<Message>)
    requires before <= archived && Ascending(archived, ByTime) && |before| < |archived|
    ensures archived[|archived| - 1] !in before
  {
    forall i | 0 <= i < |before| ensures before[i] != archived[|archived| - 1] {
      assert before[i] == archived[i];
    }
  }

  lemma UndisturbedTaken(first: Store, log: seq<Message>, second: Store, longer: seq<Message>, c: nat,
                         fetched: map<Key, seq<Message>>)
    requires Inv(first, log) && Inv(second, longer) && (Filled(first, c) || NoneMoved(first, second, c))
    ensures var limit := MAXIMUM_MESSAGES - |LastN(Share(first.live, c), MAXIMUM_MESSAGES)|;
      var taken := TakenBy(first, second, fetched, c);
      taken.Some? ==> Rearranges(taken, LastN(Contents(Where(first.manifests, ManifestOf(c))), limit))
  {
    hide Where;
    hide Share;
    hide Contents;
    hide Inv;
    hide OrderBy;
    hide NewestLive;
    hide LoadReads;
    hide Merge;
    var current := LastN(Share(first.live, c), MAXIMUM_MESSAGES);
    var limit := MAXIMUM_MESSAGES - |current|;
    ReadsOf(first, log, second.manifests, fetched, c);
    if Filled(first, c) {
      assert limit == 0;
    } else {
      hide Collect;
      ArchivedNewest(second, longer, c, fetched, limit);
    }
  }

  /** With nothing moved, or nothing asked of the archive, the second read might as well be the first. */
  lemma UndisturbedLoad(first: Store, log: seq<Message>, second: Store, longer: seq<Message>, c: nat,
                        fetched: map<Key, seq<Message>>)
    requires Inv(first, log) && Inv(second, longer)
    requires Filled(first, c) || NoneMoved(first, second, c)
    requires LoadReads(first.live, second.manifests, fetched, c).Some?
    ensures LoadReads(first.live, second.manifests, fetched, c).value == LastN(Share(log, c), MAXIMUM_MESSAGES)
  {
    Tiers(first, log, c);
    ReadsOf(first, log, second.manifests, fetched, c);
    UndisturbedTaken(first, log, second, longer, c, fetched);
    hide Collect;
    hide OrderBy;
    hide Merge;
    hide Inv;
    hide Where;
    hide Share;
    hide LoadReads;
    MergeIsNewest(Contents(Where(first.manifests, ManifestOf(c))), Share(first.live, c),
                  TakenBy(first, second, fetched, c));
  }

  /** Otherwise it shows a message twice or one too new for its first read. */
  lemma DisturbedLoad(first: Store, log: seq<Message>, second: Store, longer: seq<Message>, c: nat,
                      fetched: map<Key, seq<Message>>) returns (x: Message)
    requires Inv(first, log) && Inv(second, longer) && Grown(first, log, second, longer)
    requires !Filled(first, c) && !NoneMoved(first, second, c)
    requires LoadReads(first.live, second.manifests, fetched, c).Some?
    ensures var shown := LoadReads(first.live, second.manifests, fetched, c).value;
      && multiset(shown)[x] >= 1 && (x in Share(log, c) ==> multiset(shown)[x] >= 2)
      && x in Contents(Where(second.manifests, ManifestOf(c)))
  {
    hide Collect;
    hide OrderBy;
    hide Merge;
    hide Inv;
    hide Grown;
    hide Where;
    hide Share;
    hide LoadReads;
    hide NewestLive;
    hide Contents;
    hide NoneMoved;
    hide Missing;
    hide Rearranges;
    var archived, live := Contents(Where(second.manifests, ManifestOf(c))), Share(first.live, c);
    assert LastN(live, MAXIMUM_MESSAGES) == live;
    var listed := OrderBy(Where(second.manifests, ManifestOf(c)), NewestFirst);
    var taken := Collect(listed, fetched, MAXIMUM_MESSAGES - |live|);
    assert taken.Some? && LoadReads(first.live, second.manifests, fetched, c).value == Merge(live, taken.value) by {
      ReadsOf(first, log, second.manifests, fetched, c);
    }
    assert Rearranges(taken, LastN(archived, MAXIMUM_MESSAGES - |live|)) by {
      ArchivedNewest(second, longer, c, fetched, MAXIMUM_MESSAGES - |live|);
    }
    assert archived != [] && (archived[|archived| - 1] in live || archived[|archived| - 1] !in Share(log, c)) by {
      NewestMoved(first, log, second, longer, c);
    }
    x := archived[|archived| - 1];
    MergeShowsNewest(live, archived, taken);
  }

  lemma MergeShowsNewest(live: seq<Message>, archived: seq<Message>, taken: Option<seq<Message>>)
    requires archived != [] && |live| < MAXIMUM_MESSAGES
    requires Rearranges(taken, LastN(archived, MAXIMUM_MESSAGES - |live|))
    ensures var x := archived[|archived| - 1];
      var shown := Merge(live, taken.value);
      && multiset(shown)[x] >= 1
      && (x in live ==> multiset(shown)[x] >= 2)
  {
    var x := archived[|archived| - 1];
    var selected := LastN(archived, MAXIMUM_MESSAGES - |live|);
    assert selected[|selected| - 1] == x;
    assert x in selected && x in multiset(selected);
    assert |taken.value| == |multiset(taken.value)| == |multiset(selected)| == |selected|;
    MergeKeepsAll(live, taken.value);
    assert x in live ==> x in multiset(live);
  }

  lemma ShownOnce(log: seq<Message>, n: nat, x: Message)
    requires Ascending(log, ByTime)
    ensures multiset(LastN(log, n))[x] <= 1
  {
    var tail := LastN(log, n);
    assert log == log[..|log| - |tail|] + tail;
    AscendingParts(log[..|log| - |tail|], tail, ByTime);
    AscendingOnce(tail, x, ByTime);
  }

  lemma ReadsShowExactly(first: Store, log: seq<Message>, second: Store, longer: seq<Message>, c: nat,
                         fetched: map<Key, seq<Message>>)
    requires Inv(first, log) && Inv(second, longer) && Grown(first, log, second, longer)
    requires LoadReads(first.live, second.manifests, fetched, c).Some?
    ensures LoadReads(first.live, second.manifests, fetched, c).value == LastN(Share(log, c), MAXIMUM_MESSAGES)
            <==> Filled(first, c) || NoneMoved(first, second, c)
  {
    hide Inv;
    hide LoadReads;
    hide Where;
    hide Share;
    if Filled(first, c) || NoneMoved(first, second, c) {
      UndisturbedLoad(first, log, second, longer, c, fetched);
    } else {
      var x := DisturbedLoad(first, log, second, longer, c, fetched);
      Tiers(first, log, c);
      var wanted := LastN(Share(log, c), MAXIMUM_MESSAGES);
      ShownOnce(Share(log, c), MAXIMUM_MESSAGES, x);
      LastNMembers(Share(log, c), MAXIMUM_MESSAGES);
      assert x in wanted <==> multiset(wanted)[x] > 0;
    }
  }

  /** A load that does not fail shows the newest fifty messages of the log of its first read exactly if
      that read already found fifty or no row of the conversation was archived before the second. */
  lemma LoadShowsExactly(events: seq<Event>, between: seq<Event>, c: nat, fetched: map<Key, seq<Message>>)
    requires Legal(events + between)
    requires LoadReads(After(events).live, After(events + between).manifests, fetched, c).Some?
    ensures LoadReads(After(events).live, After(events + between).manifests, fetched, c).value
              == LastN(Share(Log(events), c), 50)
            <==> Filled(After(events), c) || NoneMoved(After(events), After(events + between), c)
  {
    HistoryGrows(events, between);
    HistoryInv(events);
    HistoryInv(events + between);
    ReadsShowExactly(After(events), Log(events), After(events + between), Log(events + between), c, fetched);
  }

  ghost predicate ShowsTwice(shown: seq<Message>) {
    exists i, j :: 0 <= i < j < |shown| && shown[i] == shown[j]
  }

  lemma {:induction false} TwiceInside(shown: seq<Message>, x: Message)
    requires multiset(shown)[x] >= 2
    ensures ShowsTwice(shown)
  {
    assert shown == [shown[0]] + shown[1..];
    if shown[0] == x {
      assert x in multiset(shown[1..]);
      var j :| 0 <= j < |shown[1..]| && shown[1..][j] == x;
      assert shown[0] == shown[j + 1];
    } else {
      TwiceInside(shown[1..], x);
      var i, j :| 0 <= i < j < |shown[1..]| && shown[1..][i] == shown[1..][j];
      assert shown[i + 1] == shown[j + 1];
    }
  }

  /** When only rows the first read could see were archived in between, some message is shown twice, so
      the load shows the newest fifty of no moment at all. */
  lemma ArchivedBetweenIsShownTwice(events: seq<Event>, between: seq<Event>, c: nat, fetched: map<Key, seq<Message>>)
    requires Legal(events + between)
    requires LoadReads(After(events).live, After(events + between).manifests, fetched, c).Some?
    requires !Filled(After(events), c) && !NoneMoved(After(events), After(events + between), c)
    requires forall m | m in Contents(Where(After(events + between).manifests, ManifestOf(c))) ::
      m in Share(Log(events), c)
    ensures ShowsTwice(LoadReads(After(events).live, After(events + between).manifests, fetched, c).value)
  {
    HistoryGrows(events, between);
    HistoryInv(events);
    HistoryInv(events + between);
    var x := DisturbedLoad(After(events), Log(events), After(events + between), Log(events + between), c, fetched);
    TwiceInside(LoadReads(After(events).live, After(events + between).manifests, fetched, c).value, x);
  }

  // ----- the parts of a load -----

  function WithId(id: nat): Message -> bool {
    (m: Message) => m.id == id
  }

  /** The parts rows that are there for a message: they come and go with its live row. */
  function LiveParts(live: seq<Message>, id: nat): seq<string> {
    var rows := Where(live, WithId(id));
    if rows == [] then [] else rows[0].parts
  }

  function BundleParts(records: seq<Message>, id: nat): seq<string> {
    if records == [] then []
    else (if records[0].id == id then records[0].parts else []) + BundleParts(records[1..], id)
  }

  /** What the parts read after everything else adds to what came with the archived records. */
  function PartsShown(live: seq<Message>, records: seq<Message>, id: nat): seq<string> {
    LiveParts(live, id) + BundleParts(records, id)
  }

  lemma LivePartsAre(live: seq<Message>, m: Message)
    requires forall r | r in live && r.id == m.id :: r == m
    ensures LiveParts(live, m.id) == if m in live then m.parts else []
  {
    WhereMembers(live, WithId(m.id));
    var rows := Where(live, WithId(m.id));
    if rows != [] {
      assert rows[0] in rows;
    } else {
      assert m in live ==> m in rows;
    }
  }

  lemma {:induction false} BundlePartsAre(records: seq<Message>, m: Message)
    requires multiset(records)[m] <= 1 && forall r | r in records && r.id == m.id :: r == m
    ensures BundleParts(records, m.id) == if m in records then m.parts else []
  {
    if records != [] {
      assert records == [records[0]] + records[1..];
      BundlePartsAre(records[1..], m);
      if records[0] == m {
        assert m !in multiset(records[1..]);
        assert m.parts + [] == m.parts;
      } else {
        assert [] + BundleParts(records[1..], m.id) == BundleParts(records[1..], m.id);
      }
    }
  }

  lemma {:induction false} ShareCounts(records: seq<Message>, p: Message -> bool, x: Message)
    requires p(x)
    ensures multiset(records)[x] == multiset(Where(records, p))[x]
  {
    if records != [] {
      assert records == [records[0]] + records[1..];
      ShareCounts(records[1..], p, x);
    }
  }

  ghost predicate ShownWhole(live: seq<Message>, records: seq<Message>, shown: seq<Message>) {
    forall m | m in shown :: PartsShown(live, records, m.id) == m.parts
  }

  /** Every row the first read found for the conversation is live at the last, or has no parts. */
  ghost predicate StillLive(first: Store, third: Store, c: nat) {
    forall m | m in NewestLive(first.live, c, MAXIMUM_MESSAGES) :: m in third.live || m.parts == []
  }

  /** The records a batch fetched are messages of the log, those of the conversation the ones it took. */
  ghost predicate Fetched(records: seq<Message>, longest: seq<Message>, taken: seq<Message>, c: nat) {
    Where(records, In(c)) == taken && forall r | r in records :: r in longest
  }

  lemma PartsOfOne(records: seq<Message>, longest: seq<Message>, taken: seq<Message>, c: nat, live: seq<Message>,
                   m: Message)
    requires OneMessagePerId(longest) && Fetched(records, longest, taken, c) && m in longest && m.conversation == c
    requires multiset(taken)[m] <= 1 && forall r | r in live :: r in longest
    ensures PartsShown(live, records, m.id)
         == (if m in live then m.parts else []) + (if m in taken then m.parts else [])
  {
    ShareCounts(records, In(c), m);
    assert m in records <==> m in multiset(records);
    assert m in taken <==> m in multiset(taken);
    LivePartsAre(live, m);
    BundlePartsAre(records, m);
  }

  lemma InContents(s: Store, log: seq<Message>, c: nat, m: Message)
    requires Inv(s, log) && m in Contents(Where(s.manifests, ManifestOf(c)))
    ensures m !in s.live && m in log && m.conversation == c
  {
    WhereMembers(s.manifests, ManifestOf(c));
    var f := ContentsCome(Where(s.manifests, ManifestOf(c)), m);
    LiveIsNotArchived(s, log, f, m);
    ArchivedInLog(s, log, f, m);
  }

  /** What an undisturbed load takes from the archive was archived at its first read and is nowhere live since. */
  lemma TakenStaysArchived(first: Store, log: seq<Message>, third: Store, longest: seq<Message>, c: nat,
                           limit: nat, taken: seq<Message>)
    requires Inv(first, log) && Inv(third, longest) && Grown(first, log, third, longest)
    requires Rearranges(Some(taken), LastN(Contents(Where(first.manifests, ManifestOf(c))), limit))
    ensures forall m | m in taken :: m !in first.live && m !in third.live && m in longest && m.conversation == c
    ensures forall m :: multiset(taken)[m] <= 1
    ensures |taken| <= limit
  {
    var archived := Contents(Where(first.manifests, ManifestOf(c)));
    var selected := LastN(archived, limit);
    assert |taken| == |multiset(taken)| == |multiset(selected)| == |selected|;
    Tiers(first, log, c);
    AscendingParts(archived, Share(first.live, c), ByTime);
    SharesGrow(first, log, third, longest, c);
    var later := Contents(Where(third.manifests, ManifestOf(c)));
    ContentsOfPrefix(Where(first.manifests, ManifestOf(c)), Where(third.manifests, ManifestOf(c)));
    forall m ensures multiset(taken)[m] <= 1 {
      ShownOnce(archived, limit, m);
    }
    forall m | m in taken ensures m !in first.live && m !in third.live && m in longest && m.conversation == c {
      assert m in multiset(taken) && m in selected && m in archived;
      assert m in later;
      InContents(first, log, c, m);
      InContents(third, longest, c, m);
    }
  }

  lemma ShownMembers(current: seq<Message>, taken: seq<Message>, shown: seq<Message>)
    requires multiset(shown) == multiset(current) + multiset(taken)
    ensures forall m :: m in shown <==> m in current || m in taken
  {
    forall m ensures m in shown <==> m in current || m in taken {
      assert m in shown <==> m in multiset(shown);
    }
  }

  lemma CurrentIsLogged(first: Store, log: seq<Message>, c: nat)
    requires Inv(first, log)
    ensures forall m | m in LastN(Share(first.live, c), MAXIMUM_MESSAGES) ::
      m in first.live && m in log && m.conversation == c
  {
    ShareMembers(first.live, c);
    LastNMembers(Share(first.live, c), MAXIMUM_MESSAGES);
    forall m | m in first.live ensures m in log {
      LiveInLog(first, log, m);
    }
  }

  lemma LiveIsLogged(s: Store, log: seq<Message>)
    requires Inv(s, log)
    ensures forall r | r in s.live :: r in log
  {
    forall r | r in s.live ensures r in log {
      LiveInLog(s, log, r);
    }
  }

  /** A row of the first read shows its parts exactly if it is still live or has none; a record always does. */
  lemma PartsOfShown(first: Store, log: seq<Message>, third: Store, longest: seq<Message>, c: nat,
                     current: seq<Message>, taken: seq<Message>, records: seq<Message>, shown: seq<Message>)
    requires Inv(first, log) && Inv(third, longest) && Grown(first, log, third, longest) && OneMessagePerId(longest)
    requires current == LastN(Share(first.live, c), MAXIMUM_MESSAGES)
    requires Fetched(records, longest, taken, c) && multiset(shown) == multiset(current) + multiset(taken)
    requires forall m | m in taken :: m !in first.live && m !in third.live && m in longest && m.conversation == c
    requires forall m :: multiset(taken)[m] <= 1
    ensures ShownWhole(third.live, records, shown) <==> forall m | m in current :: m in third.live || m.parts == []
  {
    CurrentIsLogged(first, log, c);
    LiveIsLogged(third, longest);
    StaysLogged(log, longest);
    ShownMembers(current, taken, shown);
    hide Inv;
    hide Grown;
    hide Where;
    hide Share;
    hide LastN;
    hide Fetched;
    hide OneMessagePerId;
    hide PartsShown;
    hide ShownWhole;
    EachShown(records, longest, taken, c, third.live, shown);
    WholeOrGone(third.live, records, current, taken, shown);
  }

  lemma EachShown(records: seq<Message>, longest: seq<Message>, taken: seq<Message>, c: nat,
                  live: seq<Message>, shown: seq<Message>)
    requires OneMessagePerId(longest) && Fetched(records, longest, taken, c)
    requires forall m | m in shown :: m in longest && m.conversation == c
    requires forall m :: multiset(taken)[m] <= 1
    requires forall m | m in taken :: m !in live
    requires forall r | r in live :: r in longest
    ensures forall m | m in shown :: PartsShown(live, records, m.id) == if m in live || m in taken then m.parts else []
  {
    hide OneMessagePerId;
    hide Fetched;
    hide PartsShown;
    forall m | m in shown ensures PartsShown(live, records, m.id) == (if m in live || m in taken then m.parts else []) {
      PartsOfOne(records, longest, taken, c, live, m);
      assert m.parts + [] == m.parts && [] + m.parts == m.parts;
    }
  }

  lemma StaysLogged(log: seq<Message>, longest: seq<Message>)
    requires log <= longest
    ensures forall m | m in log :: m in longest
  {
    assert longest[..|log|] == log;
  }

  lemma WholeOrGone(live: seq<Message>, records: seq<Message>, current: seq<Message>, taken: seq<Message>,
                    shown: seq<Message>)
    requires forall m :: m in shown <==> m in current || m in taken
    requires forall m | m in taken :: m !in current
    requires forall m | m in shown ::
      PartsShown(live, records, m.id) == (if m in live || m in taken then m.parts else [])
    ensures ShownWhole(live, records, shown) <==> forall m | m in current :: m in live || m.parts == []
  {
    hide PartsShown;
  }

  lemma PartsExactly(first: Store, log: seq<Message>, second: Store, longer: seq<Message>,
                     third: Store, longest: seq<Message>, c: nat, fetched: map<Key, seq<Message>>,
                     records: seq<Message>)
    requires Inv(first, log) && Inv(second, longer) && Inv(third, longest) && Grown(first, log, third, longest)
    requires OneMessagePerId(longest) && (Filled(first, c) || NoneMoved(first, second, c))
    requires var taken := TakenBy(first, second, fetched, c);
             taken.Some? && Fetched(records, longest, taken.value, c)
    ensures ShownWhole(third.live, records, LoadReads(first.live, second.manifests, fetched, c).value)
            <==> StillLive(first, third, c)
  {
    var current := LastN(Share(first.live, c), MAXIMUM_MESSAGES);
    var limit := MAXIMUM_MESSAGES - |current|;
    var taken := TakenBy(first, second, fetched, c).value;
    ReadsOf(first, log, second.manifests, fetched, c);
    UndisturbedTaken(first, log, second, longer, c, fetched);
    hide Collect;
    hide OrderBy;
    hide Inv;
    hide Where;
    hide Share;
    hide ShownWhole;
    hide Merge;
    hide Grown;
    hide OneMessagePerId;
    hide Fetched;
    hide Contents;
    hide LoadReads;
    hide Filled;
    hide NoneMoved;
    TakenStaysArchived(first, log, third, longest, c, limit, taken);
    MergeKeepsAll(current, taken);
    PartsOfShown(first, log, third, longest, c, current, taken, records, Merge(current, taken));
  }

  // ----- whole loads -----

  /** What the load is to show is shown, each message with its parts. */
  ghost predicate LoadedWell(events: seq<Event>, between: seq<Event>, after: seq<Event>, c: nat,
                             fetched: map<Key, seq<Message>>, records: seq<Message>)
    requires LoadReads(After(events).live, After(events + between).manifests, fetched, c).Some?
  {
    var shown := LoadReads(After(events).live, After(events + between).manifests, fetched, c).value;
    && shown == LastN(Share(Log(events), c), MAXIMUM_MESSAGES)
    && ShownWhole(After(events + between + after).live, records, shown)
  }

  lemma ThreeMoments(events: seq<Event>, between: seq<Event>, after: seq<Event>)
    requires Legal(events + between + after) && NoReuse(events + between + after)
    ensures Legal(events + between)
    ensures Inv(After(events), Log(events)) && Inv(After(events + between), Log(events + between))
    ensures Inv(After(events + between + after), Log(events + between + after))
    ensures Grown(After(events), Log(events), After(events + between), Log(events + between))
    ensures Grown(After(events), Log(events), After(events + between + after), Log(events + between + after))
    ensures OneMessagePerId(Log(events + between + after))
  {
    hide After;
    hide Log;
    hide Legal;
    hide NoReuse;
    hide Inv;
    HistoryGrows(events + between, after);
    HistoryGrows(events, between);
    HistoryInv(events);
    HistoryInv(events + between);
    HistoryInv(events + between + after);
    ReuseShowsInTheLog(events + between + after);
  }

  /** In a history that uses no archived id again, a load shows the newest fifty messages of the log of its
      first read, each with its parts, exactly if two things hold: that read already found fifty or no row of the
      conversation was archived before the second, and every row it found is still live at the last or has no
      parts. */
  lemma LoadedWellExactly(events: seq<Event>, between: seq<Event>, after: seq<Event>, c: nat,
                          fetched: map<Key, seq<Message>>, records: seq<Message>)
    requires Legal(events + between + after) && NoReuse(events + between + after)
    requires var taken := TakenBy(After(events), After(events + between), fetched, c);
             taken.Some? && Fetched(records, Log(events + between + after), taken.value, c)
    ensures LoadReads(After(events).live, After(events + between).manifests, fetched, c).Some?
    ensures LoadedWell(events, between, after, c, fetched, records) <==>
      && (Filled(After(events), c) || NoneMoved(After(events), After(events + between), c))
      && StillLive(After(events), After(events + between + after), c)
  {
    hide After;
    hide Log;
    hide Legal;
    hide NoReuse;
    hide Inv;
    var first, second, third := After(events), After(events + between), After(events + between + after);
    var log, longer, longest := Log(events), Log(events + between), Log(events + between + after);
    ThreeMoments(events, between, after);
    ReadsOf(first, log, second.manifests, fetched, c);
    hide OneMessagePerId;
    hide Where;
    hide Share;
    hide NewestLive;
    hide Collect;
    hide OrderBy;
    hide Fetched;
    hide StillLive;
    hide Filled;
    hide NoneMoved;
    LoadShowsExactly(events, between, c, fetched);
    if Filled(first, c) || NoneMoved(first, second, c) {
      PartsExactly(first, log, second, longer, third, longest, c, fetched, records);
    }
  }

  // ----- a load does not fail -----

  /** The object store answered with what it held at some moment after the manifests were read. */
  ghost predicate Answered(before: seq<Event>, after: seq<Event>, k: nat, key: Key, fetched: map<Key, seq<Message>>) {
    k <= |after| &&
    var objects := After(before + after[..k]).objects;
    (key in fetched <==> key in objects) && (key in fetched ==> fetched[key] == objects[key])
  }

  ghost predicate AllAnswered(before: seq<Event>, after: seq<Event>, fetched: map<Key, seq<Message>>) {
    forall m | m in After(before).manifests :: exists k: nat :: Answered(before, after, k, m.key, fetched)
  }

  lemma {:induction false} EarlierWithoutReuse(events: seq<Event>, more: seq<Event>)
    requires NoReuse(events + more)
    ensures NoReuse(events)
    decreases |more|
  {
    if more == [] {
      assert events + more == events;
    } else {
      ReusedLast(events + more);
      assert (events + more)[..|events + more| - 1] == events + more[..|more| - 1];
      EarlierWithoutReuse(events, more[..|more| - 1]);
    }
  }

  lemma StillReadable(before: seq<Event>, after: seq<Event>, k: nat, m: Manifest, fetched: map<Key, seq<Message>>)
    requires Legal(before + after) && NoReuse(before + after) && m in After(before).manifests
    requires Answered(before, after, k, m.key, fetched)
    ensures Decode(fetched, m).Some?
  {
    hide After;
    hide Log;
    hide Legal;
    hide NoReuse;
    hide Load;
    assert before + after == (before + after[..k]) + after[k..];
    HistoryGrows(before + after[..k], after[k..]);
    EarlierWithoutReuse(before + after[..k], after[k..]);
    HistoryGrows(before, after[..k]);
    WithoutReuseNothingIsLost(before + after[..k], m.conversation);
    assert m in After(before + after[..k]).manifests;
  }

  lemma ReadableLoads(first: Store, log: seq<Message>, second: Store, longer: seq<Message>, c: nat,
                      fetched: map<Key, seq<Message>>)
    requires Inv(first, log) && Inv(second, longer) && forall m | m in second.manifests :: Decode(fetched, m).Some?
    ensures LoadReads(first.live, second.manifests, fetched, c).Some?
  {
    var limit := MAXIMUM_MESSAGES - |NewestLive(first.live, c, MAXIMUM_MESSAGES)|;
    ReadsOf(first, log, second.manifests, fetched, c);
    ArchivedNewest(second, longer, c, fetched, limit);
    WhereMembers(second.manifests, ManifestOf(c));
  }

  /** Without reuse a load that the object store answers does not fail, whenever its objects are fetched. */
  lemma AnsweredLoadSucceeds(events: seq<Event>, between: seq<Event>, after: seq<Event>, c: nat,
                             fetched: map<Key, seq<Message>>)
    requires Legal(events + between + after) && NoReuse(events + between + after)
    requires AllAnswered(events + between, after, fetched)
    ensures LoadReads(After(events).live, After(events + between).manifests, fetched, c).Some?
  {
    var first, second := After(events), After(events + between);
    HistoryGrows(events + between, after);
    HistoryGrows(events, between);
    HistoryInv(events);
    HistoryInv(events + between);
    hide Inv;
    hide LoadReads;
    hide Decode;
    hide After;
    hide Legal;
    hide NoReuse;
    forall m | m in second.manifests ensures Decode(fetched, m).Some? {
      var k: nat :| Answered(events + between, after, k, m.key, fetched);
      StillReadable(events + between, after, k, m, fetched);
    }
    ReadableLoads(first, Log(events), second, Log(events + between), c, fetched);
  }

}
