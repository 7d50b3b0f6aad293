/** Histories in which the message store does not keep its promise: a pass between two reads of a load,
    and an archived id that is used again. */
module MessageFailures {
  import opened Queries
  import opened MessageStore
  import opened MessageArchive
  import opened MessageReads

  function Appends(rows: seq<Message>): seq<Event> {
    if rows == [] then [] else Appends(rows[..|rows| - 1]) + [Append(rows[|rows| - 1])]
  }

  /** The rows of one conversation, in order, all of them old enough to be archived in one pass. */
  ghost predicate Aged(rows: seq<Message>, now: int) {
    && 0 < |rows| <= ARCHIVE_BATCH && Ascending(rows, ByTime) && DistinctIds(rows)
    && (forall m | m in rows :: m.conversation == rows[0].conversation && m.createdAt < now - ARCHIVE_AGE)
  }

  lemma {:induction false} AppendsAre(rows: seq<Message>)
    requires Ascending(rows, ByTime) && DistinctIds(rows)
    ensures Legal(Appends(rows)) && After(Appends(rows)) == Store(rows, [], map[]) && Log(Appends(rows)) == rows
  {
    if rows != [] {
      hide Ascending;
      hide DistinctIds;
      hide Legal;
      hide After;
      hide Log;
      var init, last := rows[..|rows| - 1], rows[|rows| - 1];
      LastIsNew(rows);
      AppendsAre(init);
      assert rows == init + [last];
      LegalSnoc(Appends(init), Append(last));
    }
  }

  lemma LastIsNew(rows: seq<Message>)
    requires rows != [] && Ascending(rows, ByTime) && DistinctIds(rows)
    ensures Ascending(rows[..|rows| - 1], ByTime) && DistinctIds(rows[..|rows| - 1])
    ensures Sendable(Store(rows[..|rows| - 1], [], map[]), rows[..|rows| - 1], rows[|rows| - 1])
  {
    var init, last := rows[..|rows| - 1], rows[|rows| - 1];
    forall m | m in init ensures m.id != last.id && m.createdAt < last.createdAt {
      var i :| 0 <= i < |init| && init[i] == m;
      assert rows[i] == m && !ByTime(rows[|rows| - 1], rows[i]);
    }
  }

  lemma LegalSnoc(events: seq<Event>, event: Event)
    requires Legal(events) && Fits(After(events), Log(events), event)
    ensures Legal(events + [event]) && After(events + [event]) == Apply(After(events), event)
    ensures Log(events + [event]) == Log(events) + if event.Append? then [event.message] else []
  {
    hide Fits;
    var all := events + [event];
    assert all[..|all| - 1] == events;
    forall i | 0 <= i < |all| ensures Fits(After(all[..i]), Log(all[..i]), all[i]) {
      assert all[..i] == events[..i];
      assert i == |events| ==> events[..i] == events;
    }
  }

  lemma {:induction false} OneConversation(rows: seq<Message>, c: nat)
    requires rows != [] && forall m | m in rows :: m.conversation == c
    ensures FirstSeen(rows) == [c]
  {
    var init := rows[..|rows| - 1];
    assert rows[|rows| - 1] in rows;
    if init != [] {
      OneConversation(init, c);
    }
  }

  /** A pass that selects nothing but such rows takes them all, or founders on a key that is taken. */
  lemma PassTakesAll(s: Store, now: int, skipped: set<nat>, rows: seq<Message>)
    requires Aged(rows, now) && Where(s.live, Outside(skipped)) == rows
    ensures Pending(s.live, now - ARCHIVE_AGE, skipped) == rows
    ensures ArchivePass(s, now, skipped) ==
      if KeyTaken(s.manifests, rows) then s.(objects := s.objects[KeyFor(rows) := rows]) else ArchiveGroup(s, rows)
    ensures Clashes(s, Archive(now, skipped)) == KeyTaken(s.manifests, rows)
  {
    var c := rows[0].conversation;
    WhereAll(rows, OlderThan(now - ARCHIVE_AGE));
    assert Ascending(rows, ByTimeAndId);
    OrderByAscending(rows, ByTimeAndId);
    assert Pending(s.live, now - ARCHIVE_AGE, skipped) == rows;
    OneConversation(rows, c);
    assert PassOrder(s, now, skipped, None) == [c];
    WhereAll(rows, In(c));
    assert [c][1..] == [];
    assert ArchiveGroups(s, rows, [c]) ==
      if KeyTaken(s.manifests, rows) then Attempt(s.(objects := s.objects[KeyFor(rows) := rows]), false)
      else ArchiveGroups(ArchiveGroup(s, rows), rows, []);
  }

  lemma WholePass(s: Store, now: int)
    requires Aged(s.live, now)
    ensures Fits(s, s.live, Archive(now, {}))
    ensures ArchivePass(s, now, {}) ==
      if KeyTaken(s.manifests, s.live) then s.(objects := s.objects[KeyFor(s.live) := s.live])
      else Store([], s.manifests + [ManifestFor(s.live)], s.objects[KeyFor(s.live) := s.live])
  {
    WhereAll(s.live, Outside({}));
    PassTakesAll(s, now, {}, s.live);
    WhereNone(s.live, Outside(Ids(s.live)));
  }

  lemma AgedPass(rows: seq<Message>, now: int)
    requires Aged(rows, now)
    ensures Legal(Appends(rows) + [Archive(now, {})]) && NoReuse(Appends(rows) + [Archive(now, {})])
    ensures After(Appends(rows) + [Archive(now, {})]) == Store([], [ManifestFor(rows)], map[KeyFor(rows) := rows])
    ensures Log(Appends(rows) + [Archive(now, {})]) == rows
  {
    AppendsAre(rows);
    WholePass(Store(rows, [], map[]), now);
    LegalSnoc(Appends(rows), Archive(now, {}));
    assert Log(Appends(rows) + [Archive(now, {})]) == rows;
    ReuseShowsInTheLog(Appends(rows) + [Archive(now, {})]);
    forall a, b | a in rows && b in rows && a.id == b.id ensures a == b {
      SameIdSameRow(rows, a, b);
    }
  }

  /** Up to forty-nine old rows, thirty for one, that a pass archives between the first and the second read
      of a load: the load does not fail and shows some of them twice. */
  lemma PassBetweenReadsShowsTwice(rows: seq<Message>, now: int)
    requires Aged(rows, now) && |rows| < MAXIMUM_MESSAGES
    ensures var c := rows[0].conversation;
      var events := Appends(rows);
      var second := After(events + [Archive(now, {})]);
      var loaded := LoadReads(After(events).live, second.manifests, second.objects, c);
      && Legal(events + [Archive(now, {})])
      && loaded.Some? && loaded != Some(LastN(Share(Log(events), c), MAXIMUM_MESSAGES))
      && ShowsTwice(loaded.value)
  {
    hide After;
    hide Log;
    hide Legal;
    hide NoReuse;
    hide AllAnswered;
    hide LoadReads;
    hide Appends;
    var c, events := rows[0].conversation, Appends(rows);
    var all := events + [Archive(now, {})];
    var first, second := After(events), After(all);
    AppendsAre(rows);
    AgedPass(rows, now);
    AnsweredAtOnce(all);
    assert all + [] == all;
    OneBatch(rows, c);
    AnsweredLoadSucceeds(events, [Archive(now, {})], [], c, second.objects);
    ArchivedBetweenIsShownTwice(events, [Archive(now, {})], c, second.objects);
    LoadShowsExactly(events, [Archive(now, {})], c, second.objects);
  }

  lemma OneBatch(rows: seq<Message>, c: nat)
    requires rows != [] && Ascending(rows, ByTime) && forall m | m in rows :: m.conversation == c
    ensures Share(rows, c) == rows && Where([ManifestFor(rows)], ManifestOf(c)) == [ManifestFor(rows)]
    ensures Contents([ManifestFor(rows)]) == rows
  {
    WhereAll(rows, In(c));
    assert Ascending(rows, ByTimeAndId);
    OrderByAscending(rows, ByTimeAndId);
    assert rows[0] in rows;
    WhereAll([ManifestFor(rows)], ManifestOf(c));
    assert Contents([ManifestFor(rows)][1..]) == [];
  }

  lemma AnsweredAtOnce(events: seq<Event>)
    ensures AllAnswered(events, [], After(events).objects)
  {
    assert events + [][..0] == events;
    forall m | m in After(events).manifests
      ensures exists k: nat :: Answered(events, [], k, m.key, After(events).objects)
    {
      assert Answered(events, [], 0, m.key, After(events).objects);
    }
  }

  /** Up to forty-nine old rows that a pass archives before the last read: all are shown, none with its parts. */
  lemma PassBeforePartsHidesThem(rows: seq<Message>, now: int)
    requires Aged(rows, now) && |rows| < MAXIMUM_MESSAGES
    ensures var c := rows[0].conversation;
      var events := Appends(rows);
      && Legal(events + [Archive(now, {})])
      && LoadReads(After(events).live, After(events).manifests, map[], c) == Some(rows)
      && TakenBy(After(events), After(events), map[], c) == Some([])
      && forall m | m in rows :: PartsShown(After(events + [Archive(now, {})]).live, [], m.id) == []
  {
    hide Legal;
    hide After;
    hide Log;
    hide NoReuse;
    hide Inv;
    hide LoadReads;
    hide PartsShown;
    hide Ascending;
    var c, events := rows[0].conversation, Appends(rows);
    AppendsAre(rows);
    AgedPass(rows, now);
    HistoryInv(events);
    OneBatch(rows, c);
    NothingArchived(rows, c);
    LoadIsRightOrFails(After(events), rows, c, map[]);
    ReadsOf(After(events), rows, [], map[], c);
    forall m | m in rows ensures PartsShown([], [], m.id) == [] {
      NoParts(m.id);
    }
  }

  lemma NothingArchived(rows: seq<Message>, c: nat)
    ensures !MissingIn(Store(rows, [], map[]), c, map[], rows)
    ensures OrderBy(Where<Manifest>([], ManifestOf(c)), NewestFirst) == []
    ensures forall limit: nat :: Collect([], map[], limit) == Some([])
  {
  }

  lemma NoParts(id: nat)
    ensures PartsShown([], [], id) == []
  {
    assert LiveParts([], id) == [] && BundleParts([], id) == [];
  }

  /** A message archived on its own, sent again under its id and due for the archive on its own again: the
      second pass destroys the first batch, and from then on the conversation cannot be loaded. */
  lemma ReusedIdLosesTheArchive(x: Message, y: Message, once: int, again: int)
    requires x.id == y.id && x.conversation == y.conversation && x.createdAt < y.createdAt
    requires x.createdAt < once - ARCHIVE_AGE && y.createdAt < again - ARCHIVE_AGE
    ensures var events := [Append(x), Archive(once, {}), Append(y), Archive(again, {})];
      Legal(events) && !NoReuse(events) && Load(After(events), x.conversation) == None
  {
    hide Legal;
    hide After;
    hide Log;
    hide NoReuse;
    hide ArchivePass;
    hide Aged;
    var sent, archived := [Append(x)], [Append(x), Archive(once, {})];
    var resent, events := archived + [Append(y)], [Append(x), Archive(once, {}), Append(y), Archive(again, {})];
    Alone(x, once);
    AgedPass([x], once);
    assert sent + [Archive(once, {})] == archived;
    var f := ManifestFor([x]);
    LegalSnoc(archived, Append(y));
    assert After(resent) == Store([y], [f], map[f.key := [x]]);
    SecondPassDestroys(x, y, again);
    LegalSnoc(resent, Archive(again, {}));
    assert events == resent + [Archive(again, {})];
    assert Log(events) == [x] + [y] + [] == [x, y];
    LostMessage(events, x, y);
  }

  lemma Alone(x: Message, now: int)
    requires x.createdAt < now - ARCHIVE_AGE
    ensures Aged([x], now) && Appends([x]) == [Append(x)]
  {
    assert [x][..0] == [];
  }

  lemma SecondPassDestroys(x: Message, y: Message, again: int)
    requires x.id == y.id && x.conversation == y.conversation && y.createdAt < again - ARCHIVE_AGE
    ensures var f := ManifestFor([x]);
      ArchivePass(Store([y], [f], map[f.key := [x]]), again, {}) == Store([y], [f], map[f.key := [y]])
  {
    var f := ManifestFor([x]);
    var t := Store([y], [f], map[f.key := [x]]);
    assert f.key == KeyFor([y]) && KeyTaken(t.manifests, [y]);
    WholePass(t, again);
  }

  lemma LostMessage(events: seq<Event>, x: Message, y: Message)
    requires Legal(events) && Log(events) == [x, y]
    requires x.id == y.id && x.conversation == y.conversation && x.createdAt < y.createdAt
    requires var f := ManifestFor([x]); After(events) == Store([y], [f], map[f.key := [y]])
    ensures !NoReuse(events) && Load(After(events), x.conversation) == None
  {
    hide Legal;
    hide After;
    hide Log;
    hide NoReuse;
    hide Load;
    hide Share;
    var s := After(events);
    LoaderShowsLog(events, x.conversation);
    OneBatch([x, y], x.conversation);
    assert Missing(ManifestFor([x]), s.objects, [x, y]) by {
      assert x in ManifestFor([x]).checksum && x in [x, y];
    }
    assert MissingIn(s, x.conversation, s.objects, [x, y]);
    ReuseShowsInTheLog(events);
    assert x in Log(events) && y in Log(events);
  }

  // ----- an older row that stays live -----

  ghost predicate OlderThanAll(late: Message, rows: seq<Message>) {
    forall m | m in rows :: late.conversation == m.conversation && late.createdAt < m.createdAt && late.id != m.id
  }

  lemma OldestAscends(late: Message, rows: seq<Message>)
    requires Ascending(rows, ByTime) && DistinctIds(rows) && OlderThanAll(late, rows)
    ensures Ascending([late] + rows, ByTime) && DistinctIds([late] + rows)
  {
    AscendingCons(late, rows, ByTime);
    forall i, j | 0 <= i < j < |[late] + rows| ensures ([late] + rows)[i].id != ([late] + rows)[j].id {
      assert rows[j - 1] in rows;
    }
  }

  /** An old row is live while newer ones of its conversation are archived, as another transaction held it when
      they were, or as it became visible after they were. */
  lemma LeftBehind(late: Message, rows: seq<Message>, now: int)
    requires Aged(rows, now) && OlderThanAll(late, rows)
    ensures var s := Store([late], [ManifestFor(rows)], map[KeyFor(rows) := rows]);
      && After(Appends([late] + rows) + [Archive(now, {late.id})]) == s
      && After(Appends(rows) + [Archive(now, {})] + [Append(late)]) == s
  {
    hide Legal;
    hide After;
    hide Log;
    hide NoReuse;
    hide Appends;
    hide ArchivePass;
    hide Ascending;
    var archived := Appends(rows) + [Archive(now, {})];
    OldestAscends(late, rows);
    AppendsAre([late] + rows);
    NextState(Appends([late] + rows), Archive(now, {late.id}));
    OnlyOthers(late, rows);
    PassTakesAll(Store([late] + rows, [], map[]), now, {late.id}, rows);
    AgedPass(rows, now);
    NextState(archived, Append(late));
    assert [] + [late] == [late] && [] + [ManifestFor(rows)] == [ManifestFor(rows)];
  }

  lemma NextState(events: seq<Event>, event: Event)
    ensures After(events + [event]) == Apply(After(events), event)
  {
    assert (events + [event])[..|events|] == events;
  }

  lemma OnlyOthers(late: Message, rows: seq<Message>)
    requires OlderThanAll(late, rows)
    ensures Where([late] + rows, Outside({late.id})) == rows && Where([late] + rows, Outside(Ids(rows))) == [late]
  {
    WhereCons(late, rows, Outside({late.id}));
    WhereAll(rows, Outside({late.id}));
    WhereCons(late, rows, Outside(Ids(rows)));
    WhereNone(rows, Outside(Ids(rows)));
    assert [] + rows == rows && [late] + [] == [late];
  }

  lemma MergedInOrder(current: seq<Message>, taken: seq<Message>)
    requires Ascending(current + taken, ByTime) && |current| + |taken| <= MAXIMUM_MESSAGES
    ensures Merge(current, taken) == current + taken
  {
    OrderByAscending(current + taken, ByTime);
  }

  lemma OldestIsNotWanted(late: Message, rows: seq<Message>)
    requires late !in rows && |rows| >= MAXIMUM_MESSAGES
    ensures LastN([late] + rows, MAXIMUM_MESSAGES)[0] != late
  {
    assert ([late] + rows)[|rows| + 1 - MAXIMUM_MESSAGES] == rows[|rows| - MAXIMUM_MESSAGES];
  }

  lemma MergedWithOldest(late: Message, rows: seq<Message>)
    requires Ascending(rows, ByTime) && OlderThanAll(late, rows) && |rows| >= MAXIMUM_MESSAGES
    ensures var newest := LastN(rows, MAXIMUM_MESSAGES - 1);
      && Merge([late], newest) == [late] + newest
      && [late] + newest != LastN([late] + rows, MAXIMUM_MESSAGES)
  {
    hide Merge;
    var newest := LastN(rows, MAXIMUM_MESSAGES - 1);
    var older := rows[..|rows| - |newest|];
    assert rows == older + newest;
    hide LastN;
    AscendingParts(older, newest, ByTime);
    assert forall m | m in newest :: m in rows;
    AscendingCons(late, newest, ByTime);
    hide Ascending;
    MergedInOrder([late], newest);
    OldestIsNotWanted(late, rows);
    assert ([late] + newest)[0] == late;
  }

  lemma LastNOfOne(late: Message)
    ensures LastN([late], MAXIMUM_MESSAGES) == [late]
  {
  }

  lemma OnlyBatch(rows: seq<Message>, objects: map<Key, seq<Message>>, n: nat)
    requires rows != [] && Decode(objects, ManifestFor(rows)) == Some(rows) && n > 0
    ensures Collect(OrderBy([ManifestFor(rows)], NewestFirst), objects, n) == Some(LastN(rows, n))
  {
    var manifests := [ManifestFor(rows)];
    assert manifests[1..] == [] && LastN(rows, n) + [] == LastN(rows, n);
    assert OrderBy(manifests, NewestFirst) == manifests;
    assert Collect(manifests[1..], objects, n - |LastN(rows, n)|) == Some([]);
  }

  /** With fifty archived rows or more a load then shows the old row in the place of a newer one. */
  lemma OldRowHidesANewer(late: Message, rows: seq<Message>)
    requires Ascending(rows, ByTime) && DistinctIds(rows) && OlderThanAll(late, rows)
    requires |rows| >= MAXIMUM_MESSAGES
    ensures var s := Store([late], [ManifestFor(rows)], map[KeyFor(rows) := rows]);
      && Load(s, late.conversation) == Some([late] + LastN(rows, MAXIMUM_MESSAGES - 1))
      && Load(s, late.conversation) != Some(LastN(Share([late] + rows, late.conversation), MAXIMUM_MESSAGES))
  {
    hide Ascending;
    hide Share;
    hide LastN;
    hide Collect;
    hide OrderBy;
    hide Merge;
    hide Where;
    hide Contents;
    var c, n := late.conversation, MAXIMUM_MESSAGES - 1;
    var s := Store([late], [ManifestFor(rows)], map[KeyFor(rows) := rows]);
    assert rows[0] in rows;
    OldestAscends(late, rows);
    OneBatch([late] + rows, c);
    OneBatch(rows, c);
    AscendingParts([late], rows, ByTime);
    OneBatch([late], c);
    LastNOfOne(late);
    OnlyBatch(rows, s.objects, n);
    MergedWithOldest(late, rows);
  }
}
