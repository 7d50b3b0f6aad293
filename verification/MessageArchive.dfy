/** Archiving keeps the two tiers a split of the log, and what any history of appends and passes
    leaves a reader to see. */
module MessageArchive {
  import opened Queries
  import opened MessageStore

  // ----- archiving keeps the split -----

  /** Deleting the first `k` of an ascending conversation's rows by id leaves the others. */
  lemma RemoveHead(rows: seq<Message>, k: nat)
    requires Ascending(rows, ByTime) && k <= |rows|
    requires forall a, b | a in rows && b in rows && a.id == b.id :: a == b
    ensures Where(rows, Outside(Ids(rows[..k]))) == rows[k..]
  {
    var group, rest := rows[..k], rows[k..];
    assert rows == group + rest;
    AscendingParts(group, rest, ByTime);
    forall m, g | m in rest && g in group ensures m.id != g.id {
      assert m in rows && g in rows;
    }
    WhereConcat(group, rest, Outside(Ids(group)));
    WhereNone(group, Outside(Ids(group)));
    WhereAll(rest, Outside(Ids(group)));
  }

  lemma SameIdSameRow(live: seq<Message>, a: Message, b: Message)
    requires DistinctIds(live) && a in live && b in live && a.id == b.id
    ensures a == b
  {
    var i :| 0 <= i < |live| && live[i] == a;
    var j :| 0 <= j < |live| && live[j] == b;
    assert i == j;
  }

  lemma RemovedRows(s: Store, log: seq<Message>, c: nat, k: nat, d: nat)
    requires Inv(s, log) && 0 < k <= |Share(s.live, c)|
    ensures Share(ArchiveGroup(s, Share(s.live, c)[..k]).live, d) ==
            if d == c then Share(s.live, c)[k..] else Share(s.live, d)
  {
    var rows, others := Share(s.live, c), Share(s.live, d);
    var ids := Ids(rows[..k]);
    ShareMembers(s.live, c);
    ShareMembers(s.live, d);
    ShareWhere(s.live, Outside(ids), d);
    forall a, b | a in rows && b in s.live && a.id == b.id ensures a == b {
      SameIdSameRow(s.live, a, b);
    }
    if d == c {
      assert Split(s, log, c);
      LiveRowsAscend(s, log, c);
      assert forall m | m in rows :: m in s.live;
      RemoveHead(rows, k);
    } else {
      WhereAll(others, Outside(ids));
    }
  }

  ghost predicate OneMessagePerId(log: seq<Message>) {
    forall a, b | a in log && b in log && a.id == b.id :: a == b
  }

  /** As long as no archived id is used again, a new batch never meets the key of another. */
  lemma FreshKey(s: Store, log: seq<Message>, c: nat, k: nat)
    requires Inv(s, log) && OneMessagePerId(log) && 0 < k <= |Share(s.live, c)|
    ensures !KeyTaken(s.manifests, Share(s.live, c)[..k])
  {
    var rows := Share(s.live, c);
    ShareMembers(s.live, c);
    assert rows[0] in rows;
    if m :| m in s.manifests && m.key == KeyFor(rows[..k]) {
      assert m.checksum[0] in m.checksum;
      ArchivedInLog(s, log, m, m.checksum[0]);
      LiveInLog(s, log, rows[0]);
      LiveIsNotArchived(s, log, m, m.checksum[0]);
    }
  }

  lemma AddedManifest(manifests: seq<Manifest>, manifest: Manifest, d: nat)
    ensures Contents(Where(manifests + [manifest], ManifestOf(d))) ==
            Contents(Where(manifests, ManifestOf(d))) + if manifest.conversation == d then manifest.checksum else []
  {
    WhereConcat(manifests, [manifest], ManifestOf(d));
    WhereCons(manifest, [], ManifestOf(d));
    assert [manifest] + [] == [manifest];
    if manifest.conversation == d {
      assert Where(manifests + [manifest], ManifestOf(d)) == Where(manifests, ManifestOf(d)) + [manifest];
      ContentsSnoc(Where(manifests, ManifestOf(d)), manifest);
    } else {
      assert Where(manifests + [manifest], ManifestOf(d)) == Where(manifests, ManifestOf(d));
    }
  }

  lemma Regroup<T>(archived: seq<T>, rows: seq<T>, k: nat)
    requires k <= |rows|
    ensures archived + rows == (archived + rows[..k]) + rows[k..]
    ensures archived + [] == archived
  {
  }

  lemma ArchiveGroupSplits(s: Store, log: seq<Message>, c: nat, k: nat, d: nat)
    requires Inv(s, log) && 0 < k <= |Share(s.live, c)|
    ensures Split(ArchiveGroup(s, Share(s.live, c)[..k]), log, d)
  {
    var rows, group := Share(s.live, c), Share(s.live, c)[..k];
    var archived, live := Contents(Where(s.manifests, ManifestOf(d))), Share(s.live, d);
    var next := ArchiveGroup(s, group);
    assert group[0].conversation == c by {
      ShareMembers(s.live, c);
      assert group[0] in rows;
    }
    assert Share(log, d) == archived + live && Ascending(Share(log, d), ByTime) by {
      assert Split(s, log, d);
    }
    assert Contents(Where(next.manifests, ManifestOf(d))) == archived + if d == c then group else [] by {
      AddedManifest(s.manifests, ManifestFor(group), d);
    }
    assert Share(next.live, d) == if d == c then rows[k..] else live by {
      RemovedRows(s, log, c, k, d);
    }
    Regroup(archived, rows, k);
  }

  lemma DistinctAfterDelete(live: seq<Message>, keep: Message -> bool)
    requires DistinctIds(live)
    ensures DistinctIds(Where(live, keep))
  {
    if live != [] {
      DistinctAfterDelete(live[1..], keep);
      WhereMembers(live[1..], keep);
      var rest := Where(live[1..], keep);
      forall m | m in rest ensures m.id != live[0].id {
        var k :| 0 <= k < |live[1..]| && live[1..][k] == m;
        assert live[k + 1] == m;
      }
      assert forall i | 0 <= i < |rest| :: rest[i] in rest;
    }
  }

  lemma ArchiveGroupKeeps(s: Store, log: seq<Message>, c: nat, k: nat)
    requires Inv(s, log) && 0 < k <= |Share(s.live, c)|
    requires !KeyTaken(s.manifests, Share(s.live, c)[..k])
    ensures Inv(ArchiveGroup(s, Share(s.live, c)[..k]), log)
  {
    var group := Share(s.live, c)[..k];
    var next := ArchiveGroup(s, group);
    forall d: nat ensures Split(next, log, d) {
      ArchiveGroupSplits(s, log, c, k, d);
    }
    DistinctAfterDelete(s.live, Outside(Ids(group)));
    assert forall i | 0 <= i < |s.manifests| :: s.manifests[i] in s.manifests;
  }

  // ----- a pass over several groups -----

  ghost predicate Groups(live: seq<Message>, pending: seq<Message>, conversations: seq<nat>) {
    && (forall i, j | 0 <= i < j < |conversations| :: conversations[i] != conversations[j])
    && (forall c | c in conversations :: [] < Where(pending, In(c)) <= Share(live, c))
  }

  /** The first group is a head of its conversation's rows, and the others stay so without it. */
  lemma FirstGroup(s: Store, log: seq<Message>, pending: seq<Message>, conversations: seq<nat>)
    requires Inv(s, log) && conversations != [] && Groups(s.live, pending, conversations)
    ensures var group := Where(pending, In(conversations[0]));
      var rows := Share(s.live, conversations[0]);
      && 0 < |group| <= |rows| && group == rows[..|group|] && group[0] in s.live
      && group[0].conversation == conversations[0]
      && Groups(ArchiveGroup(s, group).live, pending, conversations[1..])
  {
    var c := conversations[0];
    var group := Where(pending, In(c));
    assert c in conversations;
    ShareMembers(s.live, c);
    assert Share(s.live, c)[0] in Share(s.live, c);
    assert group == Share(s.live, c)[..|group|];
    var next := ArchiveGroup(s, group);
    forall d | d in conversations[1..] ensures [] < Where(pending, In(d)) <= Share(next.live, d) {
      assert d in conversations && d != c;
      RemovedRows(s, log, c, |group|, d);
    }
  }

  lemma {:induction false} ArchiveGroupsKeep(s: Store, log: seq<Message>, pending: seq<Message>,
                                             conversations: seq<nat>)
    requires Inv(s, log) && Groups(s.live, pending, conversations)
    ensures var attempt := ArchiveGroups(s, pending, conversations); attempt.complete ==> Inv(attempt.store, log)
    ensures s.manifests <= ArchiveGroups(s, pending, conversations).store.manifests
    decreases |conversations|
  {
    if conversations != [] {
      var group := Where(pending, In(conversations[0]));
      FirstGroup(s, log, pending, conversations);
      if !KeyTaken(s.manifests, group) {
        ArchiveGroupKeeps(s, log, conversations[0], |group|);
        ArchiveGroupsKeep(ArchiveGroup(s, group), log, pending, conversations[1..]);
      }
    }
  }

  /** Between two states of the object store: what a manifest of the first could read and still can. */
  ghost predicate SameObjects(s: Store, objects: map<Key, seq<Message>>) {
    forall m | m in s.manifests :: Decode(objects, m) == Decode(s.objects, m)
  }

  ghost predicate NothingRestored(s: Store, objects: map<Key, seq<Message>>) {
    forall m | m in s.manifests && Decode(objects, m).Some? :: Decode(s.objects, m).Some?
  }

  ghost predicate Overwritten(s: Store, objects: map<Key, seq<Message>>, conversations: seq<nat>) {
    exists m :: m in s.manifests && m.conversation in conversations && Decode(objects, m).None?
  }

  /** Putting a group under a taken key destroys the batch that had it, and only that one. */
  lemma TakenKeyDestroys(s: Store, log: seq<Message>, group: seq<Message>)
    requires Inv(s, log) && KeyTaken(s.manifests, group) && group[0] in s.live
    ensures var objects := s.objects[KeyFor(group) := group];
      NothingRestored(s, objects) && Overwritten(s, objects, [group[0].conversation])
  {
    var objects := s.objects[KeyFor(group) := group];
    forall m | m in s.manifests && m.key == KeyFor(group) ensures Decode(objects, m).None? {
      if m.checksum == group {
        LiveIsNotArchived(s, log, m, group[0]);
      }
    }
    var m :| m in s.manifests && m.key == KeyFor(group);
    assert m.conversation in [group[0].conversation] && Decode(objects, m).None?;
  }

  /** A whole attempt leaves every batch as it was; one that is refused destroys one. */
  ghost predicate Tidy(s: Store, attempt: Attempt, conversations: seq<nat>) {
    && NothingRestored(s, attempt.store.objects)
    && (attempt.complete ==> SameObjects(s, attempt.store.objects))
    && (attempt.complete && Intact(s) ==> Intact(attempt.store))
    && (!attempt.complete ==> Overwritten(s, attempt.store.objects, conversations))
  }

  lemma {:induction false} AttemptOnObjects(s: Store, log: seq<Message>, pending: seq<Message>, conversations: seq<nat>)
    requires Inv(s, log) && Groups(s.live, pending, conversations)
    ensures Tidy(s, ArchiveGroups(s, pending, conversations), conversations)
    decreases |conversations|
  {
    if conversations != [] {
      var c := conversations[0];
      var group := Where(pending, In(c));
      FirstGroup(s, log, pending, conversations);
      hide Where;
      hide Inv;
      hide Groups;
      if KeyTaken(s.manifests, group) {
        TakenKeyDestroys(s, log, group);
      } else {
        ArchiveGroupKeeps(s, log, c, |group|);
        hide Share;
        hide Tidy;
        hide KeyTaken;
        AttemptOnObjects(ArchiveGroup(s, group), log, pending, conversations[1..]);
        TidyBefore(s, group, ArchiveGroups(ArchiveGroup(s, group), pending, conversations[1..]), conversations);
      }
    }
  }

  lemma TidyBefore(s: Store, group: seq<Message>, attempt: Attempt, conversations: seq<nat>)
    requires conversations != [] && group != [] && group[0].conversation == conversations[0]
    requires !KeyTaken(s.manifests, group) && conversations[0] !in conversations[1..]
    requires Tidy(ArchiveGroup(s, group), attempt, conversations[1..])
    ensures Tidy(s, attempt, conversations)
  {
    var next := ArchiveGroup(s, group);
    AddedGroupObjects(s, group);
    assert forall m | m in s.manifests :: m in next.manifests;
    if !attempt.complete {
      var m :| m in next.manifests && m.conversation in conversations[1..] && Decode(attempt.store.objects, m).None?;
      assert m in s.manifests && m.conversation in conversations;
    }
  }

  lemma AddedGroupObjects(s: Store, group: seq<Message>)
    requires group != [] && !KeyTaken(s.manifests, group)
    ensures var next := ArchiveGroup(s, group);
      && SameObjects(s, next.objects) && (Intact(s) ==> Intact(next))
      && next.manifests == s.manifests + [ManifestFor(group)]
  {
  }

  lemma {:induction false} FirstSeenProperties(messages: seq<Message>)
    ensures forall i, j | 0 <= i < j < |FirstSeen(messages)| :: FirstSeen(messages)[i] != FirstSeen(messages)[j]
    ensures forall c :: c in FirstSeen(messages) <==> exists m :: m in messages && m.conversation == c
  {
    if messages != [] {
      var init, last := messages[..|messages| - 1], messages[|messages| - 1];
      assert messages == init + [last];
      FirstSeenProperties(init);
    }
  }

  lemma OldestFirst(rows: seq<Message>, x: Message)
    requires Ascending(rows, ByTime) && x in rows
    ensures x == rows[0] || !ByTime(x, rows[0])
  {
  }

  /** Selected rows of an ascending conversation are its first ones if none before them is left out. */
  lemma {:induction false} SelectedFirst(rows: seq<Message>, eligible: Message -> bool, selected: seq<Message>)
    requires Ascending(rows, ByTime) && selected <= Where(rows, eligible)
    requires forall m, x | m in selected && x in rows && !ByTime(m, x) :: eligible(x)
    ensures selected <= rows
  {
    if rows != [] && selected != [] {
      WhereMembers(rows, eligible);
      assert selected[0] in Where(rows, eligible);
      OldestFirst(rows, selected[0]);
      assert eligible(rows[0]);
      assert Where(rows, eligible)[1..] == Where(rows[1..], eligible);
      SelectedFirst(rows[1..], eligible, selected[1..]);
    }
  }

  function Eligible(cutoff: int, skipped: set<nat>): Message -> bool {
    (m: Message) => OlderThan(cutoff)(m) && Outside(skipped)(m)
  }

  lemma {:induction false} WhereBoth(rows: seq<Message>, cutoff: int, skipped: set<nat>)
    ensures Where(Where(rows, Outside(skipped)), OlderThan(cutoff)) == Where(rows, Eligible(cutoff, skipped))
  {
    if rows != [] {
      WhereBoth(rows[1..], cutoff, skipped);
      var first := if Outside(skipped)(rows[0]) then [rows[0]] else [];
      WhereConcat(first, Where(rows[1..], Outside(skipped)), OlderThan(cutoff));
    }
  }

  /** A conversation's part of a batch heads those of its rows that could be selected. */
  lemma PendingShare(live: seq<Message>, cutoff: int, skipped: set<nat>, c: nat)
    ensures Where(Pending(live, cutoff, skipped), In(c)) <= Where(Share(live, c), Eligible(cutoff, skipped))
    ensures forall m | m in Pending(live, cutoff, skipped) :: m in live && Eligible(cutoff, skipped)(m)
  {
    var eligible := Where(live, Eligible(cutoff, skipped));
    WhereBoth(live, cutoff, skipped);
    var ordered := OrderBy(eligible, ByTimeAndId);
    Orders();
    OrderByWhere(eligible, ByTimeAndId, In(c));
    ShareWhere(live, Eligible(cutoff, skipped), c);
    assert Where(ordered, In(c)) == Where(Share(live, c), Eligible(cutoff, skipped));
    OrderByMembers(eligible, ByTimeAndId);
    WhereMembers(live, Eligible(cutoff, skipped));
    if |ordered| > ARCHIVE_BATCH {
      WhereTake(ordered, ARCHIVE_BATCH, In(c));
    }
  }

  /** A conversation's part of a batch is the head of its live rows if no row is archived before an older one
      that is skipped. */
  lemma PendingIsPrefix(s: Store, log: seq<Message>, cutoff: int, skipped: set<nat>, c: nat)
    requires Inv(s, log) && SkipsNoOlder(s.live, cutoff, skipped)
    ensures Where(Pending(s.live, cutoff, skipped), In(c)) <= Share(s.live, c)
  {
    var rows, pending := Share(s.live, c), Pending(s.live, cutoff, skipped);
    var selected := Where(pending, In(c));
    assert Split(s, log, c);
    LiveRowsAscend(s, log, c);
    ShareMembers(s.live, c);
    WhereMembers(pending, In(c));
    PendingShare(s.live, cutoff, skipped, c);
    hide Pending;
    hide Where;
    hide Share;
    hide Inv;
    hide Ascending;
    SelectedFirst(rows, Eligible(cutoff, skipped), selected);
  }

  lemma PassHasGroups(s: Store, log: seq<Message>, now: int, skipped: set<nat>, groups: Option<nat>)
    requires Inv(s, log) && SkipsNoOlder(s.live, now - ARCHIVE_AGE, skipped)
    ensures Groups(s.live, Pending(s.live, now - ARCHIVE_AGE, skipped), PassOrder(s, now, skipped, groups))
  {
    var pending := Pending(s.live, now - ARCHIVE_AGE, skipped);
    FirstSeenProperties(pending);
    forall c | c in FirstSeen(pending) ensures [] < Where(pending, In(c)) <= Share(s.live, c) {
      PendingIsPrefix(s, log, now - ARCHIVE_AGE, skipped, c);
      WhereMembers(pending, In(c));
      var m :| m in pending && m.conversation == c;
      assert m in Where(pending, In(c));
    }
  }

  lemma SameTables(s: Store, log: seq<Message>, objects: map<Key, seq<Message>>)
    requires Inv(s, log)
    ensures Inv(s.(objects := objects), log)
  {
    forall c: nat ensures Split(s.(objects := objects), log, c) {
      assert Split(s, log, c);
    }
  }

  lemma AppendedRow(rows: seq<Message>, message: Message, c: nat)
    ensures Where(rows + [message], In(c)) == Where(rows, In(c)) + if message.conversation == c then [message] else []
  {
    WhereConcat(rows, [message], In(c));
    WhereCons(message, [], In(c));
    assert [message] + [] == [message];
  }

  lemma AppendedShare(rows: seq<Message>, message: Message, c: nat)
    ensures Sorted(Share(rows + [message], c), ByTime)
    ensures multiset(Share(rows + [message], c)) ==
            multiset(Share(rows, c)) + if message.conversation == c then multiset{message} else multiset{}
    ensures message.conversation != c ==> Share(rows + [message], c) == Share(rows, c)
  {
    AppendedRow(rows, message, c);
    Orders();
    OrderBySorts(Where(rows, In(c)), ByTimeAndId);
    OrderBySorts(Where(rows + [message], In(c)), ByTimeAndId);
    var rest := Where(rows, In(c));
    assert rest + [] == rest;
  }

  lemma TwiceCounts<T>(s: seq<T>, i: nat, j: nat)
    requires i < j < |s| && s[i] == s[j]
    ensures multiset(s)[s[i]] >= 2
  {
    assert s == s[..i] + [s[i]] + s[i + 1..j] + [s[j]] + s[j + 1..];
  }

  /** Sorted rows with one more time that is not among theirs are still ascending. */
  lemma AscendsWith(rows: seq<Message>, message: Message, more: seq<Message>)
    requires Ascending(rows, ByTime) && forall m | m in rows :: m.createdAt != message.createdAt
    requires Sorted(more, ByTime) && multiset(more) == multiset(rows) + multiset{message}
    ensures Ascending(more, ByTime)
  {
    forall i, j | 0 <= i < j < |more| ensures !ByTime(more[j], more[i]) {
      TimesDiffer(rows, message, more, i, j);
    }
  }

  lemma TimesDiffer(rows: seq<Message>, message: Message, more: seq<Message>, i: nat, j: nat)
    requires Ascending(rows, ByTime) && forall m | m in rows :: m.createdAt != message.createdAt
    requires multiset(more) == multiset(rows) + multiset{message} && i < j < |more|
    ensures more[i].createdAt != more[j].createdAt
  {
    AscendingOnce(rows, more[i], ByTime);
    assert multiset(more)[more[i]] <= 1 by {
      assert message !in rows;
    }
    if more[i] == more[j] {
      TwiceCounts(more, i, j);
    }
    assert more[i] in multiset(more) && more[j] in multiset(more);
    assert more[i] in rows || more[i] == message;
    assert more[j] in rows || more[j] == message;
  }

  lemma AppendSplits(s: Store, log: seq<Message>, message: Message, c: nat)
    requires Inv(s, log) && Sendable(s, log, message) && AfterArchive(s, message)
    ensures Split(s.(live := s.live + [message]), log + [message], c)
  {
    assert Split(s, log, c);
    AppendedShare(log, message, c);
    AppendedShare(s.live, message, c);
    if message.conversation == c {
      var archived := Contents(Where(s.manifests, ManifestOf(c)));
      ShareMembers(log, c);
      AscendingParts(archived, Share(s.live, c), ByTime);
      forall m | m in archived ensures m.createdAt < message.createdAt {
        var f := ContentsCome(Where(s.manifests, ManifestOf(c)), m);
        WhereMembers(s.manifests, ManifestOf(c));
        ArchivedInLog(s, log, f, m);
      }
      TiersWith(archived, Share(s.live, c), message, Share(s.live + [message], c), Share(log + [message], c));
    }
  }

  lemma TiersWith(archived: seq<Message>, live: seq<Message>, message: Message, more: seq<Message>, all: seq<Message>)
    requires Ascending(archived + live, ByTime)
    requires forall m | m in archived + live :: m.createdAt != message.createdAt
    requires forall m | m in archived :: m.createdAt < message.createdAt
    requires Sorted(more, ByTime) && multiset(more) == multiset(live) + multiset{message}
    requires Sorted(all, ByTime) && multiset(all) == multiset(archived + live) + multiset{message}
    ensures all == archived + more && Ascending(all, ByTime)
  {
    AscendingParts(archived, live, ByTime);
    AscendsWith(live, message, more);
    forall m, x | m in archived && x in more ensures m.createdAt < x.createdAt {
      assert x in multiset(more) && (x in multiset(live) || x in multiset{message});
      assert x in live || x == message;
      assert m in archived + live;
    }
    forall i, j | 0 <= i < j < |archived + more| ensures !ByTime((archived + more)[j], (archived + more)[i]) {
    }
    assert Ascending(archived + more, ByTime);
    assert multiset(all) == multiset(archived + more);
    Orders();
    SortedIsUnique(all, archived + more, ByTime);
  }

  lemma AppendKeeps(s: Store, log: seq<Message>, message: Message)
    requires Inv(s, log) && Sendable(s, log, message) && AfterArchive(s, message)
    ensures Inv(s.(live := s.live + [message]), log + [message])
  {
    forall c: nat ensures Split(s.(live := s.live + [message]), log + [message], c) {
      AppendSplits(s, log, message, c);
    }
    assert forall i | 0 <= i < |s.live| :: s.live[i] in s.live;
  }

  function GroupsOf(pass: Event): Option<nat>
    requires !pass.Append?
  {
    if pass.Archive? then None else Some(pass.done)
  }

  /** A pass either takes over the tables of its attempt or leaves them; the objects it always takes over. */
  lemma PassResult(s: Store, pass: Event)
    requires !pass.Append?
    ensures var attempt := Attempted(s, pass.now, pass.skipped, GroupsOf(pass));
      && Clashes(s, pass) == !attempt.complete
      && (|| Apply(s, pass) == s.(objects := attempt.store.objects)
          || (attempt.complete && Apply(s, pass) == attempt.store))
      && (!attempt.complete ==> Apply(s, pass) == s.(objects := attempt.store.objects))
  {
    hide Attempted;
  }

  /** What an attempt does to tables and objects. */
  lemma AttemptKeeps(s: Store, log: seq<Message>, now: int, skipped: set<nat>, groups: Option<nat>)
    requires Inv(s, log) && SkipsNoOlder(s.live, now - ARCHIVE_AGE, skipped)
    ensures var attempt := Attempted(s, now, skipped, groups);
      && s.manifests <= attempt.store.manifests
      && (attempt.complete ==> Inv(attempt.store, log))
      && NothingRestored(s, attempt.store.objects)
      && (attempt.complete ==> SameObjects(s, attempt.store.objects))
      && (attempt.complete && Intact(s) ==> Intact(attempt.store))
      && (!attempt.complete ==> Overwritten(s, attempt.store.objects, PassOrder(s, now, skipped, groups)))
  {
    hide Inv;
    hide Pending;
    hide PassOrder;
    hide ArchiveGroups;
    hide Groups;
    hide NothingRestored;
    hide SameObjects;
    hide Overwritten;
    hide Intact;
    PassHasGroups(s, log, now, skipped, groups);
    var pending := Pending(s.live, now - ARCHIVE_AGE, skipped);
    ArchiveGroupsKeep(s, log, pending, PassOrder(s, now, skipped, groups));
    AttemptOnObjects(s, log, pending, PassOrder(s, now, skipped, groups));
  }

  lemma PassKeeps(s: Store, log: seq<Message>, pass: Event)
    requires Inv(s, log) && !pass.Append? && Fits(s, log, pass)
    ensures Inv(Apply(s, pass), log) && s.manifests <= Apply(s, pass).manifests
  {
    hide Inv;
    hide Attempted;
    hide Apply;
    hide Clashes;
    PassResult(s, pass);
    AttemptKeeps(s, log, pass.now, pass.skipped, GroupsOf(pass));
    SameTables(s, log, Attempted(s, pass.now, pass.skipped, GroupsOf(pass)).store.objects);
  }

  /** A pass destroys a batch exactly if it puts an object under a taken key, and none comes back. */
  lemma PassOnObjects(s: Store, log: seq<Message>, pass: Event)
    requires Inv(s, log) && !pass.Append? && Fits(s, log, pass)
    ensures NothingRestored(s, Apply(s, pass).objects)
    ensures !Clashes(s, pass) ==> SameObjects(s, Apply(s, pass).objects)
    ensures Intact(Apply(s, pass)) <==> Intact(s) && !Clashes(s, pass)
  {
    hide Inv;
    hide Attempted;
    hide Apply;
    hide Clashes;
    hide Decode;
    hide PassOrder;
    PassResult(s, pass);
    AttemptKeeps(s, log, pass.now, pass.skipped, GroupsOf(pass));
  }

  // ----- what breaks the split -----

  /** A late message keeps the tiers a split of the log exactly if it is newer than all of its conversation that
      is archived. */
  lemma AppendKeepsExactly(s: Store, log: seq<Message>, message: Message)
    requires Inv(s, log) && Sendable(s, log, message)
    ensures Inv(s.(live := s.live + [message]), log + [message]) <==> AfterArchive(s, message)
  {
    var next, c := s.(live := s.live + [message]), message.conversation;
    if AfterArchive(s, message) {
      AppendKeeps(s, log, message);
    } else if Inv(next, log + [message]) {
      var f, m :| f in s.manifests && m in f.checksum && m.conversation == c && m.createdAt >= message.createdAt;
      ArchivedInLog(next, log + [message], f, m);
      ArchivedBeforeLive(next, log + [message], f, m, message);
    }
  }

  lemma ArchivedBeforeLive(s: Store, log: seq<Message>, f: Manifest, m: Message, x: Message)
    requires Inv(s, log) && f in s.manifests && m in f.checksum && x in s.live && x.conversation == m.conversation
    ensures m.createdAt < x.createdAt
  {
    var c := x.conversation;
    ArchivedInLog(s, log, f, m);
    Tiers(s, log, c);
    ShareMembers(s.live, c);
    AscendingParts(Contents(Where(s.manifests, ManifestOf(c))), Share(s.live, c), ByTime);
  }

  /** A complete attempt archives what it selected and leaves every row that it did not. */
  lemma {:induction false} AttemptTakes(s: Store, pending: seq<Message>, conversations: seq<nat>, m: Message)
    requires ArchiveGroups(s, pending, conversations).complete
    ensures var next := ArchiveGroups(s, pending, conversations).store;
      && s.manifests <= next.manifests
      && (m in pending && m.conversation in conversations ==> exists f :: f in next.manifests && m in f.checksum)
      && (m in s.live && m.id !in Ids(pending) ==> m in next.live)
    decreases |conversations|
  {
    if conversations != [] {
      var group := Where(pending, In(conversations[0]));
      var next := ArchiveGroup(s, group);
      AttemptTakes(next, pending, conversations[1..], m);
      WhereMembers(pending, In(conversations[0]));
      WhereMembers(s.live, Outside(Ids(group)));
      if m in group {
        assert ManifestFor(group) in next.manifests;
      }
    }
  }

  lemma PassTakes(s: Store, now: int, skipped: set<nat>, m: Message, x: Message)
    requires Attempted(s, now, skipped, None).complete && m in Pending(s.live, now - ARCHIVE_AGE, skipped)
    requires x in s.live && x.id in skipped
    ensures var next := ArchivePass(s, now, skipped);
      x in next.live && exists f :: f in next.manifests && m in f.checksum
  {
    var pending := Pending(s.live, now - ARCHIVE_AGE, skipped);
    PendingShare(s.live, now - ARCHIVE_AGE, skipped, m.conversation);
    assert x.id !in Ids(pending);
    FirstSeenProperties(pending);
    hide Pending;
    hide ArchiveGroups;
    hide FirstSeen;
    assert m.conversation in FirstSeen(pending);
    AttemptTakes(s, pending, FirstSeen(pending), m);
    AttemptTakes(s, pending, FirstSeen(pending), x);
  }

  /** A finished pass keeps the tiers a split of the log exactly if it archives no row before an older one of its
      conversation that it skips. */
  lemma PassKeepsExactly(s: Store, log: seq<Message>, now: int, skipped: set<nat>)
    requires Inv(s, log) && Attempted(s, now, skipped, None).complete
    ensures Inv(ArchivePass(s, now, skipped), log) <==> SkipsNoOlder(s.live, now - ARCHIVE_AGE, skipped)
  {
    hide Inv;
    hide Pending;
    hide Attempted;
    hide ArchivePass;
    var next := ArchivePass(s, now, skipped);
    if SkipsNoOlder(s.live, now - ARCHIVE_AGE, skipped) {
      PassKeeps(s, log, Archive(now, skipped));
    } else if Inv(next, log) {
      var m, x :| m in Pending(s.live, now - ARCHIVE_AGE, skipped) && x in s.live && x.conversation == m.conversation
                  && x.id in skipped && m.createdAt >= x.createdAt;
      PassTakes(s, now, skipped, m, x);
      var f :| f in next.manifests && m in f.checksum;
      ArchivedBeforeLive(next, log, f, m, x);
    }
  }

  // ----- every history -----

  lemma {:induction false} LegalPrefix(events: seq<Event>)
    requires Legal(events) && events != []
    ensures Legal(events[..|events| - 1])
    ensures Fits(After(events[..|events| - 1]), Log(events[..|events| - 1]), events[|events| - 1])
  {
    hide Fits;
    var init := events[..|events| - 1];
    forall i | 0 <= i < |init| ensures Fits(After(init[..i]), Log(init[..i]), init[i]) {
      assert init[..i] == events[..i];
    }
  }

  lemma {:induction false} HistoryInv(events: seq<Event>)
    requires Legal(events)
    ensures Inv(After(events), Log(events))
  {
    if events == [] {
      forall c: nat ensures Split(After(events), [], c) {
      }
    } else {
      var init, event := events[..|events| - 1], events[|events| - 1];
      LegalPrefix(events);
      HistoryInv(init);
      if event.Append? {
        AppendKeeps(After(init), Log(init), event.message);
      } else {
        PassKeeps(After(init), Log(init), event);
      }
    }
  }

  /** For every history, the loader shows exactly the newest fifty messages of the full log, exactly if
      none of them lies in a batch whose object was overwritten; otherwise it fails. */
  lemma LoaderShowsLog(events: seq<Event>, c: nat)
    requires Legal(events)
    ensures var s := After(events);
      var wanted := LastN(Share(Log(events), c), 50);
      && (Load(s, c) == Some(wanted) <==> !MissingIn(s, c, s.objects, wanted))
      && (Load(s, c) == Some(wanted) || Load(s, c) == None)
  {
    HistoryInv(events);
    LoadIsRightOrFails(After(events), Log(events), c, After(events).objects);
  }

  /** An archive pass, finished or aborted, leaves what a reader sees between its reads as it was, unless it
      puts an object under a taken key; then a load may fail, but never shows anything else. */
  lemma ArchivingIsInvisible(events: seq<Event>, pass: Event, c: nat)
    requires Legal(events) && !pass.Append? && Fits(After(events), Log(events), pass)
    ensures var s, next := After(events), Apply(After(events), pass);
      && (!Clashes(s, pass) ==> Load(next, c) == Load(s, c))
      && (Load(next, c) == Load(s, c) || Load(next, c) == None)
  {
    var s, log := After(events), Log(events);
    var next := Apply(s, pass);
    HistoryInv(events);
    PassKeeps(s, log, pass);
    PassOnObjects(s, log, pass);
    LoadIsRightOrFails(s, log, c, s.objects);
    LoadIsRightOrFails(next, log, c, next.objects);
    var wanted := LastN(Share(log, c), MAXIMUM_MESSAGES);
    if Load(s, c).None? {
      var m :| m in s.manifests && m.conversation == c && Missing(m, s.objects, wanted);
      assert m in next.manifests && Missing(m, next.objects, wanted);
    }
    if !Clashes(s, pass) && Load(next, c).None? {
      var m :| m in next.manifests && m.conversation == c && Missing(m, next.objects, wanted);
      WrittenStaysReadable(s, log, pass, m);
      assert Missing(m, s.objects, wanted);
    }
  }

  /** What a pass adds it can read. */
  lemma WrittenStaysReadable(s: Store, log: seq<Message>, pass: Event, m: Manifest)
    requires Inv(s, log) && !pass.Append? && Fits(s, log, pass) && !Clashes(s, pass)
    requires m in Apply(s, pass).manifests && Decode(Apply(s, pass).objects, m).None?
    ensures m in s.manifests && Decode(s.objects, m).None?
  {
    hide Inv;
    hide Attempted;
    hide Apply;
    hide Clashes;
    PassResult(s, pass);
    PassOnObjects(s, log, pass);
    hide Decode;
    if m !in s.manifests {
      AttemptIsReadable(s, log, pass.now, pass.skipped, GroupsOf(pass), m);
    }
  }

  lemma AttemptIsReadable(s: Store, log: seq<Message>, now: int, skipped: set<nat>, groups: Option<nat>, m: Manifest)
    requires Inv(s, log) && SkipsNoOlder(s.live, now - ARCHIVE_AGE, skipped)
      && Attempted(s, now, skipped, groups).complete
    requires m in Attempted(s, now, skipped, groups).store.manifests && m !in s.manifests
    ensures Decode(Attempted(s, now, skipped, groups).store.objects, m).Some?
  {
    hide Inv;
    hide Pending;
    hide PassOrder;
    hide ArchiveGroups;
    hide Groups;
    hide Decode;
    PassHasGroups(s, log, now, skipped, groups);
    AddedAreReadable(s, log, Pending(s.live, now - ARCHIVE_AGE, skipped), PassOrder(s, now, skipped, groups), m);
  }

  lemma {:induction false} AddedAreReadable(
      s: Store, log: seq<Message>, pending: seq<Message>, conversations: seq<nat>, m: Manifest)
    requires Inv(s, log) && Groups(s.live, pending, conversations)
    requires ArchiveGroups(s, pending, conversations).complete
    requires m in ArchiveGroups(s, pending, conversations).store.manifests && m !in s.manifests
    ensures Decode(ArchiveGroups(s, pending, conversations).store.objects, m).Some?
    decreases |conversations|
  {
    var group := Where(pending, In(conversations[0]));
    FirstGroup(s, log, pending, conversations);
    ArchiveGroupKeeps(s, log, conversations[0], |group|);
    var next := ArchiveGroup(s, group);
    if m in next.manifests {
      AttemptOnObjects(next, log, pending, conversations[1..]);
    } else {
      AddedAreReadable(next, log, pending, conversations[1..], m);
    }
  }

  ghost predicate NeverClashed(events: seq<Event>) {
    forall i | 0 <= i < |events| :: !Clashes(After(events[..i]), events[i])
  }

  lemma ClashedLast(events: seq<Event>)
    requires events != []
    ensures var init := events[..|events| - 1];
      NeverClashed(events) <==> NeverClashed(init) && !Clashes(After(init), events[|events| - 1])
  {
    hide Clashes;
    hide After;
    var init := events[..|events| - 1];
    forall i | 0 <= i < |init| ensures events[..i] == init[..i] && events[i] == init[i] {
    }
  }

  /** Every batch is as it was written exactly if no pass ever put an object under a taken key. */
  lemma {:induction false} IntactExactly(events: seq<Event>)
    requires Legal(events)
    ensures Intact(After(events)) <==> NeverClashed(events)
  {
    if events != [] {
      var init, event := events[..|events| - 1], events[|events| - 1];
      LegalPrefix(events);
      HistoryInv(init);
      IntactExactly(init);
      ClashedLast(events);
      hide NeverClashed;
      hide Inv;
      if event.Append? {
        assert After(events) == After(init).(live := After(init).live + [event.message]);
        assert !Clashes(After(init), event);
      } else {
        hide Clashes;
        hide Apply;
        PassOnObjects(After(init), Log(init), event);
      }
    }
  }

  // ----- ids -----

  ghost predicate Kept(s: Store, m: Message) {
    m in s.live || exists f :: f in s.manifests && m in f.checksum
  }

  /** The event sends a message with the id of one that is archived. */
  ghost predicate Reuses(s: Store, event: Event) {
    event.Append? && exists f, m :: f in s.manifests && m in f.checksum && m.id == event.message.id
  }

  ghost predicate NoReuse(events: seq<Event>) {
    forall i | 0 <= i < |events| :: !Reuses(After(events[..i]), events[i])
  }

  lemma ReusedLast(events: seq<Event>)
    requires events != []
    ensures var init := events[..|events| - 1];
      NoReuse(events) <==> NoReuse(init) && !Reuses(After(init), events[|events| - 1])
  {
    hide Reuses;
    hide After;
    var init := events[..|events| - 1];
    forall i | 0 <= i < |init| ensures events[..i] == init[..i] && events[i] == init[i] {
    }
  }

  lemma {:induction false} ContentsCome(manifests: seq<Manifest>, m: Message) returns (f: Manifest)
    requires m in Contents(manifests)
    ensures f in manifests && m in f.checksum
  {
    if m in manifests[0].checksum {
      f := manifests[0];
    } else {
      f := ContentsCome(manifests[1..], m);
    }
  }

  lemma KeptIsLogged(s: Store, log: seq<Message>, m: Message)
    requires Inv(s, log)
    ensures Kept(s, m) <==> m in log
  {
    var c := m.conversation;
    assert Split(s, log, c);
    ShareMembers(log, c);
    ShareMembers(s.live, c);
    WhereMembers(s.manifests, ManifestOf(c));
    if m in s.live {
      LiveInLog(s, log, m);
    }
    if f :| f in s.manifests && m in f.checksum {
      ArchivedInLog(s, log, f, m);
    }
    if m in log && m !in s.live {
      assert m in Share(log, c);
      var f := ContentsCome(Where(s.manifests, ManifestOf(c)), m);
      assert Kept(s, m);
    }
  }

  lemma AppendedIds(s: Store, log: seq<Message>, message: Message)
    requires Inv(s, log) && Sendable(s, log, message)
    ensures OneMessagePerId(log + [message]) <==> OneMessagePerId(log) && !Reuses(s, Append(message))
  {
    hide Inv;
    forall m ensures Kept(s, m) <==> m in log {
      KeptIsLogged(s, log, m);
    }
    assert message !in log;
    var longer := log + [message];
    assert forall m :: m in longer <==> m in log || m == message;
    if f, m :| f in s.manifests && m in f.checksum && m.id == message.id {
      assert Kept(s, m);
    }
    if OneMessagePerId(log) && !Reuses(s, Append(message)) {
      forall m | m in log ensures m.id != message.id {
        assert Kept(s, m);
      }
    }
  }

  lemma {:induction false} ReuseShowsInTheLog(events: seq<Event>)
    requires Legal(events)
    ensures OneMessagePerId(Log(events)) <==> NoReuse(events)
  {
    if events == [] {
      assert Log(events) == [];
    } else {
      var init, event := events[..|events| - 1], events[|events| - 1];
      LegalPrefix(events);
      HistoryInv(init);
      ReuseShowsInTheLog(init);
      ReusedLast(events);
      hide NoReuse;
      hide OneMessagePerId;
      hide Inv;
      if event.Append? {
        AppendedIds(After(init), Log(init), event.message);
      } else {
        assert Log(events) == Log(init) && !Reuses(After(init), event);
      }
    }
  }

  /** Every message of the log is in exactly one tier, exactly once. */
  lemma ExactlyOneTier(events: seq<Event>, m: Message)
    requires Legal(events)
    ensures var s := After(events);
      var archived := Contents(Where(s.manifests, ManifestOf(m.conversation)));
      var live := Share(s.live, m.conversation);
      multiset(archived)[m] + multiset(live)[m] == if m in Log(events) then 1 else 0
  {
    HistoryInv(events);
    var s, log := After(events), Log(events);
    assert Split(s, log, m.conversation);
    ShareMembers(log, m.conversation);
    AscendingOnce(Share(log, m.conversation), m, ByTime);
  }

  /** And every id stands for one message over both tiers exactly if no archived id was used again. */
  lemma OneMessagePerIdExactly(events: seq<Event>)
    requires Legal(events)
    ensures (forall a, b | Kept(After(events), a) && Kept(After(events), b) && a.id == b.id :: a == b)
      <==> NoReuse(events)
  {
    HistoryInv(events);
    ReuseShowsInTheLog(events);
    forall m ensures Kept(After(events), m) <==> m in Log(events) {
      KeptIsLogged(After(events), Log(events), m);
    }
  }

  lemma {:induction false} NoClash(s: Store, log: seq<Message>, pending: seq<Message>, conversations: seq<nat>)
    requires Inv(s, log) && Groups(s.live, pending, conversations) && OneMessagePerId(log)
    ensures ArchiveGroups(s, pending, conversations).complete
    decreases |conversations|
  {
    if conversations != [] {
      var group := Where(pending, In(conversations[0]));
      FirstGroup(s, log, pending, conversations);
      FreshKey(s, log, conversations[0], |group|);
      ArchiveGroupKeeps(s, log, conversations[0], |group|);
      NoClash(ArchiveGroup(s, group), log, pending, conversations[1..]);
    }
  }

  lemma PassDoesNotClash(s: Store, log: seq<Message>, event: Event)
    requires Inv(s, log) && OneMessagePerId(log) && Fits(s, log, event)
    ensures !Clashes(s, event)
  {
    if !event.Append? {
      hide Inv;
      hide Attempted;
      hide OneMessagePerId;
      PassResult(s, event);
      AttemptCompletes(s, log, event.now, event.skipped, GroupsOf(event));
    }
  }

  lemma AttemptCompletes(s: Store, log: seq<Message>, now: int, skipped: set<nat>, groups: Option<nat>)
    requires Inv(s, log) && SkipsNoOlder(s.live, now - ARCHIVE_AGE, skipped) && OneMessagePerId(log)
    ensures Attempted(s, now, skipped, groups).complete
  {
    hide Inv;
    hide Pending;
    hide PassOrder;
    hide ArchiveGroups;
    hide Groups;
    hide OneMessagePerId;
    PassHasGroups(s, log, now, skipped, groups);
    NoClash(s, log, Pending(s.live, now - ARCHIVE_AGE, skipped), PassOrder(s, now, skipped, groups));
  }

  lemma {:induction false} WithoutReuseNoClash(events: seq<Event>)
    requires Legal(events) && NoReuse(events)
    ensures NeverClashed(events)
  {
    if events != [] {
      var init, event := events[..|events| - 1], events[|events| - 1];
      LegalPrefix(events);
      HistoryInv(init);
      ReusedLast(events);
      ClashedLast(events);
      ReuseShowsInTheLog(init);
      hide NoReuse;
      hide NeverClashed;
      WithoutReuseNoClash(init);
      PassDoesNotClash(After(init), Log(init), event);
    }
  }

  /** So without reuse no batch is ever lost and every load shows the newest fifty messages of the log. */
  lemma WithoutReuseNothingIsLost(events: seq<Event>, c: nat)
    requires Legal(events) && NoReuse(events)
    ensures Intact(After(events))
    ensures Load(After(events), c) == Some(LastN(Share(Log(events), c), 50))
  {
    WithoutReuseNoClash(events);
    IntactExactly(events);
    LoaderShowsLog(events, c);
  }
}
