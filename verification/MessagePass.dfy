/** One archive pass told by the rows it takes: how old they are, how many, and which stay. */
module MessagePass {
  import opened Queries
  import opened MessageStore
  import opened MessageArchive

  /** Ninety days in milliseconds. */
  predicate IsDue(m: Message, now: int, skipped: set<nat>) {
    m.createdAt < now - 7_776_000_000 && m.id !in skipped
  }

  function Gone(before: seq<Message>, after: seq<Message>): set<Message> {
    set m | m in before && m !in after
  }

  predicate Earlier(a: Message, b: Message) {
    a.createdAt < b.createdAt || (a.createdAt == b.createdAt && a.id < b.id)
  }

  /** Nothing comes in; what goes is due, is at most five hundred rows, and is the oldest that is due; with
      fewer than five hundred gone no row that is due is left. */
  ghost predicate TakesTheDue(before: seq<Message>, after: seq<Message>, now: int, skipped: set<nat>) {
    && (forall m | m in after :: m in before)
    && (forall m | m in Gone(before, after) :: IsDue(m, now, skipped))
    && |Gone(before, after)| <= 500
    && (|Gone(before, after)| < 500 ==> forall m | m in after :: !IsDue(m, now, skipped))
    && (forall m, x | m in Gone(before, after) && x in after && IsDue(x, now, skipped) :: Earlier(m, x))
  }

  ghost predicate AllArchived(rows: set<Message>, manifests: seq<Manifest>) {
    forall m | m in rows :: exists f :: f in manifests && m in f.checksum
  }

  // ----- what is selected -----

  function Elements(s: seq<Message>): set<Message> {
    set m | m in s
  }

  lemma {:induction false} DistinctSize(s: seq<Message>)
    requires forall i, j | 0 <= i < j < |s| :: s[i] != s[j]
    ensures |Elements(s)| == |s|
  {
    if s != [] {
      DistinctSize(s[1..]);
      assert Elements(s) == {s[0]} + Elements(s[1..]);
      assert s[0] !in s[1..];
    }
  }

  lemma {:induction false} DistinctCounts(s: seq<Message>, x: Message)
    requires DistinctIds(s)
    ensures multiset(s)[x] <= 1
  {
    if s != [] {
      assert s == [s[0]] + s[1..];
      DistinctCounts(s[1..], x);
      assert s[0] !in s[1..];
    }
  }

  lemma OnceEach(s: seq<Message>)
    requires forall x :: multiset(s)[x] <= 1
    ensures forall i, j | 0 <= i < j < |s| :: s[i] != s[j]
  {
    forall i, j | 0 <= i < j < |s| ensures s[i] != s[j] {
      if s[i] == s[j] {
        TwiceCounts(s, i, j);
      }
    }
  }

  lemma EligibleRows(live: seq<Message>, cutoff: int, skipped: set<nat>) returns (ordered: seq<Message>)
    ensures Pending(live, cutoff, skipped) == Limit(ordered, ARCHIVE_BATCH)
    ensures forall m :: m in ordered <==> m in live && m.createdAt < cutoff && m.id !in skipped
    ensures Sorted(ordered, ByTimeAndId)
    ensures DistinctIds(live) ==> forall i, j | 0 <= i < j < |ordered| :: ordered[i] != ordered[j]
  {
    var free := Where(live, Outside(skipped));
    var rows := Where(free, OlderThan(cutoff));
    ordered := OrderBy(rows, ByTimeAndId);
    Orders();
    WhereMembers(live, Outside(skipped));
    WhereMembers(free, OlderThan(cutoff));
    OrderByMembers(rows, ByTimeAndId);
    OrderBySorts(rows, ByTimeAndId);
    if DistinctIds(live) {
      DistinctAfterDelete(live, Outside(skipped));
      DistinctAfterDelete(free, OlderThan(cutoff));
      forall x ensures multiset(ordered)[x] <= 1 {
        DistinctCounts(rows, x);
      }
      OnceEach(ordered);
    }
  }

  /** The selection by its members: due rows, the oldest first, five hundred of them if there are as many. */
  lemma SelectsTheDue(live: seq<Message>, now: int, skipped: set<nat>)
    requires DistinctIds(live)
    ensures var pending := Elements(Pending(live, now - ARCHIVE_AGE, skipped));
      && (forall m | m in pending :: m in live && IsDue(m, now, skipped))
      && |pending| <= 500
      && (|pending| < 500 ==> forall m | m in live && IsDue(m, now, skipped) :: m in pending)
      && (forall m, x | m in pending && x in live && x !in pending && IsDue(x, now, skipped) :: Earlier(m, x))
  {
    var pending := Pending(live, now - ARCHIVE_AGE, skipped);
    var ordered := EligibleRows(live, now - ARCHIVE_AGE, skipped);
    DistinctSize(pending);
    hide Pending;
    forall m, x | m in pending && x in live && x !in pending && IsDue(x, now, skipped) ensures Earlier(m, x) {
      var i :| 0 <= i < |pending| && pending[i] == m;
      var j :| 0 <= j < |ordered| && ordered[j] == x;
      assert ordered[i] == m && i < j && ByTimeAndId(ordered[i], ordered[j]);
      assert m in live;
      if m.id == x.id {
        SameIdSameRow(live, m, x);
      }
    }
  }

  // ----- what the pass leaves -----

  /** Exactly the rows with a selected id leave the table. */
  lemma {:induction false} AttemptRemoves(s: Store, pending: seq<Message>, conversations: seq<nat>)
    requires ArchiveGroups(s, pending, conversations).complete
    ensures forall x :: x in ArchiveGroups(s, pending, conversations).store.live <==>
      x in s.live && forall m | m in pending && m.conversation in conversations :: m.id != x.id
    decreases |conversations|
  {
    if conversations != [] {
      var group := Where(pending, In(conversations[0]));
      AttemptRemoves(ArchiveGroup(s, group), pending, conversations[1..]);
      WhereMembers(pending, In(conversations[0]));
      WhereMembers(s.live, Outside(Ids(group)));
    }
  }

  lemma PassRemoves(s: Store, now: int, skipped: set<nat>)
    requires DistinctIds(s.live) && Attempted(s, now, skipped, None).complete
    ensures var next := ArchivePass(s, now, skipped);
      && (forall x :: x in next.live <==> x in s.live && x !in Pending(s.live, now - ARCHIVE_AGE, skipped))
      && AllArchived(Elements(Pending(s.live, now - ARCHIVE_AGE, skipped)), next.manifests)
  {
    var pending := Pending(s.live, now - ARCHIVE_AGE, skipped);
    var ordered := EligibleRows(s.live, now - ARCHIVE_AGE, skipped);
    assert forall m | m in pending :: m in ordered;
    FirstSeenProperties(pending);
    hide Pending;
    hide ArchiveGroups;
    hide FirstSeen;
    AttemptRemoves(s, pending, FirstSeen(pending));
    forall m | m in pending ensures exists f :: f in ArchivePass(s, now, skipped).manifests && m in f.checksum {
      AttemptTakes(s, pending, FirstSeen(pending), m);
    }
    forall x, m | x in s.live && m in pending && m.id == x.id ensures m == x {
      SameIdSameRow(s.live, m, x);
    }
  }

  /** A finished pass archives the oldest due rows, at most five hundred, and nothing that is not due. */
  lemma PassTakesTheDue(s: Store, now: int, skipped: set<nat>)
    requires DistinctIds(s.live) && Attempted(s, now, skipped, None).complete
    ensures var next := ArchivePass(s, now, skipped);
      && TakesTheDue(s.live, next.live, now, skipped)
      && AllArchived(Gone(s.live, next.live), next.manifests)
      && (next.live == s.live ==> forall m | m in s.live :: !IsDue(m, now, skipped))
  {
    SelectsTheDue(s.live, now, skipped);
    PassRemoves(s, now, skipped);
    hide Pending;
    hide ArchivePass;
    hide Attempted;
    hide Ids;
    var next := ArchivePass(s, now, skipped);
    var pending := Elements(Pending(s.live, now - ARCHIVE_AGE, skipped));
    assert Gone(s.live, next.live) == pending;
  }

  /** Something goes exactly if something is due. */
  lemma SomethingGoes(s: Store, now: int, skipped: set<nat>)
    requires DistinctIds(s.live)
    ensures Pending(s.live, now - ARCHIVE_AGE, skipped) == [] <==> forall m | m in s.live :: !IsDue(m, now, skipped)
    ensures Attempted(s, now, skipped, None).complete && Pending(s.live, now - ARCHIVE_AGE, skipped) != [] ==>
      Gone(s.live, ArchivePass(s, now, skipped).live) != {}
  {
    var pending := Pending(s.live, now - ARCHIVE_AGE, skipped);
    SelectsTheDue(s.live, now, skipped);
    hide Attempted;
    hide ArchivePass;
    hide Pending;
    if pending == [] {
      assert Elements(pending) == {};
    } else {
      assert pending[0] in Elements(pending);
      if Attempted(s, now, skipped, None).complete {
        PassRemoves(s, now, skipped);
        assert pending[0] in Gone(s.live, ArchivePass(s, now, skipped).live);
      }
    }
  }
}
