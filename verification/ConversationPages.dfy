/** Paging through an account's conversations, newest first, by the key of the last one seen, while
    conversations are created, renamed and deleted between the pages. */
module ConversationPages {
  import opened Queries

  const MAXIMUM_PAGE: int := 50

  datatype Cursor = Cursor(createdAt: int, id: nat)

  /** Creation times are whole milliseconds, so a cursor carries them exactly. */
  datatype Row = Row(id: nat, account: nat, createdAt: int, title: string, deleted: bool)

  type Table = seq<Row>

  function KeyOf(r: Row): Cursor {
    Cursor(r.createdAt, r.id)
  }

  predicate Before(a: Cursor, b: Cursor) {
    a.createdAt < b.createdAt || (a.createdAt == b.createdAt && a.id < b.id)
  }

  predicate Newest(a: Row, b: Row) {
    !Before(KeyOf(a), KeyOf(b))
  }

  predicate Listable(r: Row, account: nat) {
    r.account == account && !r.deleted
  }

  predicate Eligible(r: Row, account: nat, after: Option<Cursor>) {
    Listable(r, account) && (after.Some? ==> Before(KeyOf(r), after.value))
  }

  /** The query without its limit. */
  function Remaining(t: Table, account: nat, after: Option<Cursor>): seq<Row> {
    OrderBy(Where(t, r => Eligible(r, account, after)), Newest)
  }

  datatype Page = Page(rows: seq<Row>, hasNextPage: bool, hasPreviousPage: bool, endCursor: Option<Cursor>)

  function PageSize(requested: int): (n: nat)
    ensures 1 <= n <= MAXIMUM_PAGE
  {
    if requested < 1 then 1 else if requested > MAXIMUM_PAGE then MAXIMUM_PAGE else requested
  }

  /** One row more than the page is asked for, to learn whether another page follows. */
  function ListPage(t: Table, account: nat, requested: int, after: Option<Cursor>): Page {
    var first := PageSize(requested);
    var records := Limit(Remaining(t, account, after), first + 1);
    var page := Limit(records, first);
    Page(page, |records| > first, after.Some?, if page == [] then None else Some(KeyOf(page[|page| - 1])))
  }

  datatype Listing = Listing(rows: seq<Row>, complete: bool)

  /** Follows `endCursor` through the table as it is at each page, until there is no next page. */
  function Follow(tables: seq<Table>, account: nat, requested: int, after: Option<Cursor>): Listing {
    if tables == [] then Listing([], false)
    else
      var page := ListPage(tables[0], account, requested, after);
      if !page.hasNextPage then Listing(page.rows, true)
      else
        var rest := Follow(tables[1..], account, requested, page.endCursor);
        Listing(page.rows + rest.rows, rest.complete)
  }

  // ----- one query -----

  ghost predicate DistinctIds(t: Table) {
    forall i, j | 0 <= i < j < |t| :: t[i].id != t[j].id
  }

  /** Strictly newest first. */
  ghost predicate Descending(rows: seq<Row>) {
    forall i, j | 0 <= i < j < |rows| :: Before(KeyOf(rows[j]), KeyOf(rows[i]))
  }

  lemma {:induction false} EachOnce(t: Table, r: Row)
    requires DistinctIds(t)
    ensures multiset(t)[r] <= 1
  {
    if t != [] {
      EachOnce(t[1..], r);
      assert t == [t[0]] + t[1..];
      if r == t[0] {
        assert r !in t[1..];
      }
    }
  }

  lemma {:induction false} WhereAtMost(t: Table, p: Row -> bool, r: Row)
    ensures multiset(Where(t, p))[r] <= multiset(t)[r]
  {
    if t != [] {
      WhereAtMost(t[1..], p, r);
      assert t == [t[0]] + t[1..];
    }
  }

  lemma TwiceCounts(s: seq<Row>, i: nat, j: nat)
    requires i < j < |s| && s[i] == s[j]
    ensures multiset(s)[s[i]] >= 2
  {
    assert s == s[..j] + s[j..];
    assert s[..j][i] == s[i] && s[j..][0] == s[i];
    assert s[i] in multiset(s[..j]) && s[i] in multiset(s[j..]);
  }

  lemma QueryLists(t: Table, account: nat, after: Option<Cursor>)
    requires DistinctIds(t)
    ensures Descending(Remaining(t, account, after))
    ensures forall r :: r in Remaining(t, account, after) <==> r in t && Eligible(r, account, after)
    ensures |Remaining(t, account, after)| <= |t|
  {
    var p := r => Eligible(r, account, after);
    var rows := Remaining(t, account, after);
    OrderBySorts(Where(t, p), Newest);
    OrderByMembers(Where(t, p), Newest);
    WhereMembers(t, p);
    WhereShorter(t, p);
    forall i, j | 0 <= i < j < |rows| ensures Before(KeyOf(rows[j]), KeyOf(rows[i])) {
      assert Newest(rows[i], rows[j]);
      if KeyOf(rows[i]) == KeyOf(rows[j]) {
        assert rows[i] in t && rows[j] in t;
        assert rows[i] == rows[j];
        TwiceCounts(rows, i, j);
        WhereAtMost(t, p, rows[i]);
        EachOnce(t, rows[i]);
        assert false;
      }
    }
  }

  /** What the query lists: the account's conversations that are not deleted and lie below the cursor. */
  lemma QueryListsOwn(t: Table, account: nat, after: Option<Cursor>)
    requires DistinctIds(t)
    ensures forall r :: r in Remaining(t, account, after) <==>
      && r in t && r.account == account && !r.deleted
      && (after.Some? ==> r.createdAt < after.value.createdAt
                          || (r.createdAt == after.value.createdAt && r.id < after.value.id))
  {
    hide Remaining;
    hide Descending;
    QueryLists(t, account, after);
  }

  /** Newest first means the later creation time first, and of two with one time the larger id. */
  lemma NewestComesFirst(t: Table, account: nat, after: Option<Cursor>)
    requires DistinctIds(t)
    ensures var rows := Remaining(t, account, after);
      forall i, j | 0 <= i < j < |rows| ::
        rows[j].createdAt < rows[i].createdAt || (rows[j].createdAt == rows[i].createdAt && rows[j].id < rows[i].id)
  {
    QueryLists(t, account, after);
    hide Remaining;
  }

  lemma {:induction false} WhereShorter(t: Table, p: Row -> bool)
    ensures |Where(t, p)| <= |t|
  {
    if t != [] {
      WhereShorter(t[1..], p);
    }
  }

  // ----- following the pages -----

  ghost predicate AllDistinctIds(tables: seq<Table>) {
    forall i | 0 <= i < |tables| :: DistinctIds(tables[i])
  }

  ghost predicate AllBelow(rows: seq<Row>, after: Option<Cursor>) {
    after.Some? ==> forall r | r in rows :: Before(KeyOf(r), after.value)
  }

  /** What a page holds: the first rows of what remains; what it leaves out lies below its end. */
  lemma PageIsThePrefix(t: Table, account: nat, requested: int, after: Option<Cursor>)
    requires DistinctIds(t)
    ensures var page := ListPage(t, account, requested, after);
            var all := Remaining(t, account, after);
            && page.rows == Limit(all, PageSize(requested))
            && (page.hasNextPage <==> |all| > PageSize(requested))
            && (page.hasNextPage ==> page.endCursor == Some(KeyOf(all[PageSize(requested) - 1])))
  {
  }

  lemma JoinDescending(a: seq<Row>, b: seq<Row>, after: Option<Cursor>)
    requires a != [] && Descending(a) && Descending(b) && AllBelow(a, after) && AllBelow(b, Some(KeyOf(a[|a| - 1])))
    ensures Descending(a + b) && AllBelow(a + b, after)
  {
    var last := a[|a| - 1];
    forall x | x in a ensures x == last || Before(KeyOf(last), KeyOf(x)) {
      var i :| 0 <= i < |a| && a[i] == x;
    }
    forall i, j | 0 <= i < j < |a + b| ensures Before(KeyOf((a + b)[j]), KeyOf((a + b)[i])) {
      if i < |a| <= j {
        assert b[j - |a|] in b && a[i] in a;
      }
    }
    if after.Some? {
      forall r | r in a + b ensures Before(KeyOf(r), after.value) {
        assert r in a || r in b;
        assert last in a;
      }
    }
  }

  /** A page on its own: strictly descending rows below the cursor it was asked with. */
  lemma PageDescends(t: Table, account: nat, requested: int, after: Option<Cursor>)
    requires DistinctIds(t)
    ensures var page := ListPage(t, account, requested, after);
            && Descending(page.rows) && AllBelow(page.rows, after)
            && (forall r | r in page.rows :: r in t && r.account == account && !r.deleted)
            && (page.rows == [] ==> page.endCursor == None)
            && (page.rows != [] ==>
                  var last := page.rows[|page.rows| - 1]; page.endCursor == Some(Cursor(last.createdAt, last.id)))
            && (page.hasPreviousPage <==> after.Some?)
  {
    hide Remaining;
    QueryLists(t, account, after);
    PageIsThePrefix(t, account, requested, after);
    var page := ListPage(t, account, requested, after);
    assert forall r | r in page.rows :: r in Remaining(t, account, after);
  }

  /** It holds as many rows as were asked for, from one to fifty, or all that are left, and tells which. */
  lemma PageIsFilled(t: Table, account: nat, requested: int, after: Option<Cursor>)
    requires DistinctIds(t)
    ensures var page, left := ListPage(t, account, requested, after), |Remaining(t, account, after)|;
      && |page.rows| <= left && (page.hasNextPage <==> |page.rows| < left)
      && (page.hasNextPage ==> |page.rows| == if requested < 1 then 1 else if requested > 50 then 50 else requested)
  {
    QueryLists(t, account, after);
  }

  lemma {:induction false} FollowDescends(tables: seq<Table>, account: nat, requested: int, after: Option<Cursor>)
    requires AllDistinctIds(tables)
    ensures Descending(Follow(tables, account, requested, after).rows)
    ensures AllBelow(Follow(tables, account, requested, after).rows, after)
  {
    if tables != [] {
      hide ListPage;
      hide Descending;
      hide AllBelow;
      PageDescends(tables[0], account, requested, after);
      var page := ListPage(tables[0], account, requested, after);
      if page.hasNextPage {
        FollowDescends(tables[1..], account, requested, page.endCursor);
        JoinDescending(page.rows, Follow(tables[1..], account, requested, page.endCursor).rows, after);
      }
    } else {
      assert Follow(tables, account, requested, after).rows == [];
    }
  }

  /** Only what was listable when its page was read is listed. */
  lemma {:induction false} FollowLists(tables: seq<Table>, account: nat, requested: int, after: Option<Cursor>, r: Row)
    requires AllDistinctIds(tables) && r in Follow(tables, account, requested, after).rows
    ensures r.account == account && !r.deleted && exists i :: 0 <= i < |tables| && r in tables[i]
  {
    hide ListPage;
    PageDescends(tables[0], account, requested, after);
    var page := ListPage(tables[0], account, requested, after);
    if r in page.rows {
      assert r in tables[0];
    } else {
      FollowLists(tables[1..], account, requested, page.endCursor, r);
      var i :| 0 <= i < |tables[1..]| && r in tables[1..][i];
      assert r in tables[i + 1];
    }
  }

  ghost predicate StandsIn(t: Table, account: nat, key: Cursor) {
    exists r :: r in t && r.account == account && !r.deleted && r.createdAt == key.createdAt && r.id == key.id
  }

  /** A conversation that is in every one of the tables, renamed or not. */
  ghost predicate Stays(tables: seq<Table>, account: nat, key: Cursor) {
    forall i | 0 <= i < |tables| :: StandsIn(tables[i], account, key)
  }

  lemma {:induction false} FollowMisses(tables: seq<Table>, account: nat, requested: int, after: Option<Cursor>,
                                        key: Cursor)
    requires AllDistinctIds(tables) && Stays(tables, account, key)
    requires after.Some? ==> Before(key, after.value)
    requires Follow(tables, account, requested, after).complete
    ensures exists r :: r in Follow(tables, account, requested, after).rows && KeyOf(r) == key
  {
    hide Remaining;
    hide Descending;
    QueryLists(tables[0], account, after);
    PageIsThePrefix(tables[0], account, requested, after);
    var page := ListPage(tables[0], account, requested, after);
    var all := Remaining(tables[0], account, after);
    assert StandsIn(tables[0], account, key);
    var r :| r in tables[0] && r.account == account && !r.deleted && r.createdAt == key.createdAt && r.id == key.id;
    assert KeyOf(r) == key;
    assert r in all;
    var k :| 0 <= k < |all| && all[k] == r;
    if k < PageSize(requested) {
      assert page.rows[k] == r;
    } else {
      FollowMisses(tables[1..], account, requested, page.endCursor, key);
    }
  }

  /** Whatever happens between the pages, a listing is strictly newest first, so nothing comes twice;
      and when it says there is no next page, every conversation that was there all along is in it. */
  lemma ListingIsSound(tables: seq<Table>, account: nat, requested: int)
    requires AllDistinctIds(tables)
    ensures Descending(Follow(tables, account, requested, None).rows)
    ensures forall key | Stays(tables, account, key) && Follow(tables, account, requested, None).complete ::
      exists r :: r in Follow(tables, account, requested, None).rows && KeyOf(r) == key
  {
    FollowDescends(tables, account, requested, None);
    forall key | Stays(tables, account, key) && Follow(tables, account, requested, None).complete
      ensures exists r :: r in Follow(tables, account, requested, None).rows && KeyOf(r) == key
    {
      FollowMisses(tables, account, requested, None, key);
    }
  }

  // ----- when only newer conversations appear -----

  /** What is listable below the cursor is the same in every table. */
  ghost predicate SteadyBelow(tables: seq<Table>, account: nat, after: Option<Cursor>, rows: seq<Row>) {
    forall i | 0 <= i < |tables| :: Remaining(tables[i], account, after) == rows
  }

  predicate Below(r: Row, cursor: Cursor) {
    Before(KeyOf(r), cursor)
  }

  lemma CutAt(all: seq<Row>, n: nat)
    requires Descending(all) && 0 < n <= |all|
    ensures Where(all, r => Below(r, KeyOf(all[n - 1]))) == all[n..]
  {
    AscendingCut(all, n, Newest, r => Below(r, KeyOf(all[n - 1])));
  }

  lemma TailRemains(t: Table, account: nat, after: Option<Cursor>, n: nat)
    requires DistinctIds(t) && 0 < n < |Remaining(t, account, after)|
    ensures var all := Remaining(t, account, after);
            Remaining(t, account, Some(KeyOf(all[n - 1]))) == all[n..]
  {
    var all := Remaining(t, account, after);
    var cursor := KeyOf(all[n - 1]);
    QueryLists(t, account, after);
    assert all[n - 1] in all;
    var p := r => Eligible(r, account, after);
    var q := r => Below(r, cursor);
    OrderByWhere(Where(t, p), Newest, q);
    NarrowedTwice(t, account, after, cursor);
    CutAt(all, n);
  }

  lemma {:induction false} NarrowedTwice(t: Table, account: nat, after: Option<Cursor>, cursor: Cursor)
    requires after.Some? ==> Before(cursor, after.value)
    ensures Where(Where(t, r => Eligible(r, account, after)), r => Below(r, cursor))
         == Where(t, r => Eligible(r, account, Some(cursor)))
  {
    if t != [] {
      var p := r => Eligible(r, account, after);
      NarrowedTwice(t[1..], account, after, cursor);
      if p(t[0]) {
        WhereCons(t[0], Where(t[1..], p), r => Below(r, cursor));
      } else {
        assert [] + Where(t[1..], p) == Where(t[1..], p);
      }
    }
  }

  lemma FullPage(t: Table, account: nat, requested: int, after: Option<Cursor>)
    requires |Remaining(t, account, after)| > PageSize(requested)
    ensures var rows := Remaining(t, account, after);
            var page := ListPage(t, account, requested, after);
            && page.hasNextPage && page.rows == rows[..PageSize(requested)]
            && page.endCursor == Some(KeyOf(rows[PageSize(requested) - 1]))
  {
    hide Remaining;
    var rows := Remaining(t, account, after);
    var first := PageSize(requested);
    assert rows[..first + 1][..first] == rows[..first];
    assert rows[..first] != [] && rows[..first][first - 1] == rows[first - 1];
  }

  lemma FollowOn(tables: seq<Table>, account: nat, requested: int, after: Option<Cursor>)
    requires tables != [] && ListPage(tables[0], account, requested, after).hasNextPage
    ensures var page := ListPage(tables[0], account, requested, after);
      var rest := Follow(tables[1..], account, requested, page.endCursor);
      Follow(tables, account, requested, after) == Listing(page.rows + rest.rows, rest.complete)
  {
    hide ListPage;
  }

  /** A full page and then the rest. */
  lemma PageThenRest(tables: seq<Table>, account: nat, requested: int, after: Option<Cursor>)
    requires tables != [] && |Remaining(tables[0], account, after)| > PageSize(requested)
    requires var rows := Remaining(tables[0], account, after);
             Follow(tables[1..], account, requested, Some(KeyOf(rows[PageSize(requested) - 1])))
             == Listing(rows[PageSize(requested)..], true)
    ensures Follow(tables, account, requested, after) == Listing(Remaining(tables[0], account, after), true)
  {
    hide Remaining;
    hide ListPage;
    hide PageSize;
    hide Follow;
    var rows := Remaining(tables[0], account, after);
    var first := PageSize(requested);
    FullPage(tables[0], account, requested, after);
    FollowOn(tables, account, requested, after);
    assert rows == rows[..first] + rows[first..];
  }

  lemma OnePage(tables: seq<Table>, account: nat, requested: int, after: Option<Cursor>)
    requires tables != [] && |Remaining(tables[0], account, after)| <= PageSize(requested)
    ensures Follow(tables, account, requested, after) == Listing(Remaining(tables[0], account, after), true)
  {
    hide Remaining;
  }

  lemma OnePageLess(pages: nat, first: nat, rows: nat)
    requires rows <= pages * first && first < rows
    ensures pages > 1 && rows - first <= (pages - 1) * first
  {
    assert pages * first == first + (pages - 1) * first;
  }

  lemma {:induction false} FollowSteady(tables: seq<Table>, account: nat, requested: int, after: Option<Cursor>,
                                        rows: seq<Row>)
    requires AllDistinctIds(tables) && SteadyBelow(tables, account, after, rows)
    requires tables != [] && |rows| <= |tables| * PageSize(requested)
    ensures Follow(tables, account, requested, after) == Listing(rows, true)
  {
    var first := PageSize(requested);
    assert Remaining(tables[0], account, after) == rows;
    if |rows| > first {
      hide Remaining;
      hide ListPage;
      var cursor := Some(KeyOf(rows[first - 1]));
      forall i | 0 <= i < |tables[1..]|
        ensures Remaining(tables[1..][i], account, cursor) == rows[first..]
      {
        assert tables[1..][i] == tables[i + 1];
        TailRemains(tables[i + 1], account, after, first);
      }
      OnePageLess(|tables|, first, |rows|);
      FollowSteady(tables[1..], account, requested, cursor, rows[first..]);
      PageThenRest(tables, account, requested, after);
    }
  }

  ghost predicate AllNewer(rows: seq<Row>, t: Table) {
    forall r, s | r in rows && s in t :: Before(KeyOf(s), KeyOf(r))
  }

  /** Since the first page conversations were only created, each newer than any there was. */
  ghost predicate OnlyNewer(tables: seq<Table>) {
    forall i | 0 <= i < |tables| :: tables[0] <= tables[i] && AllNewer(tables[i][|tables[0]|..], tables[0])
  }

  lemma NewerIsAbove(t: Table, inserted: seq<Row>, account: nat, cursor: Cursor)
    requires exists s :: s in t && KeyOf(s) == cursor
    requires AllNewer(inserted, t)
    ensures Remaining(t + inserted, account, Some(cursor)) == Remaining(t, account, Some(cursor))
  {
    var p := r => Eligible(r, account, Some(cursor));
    WhereConcat(t, inserted, p);
    WhereNone(inserted, p);
    assert Where(t, p) + [] == Where(t, p);
  }

  /** Then the listing is the account's conversations of the first page's moment, all of them, once
      each and in order, and it ends after as many pages as they fill. */
  lemma ListingIsExact(tables: seq<Table>, account: nat, requested: int)
    requires tables != [] && AllDistinctIds(tables) && OnlyNewer(tables)
    requires |Remaining(tables[0], account, None)| <= |tables| * PageSize(requested)
    ensures Follow(tables, account, requested, None) == Listing(Remaining(tables[0], account, None), true)
  {
    hide ListPage;
    hide Descending;
    hide Remaining;
    var first := PageSize(requested);
    var rows := Remaining(tables[0], account, None);
    if |rows| <= first {
      OnePage(tables, account, requested, None);
    } else {
      QueryLists(tables[0], account, None);
      TailRemains(tables[0], account, None, first);
      assert rows[first - 1] in rows;
      var cursor := KeyOf(rows[first - 1]);
      forall i | 0 <= i < |tables[1..]|
        ensures Remaining(tables[1..][i], account, Some(cursor)) == rows[first..]
      {
        var inserted := tables[i + 1][|tables[0]|..];
        assert tables[1..][i] == tables[0] + inserted;
        NewerIsAbove(tables[0], inserted, account, cursor);
      }
      OnePageLess(|tables|, first, |rows|);
      FollowSteady(tables[1..], account, requested, Some(cursor), rows[first..]);
      PageThenRest(tables, account, requested, None);
    }
  }
}
