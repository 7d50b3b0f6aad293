/** The archive writer, the archive reader and the message loader, step by step, over the
    live table, the manifests and the object store. */
module MessageService {
  import opened Queries
  import opened MessageStore
  import opened MessageArchive
  import opened MessagePass
  import opened MessageReads

  function Among(conversations: seq<nat>): Manifest -> bool {
    (m: Manifest) => m.conversation in conversations
  }

  /** `row_number() over (partition by conversation order by createdAt desc, id desc) <= first` */
  function Ranked(live: seq<Message>, conversations: seq<nat>, first: nat): Message -> bool {
    (m: Message) => m.conversation in conversations && m in NewestLive(live, m.conversation, first)
  }

  function MessagesFor(live: seq<Message>, conversations: seq<nat>, first: nat): seq<Message> {
    OrderBy(Where(live, Ranked(live, conversations, first)), ByTimeAndId)
  }

  function GetOr<V>(m: map<nat, V>, key: nat, default: V): V {
    if key in m then m[key] else default
  }

  lemma {:induction false} WhereImplied<T(!new)>(s: seq<T>, p: T -> bool, q: T -> bool)
    requires forall x :: q(x) ==> p(x)
    ensures Where(Where(s, p), q) == Where(s, q)
  {
    if s != [] {
      WhereImplied(s[1..], p, q);
      WhereConcat(if p(s[0]) then [s[0]] else [], Where(s[1..], p), q);
      assert !p(s[0]) ==> !q(s[0]);
    }
  }

  /** In an ascending sequence the last `n` elements are those that are among the last `n`. */
  lemma KeepNewest(rows: seq<Message>, keep: Message -> bool, n: nat)
    requires Ascending(rows, ByTime)
    requires forall m | m in rows :: keep(m) <==> m in LastN(rows, n)
    ensures Where(rows, keep) == LastN(rows, n)
  {
    var tail := LastN(rows, n);
    var head := rows[..|rows| - |tail|];
    assert rows == head + tail;
    AscendingParts(head, tail, ByTime);
    WhereConcat(head, tail, keep);
    forall m | m in head ensures !keep(m) {
      assert m in rows;
    }
    WhereNone(head, keep);
    forall m | m in tail ensures keep(m) {
      assert m in rows;
    }
    WhereAll(tail, keep);
  }

  /** One conversation's share of the ranked query is its newest rows. */
  lemma RankedShare(s: Store, log: seq<Message>, conversations: seq<nat>, first: nat, c: nat)
    requires Inv(s, log) && c in conversations
    ensures Where(MessagesFor(s.live, conversations, first), In(c)) == NewestLive(s.live, c, first)
  {
    var keep := Ranked(s.live, conversations, first);
    var rows := Share(s.live, c);
    assert Split(s, log, c);
    LiveRowsAscend(s, log, c);
    Orders();
    OrderByWhere(Where(s.live, keep), ByTimeAndId, In(c));
    ShareWhere(s.live, keep, c);
    ShareMembers(s.live, c);
    KeepNewest(rows, keep, first);
  }

  lemma ManifestShare(manifests: seq<Manifest>, conversations: seq<nat>, c: nat)
    requires c in conversations
    ensures Where(OrderBy(Where(manifests, Among(conversations)), NewestFirst), ManifestOf(c)) ==
            OrderBy(Where(manifests, ManifestOf(c)), NewestFirst)
  {
    Orders();
    OrderByWhere(Where(manifests, Among(conversations)), NewestFirst, ManifestOf(c));
    WhereImplied(manifests, Among(conversations), ManifestOf(c));
  }

  lemma ListedAmong(manifests: seq<Manifest>, conversations: seq<nat>)
    ensures forall m | m in Listed(manifests, conversations) :: m.conversation in conversations
  {
    Orders();
    OrderByMembers(Where(manifests, Among(conversations)), NewestFirst);
    WhereMembers(manifests, Among(conversations));
  }

  /** How the reading loop stands for one conversation: what its manifests yield in all is
      what its bundle holds so far followed by what the remaining ones yield. */
  ghost predicate OnTrack(manifests: seq<Manifest>, i: nat, objects: map<Key, seq<Message>>, limit: int,
                          taken: seq<Message>, remaining: int, c: nat)
    requires i <= |manifests|
  {
    Collect(Where(manifests, ManifestOf(c)), objects, limit) ==
    Prepend(taken, Collect(Where(manifests[i..], ManifestOf(c)), objects, remaining))
  }

  lemma StartOnTrack(manifests: seq<Manifest>, objects: map<Key, seq<Message>>, limit: int, c: nat)
    ensures OnTrack(manifests, 0, objects, limit, [], limit, c)
  {
    assert manifests[0..] == manifests;
    var all := Collect(Where(manifests, ManifestOf(c)), objects, limit);
    if all.Some? {
      assert [] + all.value == all.value;
    }
  }

  lemma FinishOnTrack(manifests: seq<Manifest>, objects: map<Key, seq<Message>>, limit: int,
                      taken: seq<Message>, remaining: int, c: nat)
    requires OnTrack(manifests, |manifests|, objects, limit, taken, remaining, c)
    ensures Collect(Where(manifests, ManifestOf(c)), objects, limit) == Some(taken)
  {
    assert manifests[|manifests|..] == [];
    assert taken + [] == taken;
  }

  lemma ThisManifest(manifests: seq<Manifest>, i: nat, c: nat)
    requires i < |manifests|
    ensures Where(manifests[i..], ManifestOf(c)) ==
            if manifests[i].conversation == c
            then [manifests[i]] + Where(manifests[i + 1..], ManifestOf(c))
            else Where(manifests[i + 1..], ManifestOf(c))
  {
    assert manifests[i..] == [manifests[i]] + manifests[i + 1..];
    WhereCons(manifests[i], manifests[i + 1..], ManifestOf(c));
  }

  /** A manifest of another conversation, or one met with no quota left, takes nothing. */
  lemma SkipManifest(manifests: seq<Manifest>, i: nat, objects: map<Key, seq<Message>>, limit: int,
                     taken: seq<Message>, remaining: int, c: nat)
    requires i < |manifests| && OnTrack(manifests, i, objects, limit, taken, remaining, c)
    requires manifests[i].conversation != c || remaining <= 0
    ensures OnTrack(manifests, i + 1, objects, limit, taken, remaining, c)
  {
    ThisManifest(manifests, i, c);
    if remaining <= 0 {
      assert Collect(Where(manifests[i + 1..], ManifestOf(c)), objects, remaining) == Some([]);
      assert Collect(Where(manifests[i..], ManifestOf(c)), objects, remaining) == Some([]);
    }
  }

  lemma PrependTwice(a: seq<Message>, b: seq<Message>, tail: Option<seq<Message>>)
    ensures Prepend(a, Prepend(b, tail)) == Prepend(a + b, tail)
  {
    if tail.Some? {
      assert a + (b + tail.value) == (a + b) + tail.value;
    }
  }

  lemma CollectNext(m: Manifest, older: seq<Manifest>, objects: map<Key, seq<Message>>, remaining: int)
    requires remaining > 0
    ensures Collect([m] + older, objects, remaining) ==
      match Decode(objects, m)
      case None => None
      case Some(records) =>
        var selected := LastN(records, remaining);
        Prepend(selected, Collect(older, objects, remaining - |selected|))
  {
    assert ([m] + older)[1..] == older;
  }

  lemma TakeManifest(manifests: seq<Manifest>, i: nat, objects: map<Key, seq<Message>>, limit: int,
                     taken: seq<Message>, remaining: int, c: nat)
    requires i < |manifests| && OnTrack(manifests, i, objects, limit, taken, remaining, c)
    requires manifests[i].conversation == c && remaining > 0
    ensures match Decode(objects, manifests[i])
      case None => Collect(Where(manifests, ManifestOf(c)), objects, limit) == None
      case Some(records) =>
        var selected := LastN(records, remaining);
        OnTrack(manifests, i + 1, objects, limit, taken + selected, remaining - |selected|, c)
  {
    hide Where;
    hide Share;
    hide Decode;
    hide LastN;
    hide Collect;
    hide Prepend;
    ThisManifest(manifests, i, c);
    var older := Where(manifests[i + 1..], ManifestOf(c));
    CollectNext(manifests[i], older, objects, remaining);
    var records := Decode(objects, manifests[i]);
    if records.Some? {
      var selected := LastN(records.value, remaining);
      PrependTwice(taken, selected, Collect(older, objects, remaining - |selected|));
    } else {
      PrependNone(taken);
    }
  }

  lemma PrependNone(head: seq<Message>)
    ensures Prepend(head, None) == None
  {
  }

  function Taken(manifests: seq<Manifest>, objects: map<Key, seq<Message>>, limit: int, c: nat): Option<seq<Message>> {
    Collect(OrderBy(Where(manifests, ManifestOf(c)), NewestFirst), objects, limit)
  }

  function Listed(manifests: seq<Manifest>, conversations: seq<nat>): seq<Manifest> {
    OrderBy(Where(manifests, Among(conversations)), NewestFirst)
  }

  /** The reading loop after `i` manifests. */
  ghost predicate Reading(listed: seq<Manifest>, i: nat, objects: map<Key, seq<Message>>, conversations: seq<nat>,
                          limits: map<nat, int>, bundles: map<nat, seq<Message>>, remaining: map<nat, int>)
    requires i <= |listed|
  {
    forall c | c in conversations :: c in remaining && c in limits &&
        OnTrack(listed, i, objects, limits[c], GetOr(bundles, c, []), remaining[c], c)
  }

  lemma StartReading(listed: seq<Manifest>, objects: map<Key, seq<Message>>, conversations: seq<nat>,
                     limits: map<nat, int>)
    requires forall c | c in conversations :: c in limits
    ensures Reading(listed, 0, objects, conversations, limits, map[], limits)
  {
    forall c | c in conversations ensures OnTrack(listed, 0, objects, limits[c], [], limits[c], c) {
      StartOnTrack(listed, objects, limits[c], c);
    }
  }

  lemma SkipReading(listed: seq<Manifest>, i: nat, objects: map<Key, seq<Message>>, conversations: seq<nat>,
                    limits: map<nat, int>, bundles: map<nat, seq<Message>>, remaining: map<nat, int>)
    requires i < |listed| && Reading(listed, i, objects, conversations, limits, bundles, remaining)
    requires listed[i].conversation in conversations && remaining[listed[i].conversation] <= 0
    ensures Reading(listed, i + 1, objects, conversations, limits, bundles, remaining)
  {
    forall c | c in conversations
      ensures OnTrack(listed, i + 1, objects, limits[c], GetOr(bundles, c, []), remaining[c], c)
    {
      SkipManifest(listed, i, objects, limits[c], GetOr(bundles, c, []), remaining[c], c);
    }
  }

  lemma TakeReading(listed: seq<Manifest>, i: nat, objects: map<Key, seq<Message>>, conversations: seq<nat>,
                    limits: map<nat, int>, bundles: map<nat, seq<Message>>, remaining: map<nat, int>,
                    selected: seq<Message>)
    requires i < |listed| && Reading(listed, i, objects, conversations, limits, bundles, remaining)
    requires listed[i].conversation in conversations && remaining[listed[i].conversation] > 0
    requires Decode(objects, listed[i]).Some?
    requires selected == LastN(Decode(objects, listed[i]).value, remaining[listed[i].conversation])
    ensures var conversation := listed[i].conversation;
      Reading(listed, i + 1, objects, conversations, limits,
              bundles[conversation := GetOr(bundles, conversation, []) + selected],
              remaining[conversation := remaining[conversation] - |selected|])
  {
    var conversation := listed[i].conversation;
    hide OnTrack;
    forall c | c in conversations && c != conversation
      ensures OnTrack(listed, i + 1, objects, limits[c], GetOr(bundles, c, []), remaining[c], c)
    {
      SkipManifest(listed, i, objects, limits[c], GetOr(bundles, c, []), remaining[c], c);
    }
    TakeManifest(listed, i, objects, limits[conversation], GetOr(bundles, conversation, []),
                 remaining[conversation], conversation);
  }

  lemma FailReading(manifests: seq<Manifest>, i: nat, objects: map<Key, seq<Message>>, conversations: seq<nat>,
                    limits: map<nat, int>, bundles: map<nat, seq<Message>>, remaining: map<nat, int>)
    requires i < |Listed(manifests, conversations)|
    requires Reading(Listed(manifests, conversations), i, objects, conversations, limits, bundles, remaining)
    requires Listed(manifests, conversations)[i].conversation in conversations
    requires remaining[Listed(manifests, conversations)[i].conversation] > 0
    requires Decode(objects, Listed(manifests, conversations)[i]).None?
    ensures var c := Listed(manifests, conversations)[i].conversation; Taken(manifests, objects, limits[c], c) == None
  {
    var c := Listed(manifests, conversations)[i].conversation;
    TakeManifest(Listed(manifests, conversations), i, objects, limits[c], GetOr(bundles, c, []), remaining[c], c);
    ManifestShare(manifests, conversations, c);
  }

  lemma FinishReading(manifests: seq<Manifest>, objects: map<Key, seq<Message>>, conversations: seq<nat>,
                      limits: map<nat, int>, bundles: map<nat, seq<Message>>, remaining: map<nat, int>)
    requires Reading(Listed(manifests, conversations), |Listed(manifests, conversations)|, objects, conversations,
                     limits, bundles, remaining)
    ensures forall c | c in conversations :: Taken(manifests, objects, limits[c], c) == Some(GetOr(bundles, c, []))
  {
    forall c | c in conversations ensures Taken(manifests, objects, limits[c], c) == Some(GetOr(bundles, c, [])) {
      FinishOnTrack(Listed(manifests, conversations), objects, limits[c], GetOr(bundles, c, []), remaining[c], c);
      ManifestShare(manifests, conversations, c);
    }
  }

  lemma NextMessage(messages: seq<Message>, i: nat, c: nat)
    requires i < |messages|
    ensures Where(messages[..i + 1], In(c)) ==
            Where(messages[..i], In(c)) + if messages[i].conversation == c then [messages[i]] else []
  {
    assert messages[..i + 1] == messages[..i] + [messages[i]];
    AppendedRow(messages[..i], messages[i], c);
  }

  ghost predicate Grouped(grouped: map<nat, seq<Message>>, messages: seq<Message>) {
    forall c: nat :: GetOr(grouped, c, []) == Where(messages, In(c))
  }

  /** Fills a map from conversation to its messages; `order` is the order of its keys. */
  method GroupByConversation(messages: seq<Message>) returns (order: seq<nat>, grouped: map<nat, seq<Message>>)
    ensures order == FirstSeen(messages)
    ensures forall c :: c in grouped <==> c in order
    ensures Grouped(grouped, messages)
  {
    order, grouped := [], map[];
    for i := 0 to |messages|
      invariant order == FirstSeen(messages[..i])
      invariant forall c :: c in grouped <==> c in order
      invariant Grouped(grouped, messages[..i])
    {
      var message := messages[i];
      assert messages[..i + 1][..i] == messages[..i];
      var group := GetOr(grouped, message.conversation, []);
      if message.conversation !in grouped {
        order := order + [message.conversation];
      }
      grouped := grouped[message.conversation := group + [message]];
      forall c: nat ensures GetOr(grouped, c, []) == Where(messages[..i + 1], In(c)) {
        NextMessage(messages, i, c);
      }
    }
    assert messages[..|messages|] == messages;
  }

  method CountByConversation(messages: seq<Message>) returns (counts: map<nat, nat>)
    ensures forall c: nat :: GetOr(counts, c, 0) == |Where(messages, In(c))|
  {
    counts := map[];
    for i := 0 to |messages|
      invariant forall c: nat :: GetOr(counts, c, 0) == |Where(messages[..i], In(c))|
    {
      var conversation := messages[i].conversation;
      counts := counts[conversation := GetOr(counts, conversation, 0) + 1];
      forall c: nat ensures GetOr(counts, c, 0) == |Where(messages[..i + 1], In(c))| {
        NextMessage(messages, i, c);
      }
    }
    assert messages[..|messages|] == messages;
  }

  // ----- the writer -----

  lemma PassByGroups(s: Store, now: int, skipped: set<nat>)
    ensures var pending := Pending(s.live, now - ARCHIVE_AGE, skipped);
      && Attempted(s, now, skipped, None) == ArchiveGroups(s, pending, FirstSeen(pending))
      && (Clashes(s, MessageStore.Archive(now, skipped)) <==> !Attempted(s, now, skipped, None).complete)
      && ArchivePass(s, now, skipped) == (if Attempted(s, now, skipped, None).complete
                                          then Attempted(s, now, skipped, None).store
                                 else s.(objects := Attempted(s, now, skipped, None).store.objects))
      && (pending == [] ==> ArchivePass(s, now, skipped) == s)
  {
  }

  lemma GroupsStep(s: Store, pending: seq<Message>, order: seq<nat>, g: nat)
    requires g < |order|
    ensures var group := Where(pending, In(order[g]));
      ArchiveGroups(s, pending, order[g..]) ==
        if KeyTaken(s.manifests, group) then Attempt(s.(objects := s.objects[KeyFor(group) := group]), false)
        else ArchiveGroups(MessageStore.ArchiveGroup(s, group), pending, order[g + 1..])
  {
    assert order[g..][1..] == order[g + 1..];
  }

  lemma GroupsEnd(s: Store, pending: seq<Message>, order: seq<nat>)
    ensures ArchiveGroups(s, pending, order[|order|..]) == Attempt(s, true)
  {
  }

  class MessageTiers {
    var live: seq<Message>
    var manifests: seq<Manifest>
    var objects: map<Key, seq<Message>>
    ghost var log: seq<Message>

    function Contents(): Store
      reads this
    {
      Store(live, manifests, objects)
    }

    ghost predicate Valid()
      reads this
    {
      Inv(Contents(), log)
    }

    constructor ()
      ensures Valid() && log == [] && Contents() == Store([], [], map[])
    {
      live, manifests, objects, log := [], [], map[], [];
      new;
      HistoryInv([]);
    }

    /** Inserts a row unless its id is taken by a live one. */
    method Append(message: Message) returns (inserted: bool)
      requires Valid()
      modifies this`live, this`log
      ensures inserted <==> forall m | m in old(live) :: m.id != message.id
      ensures Contents() == if inserted then Apply(old(Contents()), MessageStore.Append(message)) else old(Contents())
      ensures log == if inserted then old(log) + [message] else old(log)
      ensures !inserted ==> Valid()
      ensures Sendable(old(Contents()), old(log), message) ==> (Valid() <==> AfterArchive(old(Contents()), message))
    {
      inserted := forall m | m in live :: m.id != message.id;
      if inserted {
        if Sendable(Contents(), log, message) {
          AppendKeepsExactly(Contents(), log, message);
        }
        live, log := live + [message], log + [message];
      }
    }

    /** `locked` says whether the advisory lock was obtained, `skipped` which rows others hold. A manifest that is
        refused rolls the tables back and fails the pass. */
    method Archive(now: int, locked: bool, skipped: set<nat>) returns (worked: bool)
      requires Valid()
      modifies this`live, this`manifests, this`objects
      ensures worked <==> locked && Pending(old(live), now - ARCHIVE_AGE, skipped) != []
                          && !Clashes(old(Contents()), MessageStore.Archive(now, skipped))
      ensures Contents() == if locked then ArchivePass(old(Contents()), now, skipped) else old(Contents())
      // what a finished pass takes is due, the oldest first, and with a batch that is not full all that is due
      ensures worked ==> TakesTheDue(old(live), live, now, skipped) && Gone(old(live), live) != {}
      ensures worked ==> AllArchived(Gone(old(live), live), manifests)
      ensures !worked ==> live == old(live) && manifests == old(manifests)
      ensures locked && !worked && (exists m | m in old(live) :: IsDue(m, now, skipped)) ==>
        Clashes(old(Contents()), MessageStore.Archive(now, skipped))
      ensures worked ==> (Valid() <==> SkipsNoOlder(old(live), now - ARCHIVE_AGE, skipped))
      ensures !worked ==> Valid()
    {
      if !locked { return false; }
      PassByGroups(Contents(), now, skipped);
      SomethingGoes(Contents(), now, skipped);
      hide TakesTheDue;
      hide Gone;
      hide IsDue;
      hide Inv;
      hide Pending;
      hide Where;
      hide KeyTaken;
      hide ArchiveGroups;
      hide Attempted;
      hide ArchivePass;
      hide Clashes;
      hide SkipsNoOlder;
      var pending := Pending(live, now - ARCHIVE_AGE, skipped);
      if pending == [] { return false; }
      ghost var was := Contents();
      var savedLive, savedManifests := live, manifests;
      var order, grouped := GroupByConversation(pending);
      assert order[0..] == order;
      for g := 0 to |order|
        invariant ArchiveGroups(Contents(), pending, order[g..]) == Attempted(was, now, skipped, None)
      {
        GroupsStep(Contents(), pending, order, g);
        assert order[g] in order && grouped[order[g]] == GetOr(grouped, order[g], []);
        var inserted := ArchiveGroup(grouped[order[g]]);
        if !inserted {
          live, manifests := savedLive, savedManifests;
          SameTables(was, log, objects);
          return false;
        }
      }
      GroupsEnd(Contents(), pending, order);
      PassTakesTheDue(was, now, skipped);
      PassKeepsExactly(was, log, now, skipped);
      worked := true;
    }

    /** Puts the batch, reads it back and only then touches the tables, where its key must be new. */
    method ArchiveGroup(group: seq<Message>) returns (inserted: bool)
      modifies this`live, this`manifests, this`objects
      ensures inserted == !KeyTaken(old(manifests), group)
      ensures inserted ==> Contents() == MessageStore.ArchiveGroup(old(Contents()), group)
      ensures !inserted ==> Contents() == old(Contents()).(objects := old(objects)[KeyFor(group) := group])
    {
      if group == [] { return true; }
      var manifest := ManifestFor(group);
      objects := objects[manifest.key := group];
      assert Decode(objects, manifest) == Some(group);
      if exists m :: m in manifests && m.key == manifest.key {
        return false;
      }
      manifests := manifests + [manifest];
      live := Where(live, Outside(Ids(group)));
      inserted := true;
    }
  }

  // ----- the reader -----

  /** `manifests` are the rows its query returns, `fetched` the objects as the store answers for each. */
  method ForConversations(manifests: seq<Manifest>, fetched: map<Key, seq<Message>>, conversations: seq<nat>,
                          limits: map<nat, int>)
    returns (r: Result<map<nat, seq<Message>>, nat>)
    requires forall c | c in conversations :: c in limits
    ensures r.Success? ==> forall c | c in conversations ::
        Taken(manifests, fetched, limits[c], c) == Some(GetOr(r.value, c, []))
    ensures r.Failure? ==> r.error in conversations && Taken(manifests, fetched, limits[r.error], r.error) == None
  {
    hide OnTrack;
    hide Taken;
    hide Listed;
    var listed := Listed(manifests, conversations);
    var remaining, bundles: map<nat, seq<Message>> := limits, map[];
    ListedAmong(manifests, conversations);
    StartReading(listed, fetched, conversations, limits);
    for i := 0 to |listed|
      invariant Reading(listed, i, fetched, conversations, limits, bundles, remaining)
    {
      var conversation := listed[i].conversation;
      var limit := remaining[conversation];
      if limit <= 0 {
        SkipReading(listed, i, fetched, conversations, limits, bundles, remaining);
        continue;
      }
      var decoded := Decode(fetched, listed[i]);
      if decoded.None? {
        FailReading(manifests, i, fetched, conversations, limits, bundles, remaining);
        return Failure(conversation);
      }
      var selected := LastN(decoded.value, limit);
      TakeReading(listed, i, fetched, conversations, limits, bundles, remaining, selected);
      bundles := bundles[conversation := GetOr(bundles, conversation, []) + selected];
      remaining := remaining[conversation := limit - |selected|];
    }
    FinishReading(manifests, fetched, conversations, limits, bundles, remaining);
    r := Success(bundles);
  }

  // ----- the loader -----

  datatype Shown = Shown(message: Message, parts: seq<string>)

  function ShownWith(messages: seq<Message>, live: seq<Message>, records: seq<Message>): seq<Shown> {
    seq(|messages|, i requires 0 <= i < |messages| => Shown(messages[i], PartsShown(live, records, messages[i].id)))
  }

  /** All that a batch takes from the archive. */
  function Records(first: Store, second: Store, fetched: map<Key, seq<Message>>,
                   conversations: seq<nat>): seq<Message>
  {
    if conversations == [] then []
    else
      var c := conversations[|conversations| - 1];
      Records(first, second, fetched, conversations[..|conversations| - 1])
        + TakenBy(first, second, fetched, c).UnwrapOr([])
  }

  ghost predicate Distinct(conversations: seq<nat>) {
    forall i, j | 0 <= i < j < |conversations| :: conversations[i] != conversations[j]
  }

  lemma RearrangedMembers(taken: Option<seq<Message>>, archived: seq<Message>, limit: nat)
    requires Rearranges(taken, LastN(archived, limit))
    ensures forall m | m in taken.value :: m in archived
  {
    LastNMembers(archived, limit);
    forall m | m in taken.value ensures m in archived {
      assert m in multiset(taken.value);
    }
  }

  lemma CollectedIsArchived(s: Store, log: seq<Message>, c: nat, fetched: map<Key, seq<Message>>, limit: nat)
    requires Inv(s, log)
    ensures var taken := Taken(s.manifests, fetched, limit, c);
      taken.Some? ==> forall m | m in taken.value :: m in Contents(Where(s.manifests, ManifestOf(c)))
  {
    hide Inv;
    hide Where;
    hide OrderBy;
    hide Collect;
    hide Contents;
    hide Missing;
    hide Rearranges;
    ArchivedNewest(s, log, c, fetched, limit);
    var taken := Taken(s.manifests, fetched, limit, c);
    if taken.Some? {
      RearrangedMembers(taken, Contents(Where(s.manifests, ManifestOf(c))), limit);
    }
  }

  lemma ArchivedIsOwn(s: Store, log: seq<Message>, c: nat)
    requires Inv(s, log)
    ensures forall m | m in Contents(Where(s.manifests, ManifestOf(c))) :: m.conversation == c && m in log
  {
    hide Inv;
    hide Where;
    hide Contents;
    forall m | m in Contents(Where(s.manifests, ManifestOf(c))) ensures m.conversation == c && m in log {
      InContents(s, log, c, m);
    }
  }

  /** What a conversation takes from the archive is its own. */
  lemma TakenIsOwn(first: Store, second: Store, longer: seq<Message>, fetched: map<Key, seq<Message>>, c: nat)
    requires Inv(second, longer)
    ensures forall m | m in TakenBy(first, second, fetched, c).UnwrapOr([]) :: m.conversation == c && m in longer
  {
    hide Inv;
    hide Taken;
    hide TakenBy;
    hide Where;
    hide Contents;
    var limit: nat := MAXIMUM_MESSAGES - |NewestLive(first.live, c, MAXIMUM_MESSAGES)|;
    hide NewestLive;
    QuotaTakes(first, second, fetched, c, limit);
    CollectedIsArchived(second, longer, c, fetched, limit);
    ArchivedIsOwn(second, longer, c);
  }

  lemma LoadIsOwn(first: Store, log: seq<Message>, second: Store, longer: seq<Message>,
                  fetched: map<Key, seq<Message>>, c: nat)
    requires Inv(first, log) && Inv(second, longer) && TakenBy(first, second, fetched, c).Some?
    ensures LoadReads(first.live, second.manifests, fetched, c)
         == Some(Merge(NewestLive(first.live, c, MAXIMUM_MESSAGES), TakenBy(first, second, fetched, c).value))
    ensures forall m | m in LoadReads(first.live, second.manifests, fetched, c).value :: m.conversation == c
  {
    var current, taken := NewestLive(first.live, c, MAXIMUM_MESSAGES), TakenBy(first, second, fetched, c).value;
    ReadsOf(first, log, second.manifests, fetched, c);
    CurrentIsLogged(first, log, c);
    TakenIsOwn(first, second, longer, fetched, c);
    Orders();
    OrderByMembers(current + taken, ByTime);
    LastNMembers(OrderBy(current + taken, ByTime), MAXIMUM_MESSAGES);
  }

  /** One conversation's share of the messages and of the records gathered so far. */
  ghost predicate Gathered(first: Store, second: Store, fetched: map<Key, seq<Message>>,
                           messages: seq<Message>, conversations: seq<nat>) {
    && (forall c | c in conversations ::
          LoadReads(first.live, second.manifests, fetched, c) == Some(Where(messages, In(c))))
    && (forall m | m in messages :: m.conversation in conversations)
  }

  lemma GatheredShare(first: Store, second: Store, fetched: map<Key, seq<Message>>,
                      messages: seq<Message>, merged: seq<Message>, conversations: seq<nat>, i: nat)
    requires i < |conversations| && conversations[i] !in conversations[..i]
    requires LoadReads(first.live, second.manifests, fetched, conversations[i]) == Some(merged)
    requires forall m | m in merged :: m.conversation == conversations[i]
    requires Gathered(first, second, fetched, messages, conversations[..i])
    ensures Gathered(first, second, fetched, messages + merged, conversations[..i + 1])
  {
    var id := conversations[i];
    assert conversations[..i + 1] == conversations[..i] + [id];
    hide LoadReads;
    hide Where;
    hide Share;
    forall c | c in conversations[..i + 1]
      ensures LoadReads(first.live, second.manifests, fetched, c) == Some(Where(messages + merged, In(c)))
    {
      AddedShare(messages, merged, id, c);
    }
  }

  lemma GroupedLoads(first: Store, second: Store, fetched: map<Key, seq<Message>>,
                     messages: seq<Message>, grouped: map<nat, seq<Message>>, conversations: seq<nat>)
    requires Gathered(first, second, fetched, messages, conversations) && Grouped(grouped, messages)
    ensures forall i | 0 <= i < |conversations| ::
      LoadReads(first.live, second.manifests, fetched, conversations[i]) == Some(GetOr(grouped, conversations[i], []))
  {
    hide LoadReads;
    hide GetOr;
    hide Where;
    forall i | 0 <= i < |conversations|
      ensures LoadReads(first.live, second.manifests, fetched, conversations[i])
        == Some(GetOr(grouped, conversations[i], []))
    {
      assert conversations[i] in conversations;
    }
  }

  lemma AddedShare(messages: seq<Message>, merged: seq<Message>, id: nat, c: nat)
    requires forall m | m in merged :: m.conversation == id
    ensures c != id ==> Where(messages + merged, In(c)) == Where(messages, In(c))
    ensures c == id && (forall m | m in messages :: m.conversation != id) ==> Where(messages + merged, In(c)) == merged
  {
    hide Where;
    hide Share;
    WhereConcat(messages, merged, In(c));
    if c != id {
      WhereNone(merged, In(c));
      assert Where(messages, In(c)) + [] == Where(messages, In(c));
    } else if forall m | m in messages :: m.conversation != id {
      WhereNone(messages, In(id));
      WhereAll(merged, In(id));
      assert [] + merged == merged;
    }
  }

  lemma {:induction false} RecordsShare(first: Store, second: Store, longer: seq<Message>,
                                        fetched: map<Key, seq<Message>>, conversations: seq<nat>)
    requires Inv(second, longer) && Distinct(conversations)
    ensures forall c | c in conversations ::
      Where(Records(first, second, fetched, conversations), In(c)) == TakenBy(first, second, fetched, c).UnwrapOr([])
    ensures forall m | m in Records(first, second, fetched, conversations) ::
      m.conversation in conversations && m in longer
  {
    if conversations != [] {
      var init, id := conversations[..|conversations| - 1], conversations[|conversations| - 1];
      RecordsShare(first, second, longer, fetched, init);
      TakenIsOwn(first, second, longer, fetched, id);
      assert conversations == init + [id];
      hide Where;
      hide TakenBy;
      hide Inv;
      forall c | c in conversations
        ensures Where(Records(first, second, fetched, conversations), In(c))
          == TakenBy(first, second, fetched, c).UnwrapOr([])
      {
        AddedShare(Records(first, second, fetched, init), TakenBy(first, second, fetched, id).UnwrapOr([]), id, c);
      }
    }
  }

  lemma QuotaTakes(first: Store, second: Store, fetched: map<Key, seq<Message>>, c: nat, limit: int)
    requires limit == MAXIMUM_MESSAGES - |NewestLive(first.live, c, MAXIMUM_MESSAGES)|
    ensures Taken(second.manifests, fetched, limit, c) == TakenBy(first, second, fetched, c)
  {
  }

  /** Loads several conversations at once: `first` is the database when the live rows are read, `second` when the
      manifests are, `fetched` what the object store answers, `third` the database when the parts are read. The
      data loader hands over each conversation once. */
  method LoadMany(first: Store, second: Store, fetched: map<Key, seq<Message>>, third: Store, conversations: seq<nat>,
                  ghost log: seq<Message>, ghost longer: seq<Message>) returns (r: Option<seq<seq<Shown>>>)
    requires Inv(first, log) && Inv(second, longer) && Distinct(conversations)
    ensures r.None? <==> exists c :: c in conversations && TakenBy(first, second, fetched, c).None?
    ensures r.Some? ==> |r.value| == |conversations|
    ensures r.Some? ==> forall i | 0 <= i < |conversations| ::
        LoadReads(first.live, second.manifests, fetched, conversations[i]).Some? &&
        r.value[i] == ShownWith(LoadReads(first.live, second.manifests, fetched, conversations[i]).value,
                                third.live, Records(first, second, fetched, conversations))
  {
    hide Where;
    hide Share;
    hide MessagesFor;
    hide Merge;
    hide Inv;
    hide NewestLive;
    hide Taken;
    hide TakenBy;
    hide LoadReads;
    hide ShownWith;
    var current := MessagesFor(first.live, conversations, MAXIMUM_MESSAGES);
    var counts := CountByConversation(current);
    var limits := map c | c in conversations :: MAXIMUM_MESSAGES - GetOr(counts, c, 0);
    forall c | c in conversations
      ensures Where(current, In(c)) == NewestLive(first.live, c, MAXIMUM_MESSAGES)
      ensures Taken(second.manifests, fetched, limits[c], c) == TakenBy(first, second, fetched, c)
    {
      RankedShare(first, log, conversations, MAXIMUM_MESSAGES, c);
      QuotaTakes(first, second, fetched, c, limits[c]);
    }
    var archived := ForConversations(second.manifests, fetched, conversations, limits);
    if archived.Failure? {
      return None;
    }
    var messages: seq<Message>, records: seq<Message> := [], [];
    for i := 0 to |conversations|
      invariant Gathered(first, second, fetched, messages, conversations[..i])
      invariant records == Records(first, second, fetched, conversations[..i])
    {
      hide Gathered;
      hide GetOr;
      var id := conversations[i];
      var taken := GetOr(archived.value, id, []);
      var merged := Merge(Where(current, In(id)), taken);
      LoadIsOwn(first, log, second, longer, fetched, id);
      GatheredShare(first, second, fetched, messages, merged, conversations, i);
      assert conversations[..i + 1][..i] == conversations[..i];
      messages := messages + merged;
      records := records + taken;
    }
    assert conversations[..|conversations|] == conversations;
    var _, grouped := GroupByConversation(messages);
    GroupedLoads(first, second, fetched, messages, grouped, conversations);
    hide Gathered;
    hide Grouped;
    hide GetOr;
    r := Some(seq(|conversations|, i requires 0 <= i < |conversations| =>
      ShownWith(GetOr(grouped, conversations[i], []), third.live, records)));
  }

  // ----- what a batch shows -----

  /** Each of the messages with its parts. */
  function Whole(messages: seq<Message>): seq<Shown> {
    seq(|messages|, i requires 0 <= i < |messages| => Shown(messages[i], messages[i].parts))
  }

  lemma WholeExactly(messages: seq<Message>, live: seq<Message>, records: seq<Message>, wanted: seq<Message>)
    ensures ShownWith(messages, live, records) == Whole(wanted)
       <==> messages == wanted && ShownWhole(live, records, messages)
  {
    hide PartsShown;
    var shown := ShownWith(messages, live, records);
    if shown == Whole(wanted) {
      assert |messages| == |shown| == |wanted|;
      forall i | 0 <= i < |messages|
        ensures messages[i] == wanted[i] && PartsShown(live, records, messages[i].id) == messages[i].parts
      {
        assert shown[i] == Whole(wanted)[i];
      }
    }
  }

  /** In a history that uses no archived id again, each conversation of a batch gets the newest fifty messages of
      the log of the first read, each with its parts, exactly if that read found fifty of them or none of the
      conversation was archived before the second, and all it found are still live at the last or have no parts. */
  lemma BatchShowsExactly(events: seq<Event>, between: seq<Event>, after: seq<Event>, conversations: seq<nat>,
                          fetched: map<Key, seq<Message>>, c: nat)
    requires Legal(events + between + after) && NoReuse(events + between + after)
    requires Distinct(conversations) && c in conversations
    requires TakenBy(After(events), After(events + between), fetched, c).Some?
    ensures var first, second, third := After(events), After(events + between), After(events + between + after);
      var shown := LoadReads(first.live, second.manifests, fetched, c);
      && shown.Some?
      && (ShownWith(shown.value, third.live, Records(first, second, fetched, conversations))
            == Whole(LastN(Share(Log(events), c), 50))
          <==> (Filled(first, c) || NoneMoved(first, second, c)) && StillLive(first, third, c))
  {
    var first, second, third := After(events), After(events + between), After(events + between + after);
    var records := Records(first, second, fetched, conversations);
    HistoryGrows(events + between, after);
    HistoryInv(events + between);
    RecordsShare(first, second, Log(events + between), fetched, conversations);
    hide Inv;
    hide After;
    hide Log;
    hide Legal;
    hide NoReuse;
    hide Where;
    hide Share;
    hide TakenBy;
    hide Records;
    assert Fetched(records, Log(events + between + after), TakenBy(first, second, fetched, c).value, c);
    LoadedWellExactly(events, between, after, c, fetched, records);
    var wanted := LastN(Share(Log(events), c), MAXIMUM_MESSAGES);
    WholeExactly(LoadReads(first.live, second.manifests, fetched, c).value, third.live, records, wanted);
  }
}
