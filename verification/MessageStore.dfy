/** Messages in two tiers: rows of the live table, and batches moved to archive objects
    that manifests point at. The history of appended messages is the reference. */
module MessageStore {
  import opened Queries

  const MAXIMUM_MESSAGES: nat := 50
  const ARCHIVE_BATCH: nat := 500
  const ARCHIVE_AGE: int := 90 * 24 * 60 * 60 * 1_000

  /** `body` stands for role and status. The rows of a live message's `parts` come and go with its own
      row; a batch holds both. */
  datatype Message = Message(id: nat, conversation: nat, createdAt: int, body: string, parts: seq<string>)

  datatype Key = Key(conversation: nat, first: nat, last: nat)

  /** The checksum is an injective digest, so it is the encoded batch itself. */
  datatype Manifest = Manifest(conversation: nat, key: Key, checksum: seq<Message>, fromAt: int)

  datatype Store = Store(live: seq<Message>, manifests: seq<Manifest>, objects: map<Key, seq<Message>>)

  function In(conversation: nat): Message -> bool {
    (m: Message) => m.conversation == conversation
  }

  function ManifestOf(conversation: nat): Manifest -> bool {
    (m: Manifest) => m.conversation == conversation
  }

  function OlderThan(cutoff: int): Message -> bool {
    (m: Message) => m.createdAt < cutoff
  }

  function Outside(ids: set<nat>): Message -> bool {
    (m: Message) => m.id !in ids
  }

  predicate ByTime(a: Message, b: Message) { a.createdAt <= b.createdAt }

  predicate ByTimeAndId(a: Message, b: Message) {
    a.createdAt < b.createdAt || (a.createdAt == b.createdAt && a.id <= b.id)
  }

  predicate NewestFirst(a: Manifest, b: Manifest) { a.fromAt >= b.fromAt }

  // ----- reading -----

  function Decode(objects: map<Key, seq<Message>>, manifest: Manifest): Option<seq<Message>> {
    if manifest.key in objects && objects[manifest.key] == manifest.checksum
    then Some(objects[manifest.key]) else None
  }

  /** What one conversation takes from its manifests, newest first, within its quota. */
  function Collect(manifests: seq<Manifest>, objects: map<Key, seq<Message>>, limit: int): Option<seq<Message>> {
    if manifests == [] || limit <= 0 then Some([])
    else match Decode(objects, manifests[0])
      case None => None
      case Some(records) =>
        var selected := LastN(records, limit);
        Prepend(selected, Collect(manifests[1..], objects, limit - |selected|))
  }

  function Prepend(head: seq<Message>, tail: Option<seq<Message>>): Option<seq<Message>> {
    match tail
    case None => None
    case Some(messages) => Some(head + messages)
  }

  /** The newest `first` rows of one conversation, oldest of them first. */
  function NewestLive(live: seq<Message>, conversation: nat, first: nat): seq<Message> {
    LastN(Share(live, conversation), first)
  }

  function Merge(current: seq<Message>, archived: seq<Message>): seq<Message> {
    LastN(OrderBy(current + archived, ByTime), MAXIMUM_MESSAGES)
  }

  /** A load from what its reads see: the live rows, then the manifests, then the objects as fetched. */
  function LoadReads(live: seq<Message>, manifests: seq<Manifest>, fetched: map<Key, seq<Message>>, conversation: nat):
    Option<seq<Message>>
  {
    var current := NewestLive(live, conversation, MAXIMUM_MESSAGES);
    var listed := OrderBy(Where(manifests, ManifestOf(conversation)), NewestFirst);
    match Collect(listed, fetched, MAXIMUM_MESSAGES - |current|)
    case None => None
    case Some(archived) => Some(Merge(current, archived))
  }

  /** A load that nothing comes between. */
  function Load(s: Store, conversation: nat): Option<seq<Message>> {
    LoadReads(s.live, s.manifests, s.objects, conversation)
  }

  // ----- archiving -----

  /** `skipped` are the ids of the rows that other transactions hold when the batch is selected. */
  function Pending(live: seq<Message>, cutoff: int, skipped: set<nat>): seq<Message> {
    Limit(OrderBy(Where(Where(live, Outside(skipped)), OlderThan(cutoff)), ByTimeAndId), ARCHIVE_BATCH)
  }

  /** Conversations in order of first appearance, as a `Map` keeps its keys. */
  function FirstSeen(messages: seq<Message>): seq<nat> {
    if messages == [] then []
    else
      var seen := FirstSeen(messages[..|messages| - 1]);
      var conversation := messages[|messages| - 1].conversation;
      if conversation in seen then seen else seen + [conversation]
  }

  function Ids(messages: seq<Message>): set<nat> {
    set m | m in messages :: m.id
  }

  function KeyFor(group: seq<Message>): Key
    requires group != []
  {
    Key(group[0].conversation, group[0].id, group[|group| - 1].id)
  }

  function ManifestFor(group: seq<Message>): Manifest
    requires group != []
  {
    Manifest(group[0].conversation, KeyFor(group), group, group[0].createdAt)
  }

  function ArchiveGroup(s: Store, group: seq<Message>): Store {
    if group == [] then s
    else Store(Where(s.live, Outside(Ids(group))),
               s.manifests + [ManifestFor(group)],
               s.objects[KeyFor(group) := group])
  }

  /** Object keys are unique among manifests. */
  predicate KeyTaken(manifests: seq<Manifest>, group: seq<Message>) {
    group != [] && exists m :: m in manifests && m.key == KeyFor(group)
  }

  datatype Attempt = Attempt(store: Store, complete: bool)

  /** Group by group; where the key of a group is taken, its object has been put before its manifest
      is refused. */
  function ArchiveGroups(s: Store, pending: seq<Message>, conversations: seq<nat>): Attempt
    decreases |conversations|
  {
    if conversations == [] then Attempt(s, true)
    else
      var group := Where(pending, In(conversations[0]));
      if KeyTaken(s.manifests, group)
      then Attempt(s.(objects := s.objects[KeyFor(group) := group]), false)
      else ArchiveGroups(ArchiveGroup(s, group), pending, conversations[1..])
  }

  /** The conversations a pass archives, or the first `groups` of them. */
  function PassOrder(s: Store, now: int, skipped: set<nat>, groups: Option<nat>): seq<nat> {
    var order := FirstSeen(Pending(s.live, now - ARCHIVE_AGE, skipped));
    if groups.Some? then Limit(order, groups.value) else order
  }

  function Attempted(s: Store, now: int, skipped: set<nat>, groups: Option<nat>): Attempt {
    ArchiveGroups(s, Pending(s.live, now - ARCHIVE_AGE, skipped), PassOrder(s, now, skipped, groups))
  }

  /** A refused manifest aborts the pass: the transaction rolls the tables back, the object store keeps
      what was put. */
  function ArchivePass(s: Store, now: int, skipped: set<nat>): Store {
    var attempt := Attempted(s, now, skipped, None);
    if attempt.complete then attempt.store else s.(objects := attempt.store.objects)
  }

  /** So does any failure after the objects of the first `done` groups. */
  function AbortedPass(s: Store, now: int, skipped: set<nat>, done: nat): Store {
    s.(objects := Attempted(s, now, skipped, Some(done)).store.objects)
  }

  // ----- histories -----

  datatype Event =
    | Append(message: Message)
    | Archive(now: int, skipped: set<nat>)
    | Abort(now: int, skipped: set<nat>, done: nat)

  function Apply(s: Store, event: Event): Store {
    match event
    case Append(message) => s.(live := s.live + [message])
    case Archive(now, skipped) => ArchivePass(s, now, skipped)
    case Abort(now, skipped, done) => AbortedPass(s, now, skipped, done)
  }

  /** A pass puts an object under the key of a batch that is already there. */
  predicate Clashes(s: Store, event: Event) {
    match event
    case Append(_) => false
    case Archive(now, skipped) => !Attempted(s, now, skipped, None).complete
    case Abort(now, skipped, done) => !Attempted(s, now, skipped, Some(done)).complete
  }

  function Log(events: seq<Event>): seq<Message> {
    if events == [] then []
    else
      var log := Log(events[..|events| - 1]);
      match events[|events| - 1]
      case Append(message) => log + [message]
      case _ => log
  }

  function After(events: seq<Event>): Store {
    if events == [] then Store([], [], map[])
    else Apply(After(events[..|events| - 1]), events[|events| - 1])
  }

  /** A new message has an id no live message has and a time no other of its conversation has. */
  predicate Sendable(s: Store, log: seq<Message>, message: Message) {
    && (forall m | m in s.live :: m.id != message.id)
    && (forall m | m in log && m.conversation == message.conversation :: m.createdAt != message.createdAt)
  }

  /** It may become visible late, after newer ones, but is newer than all of its conversation that is archived. */
  predicate AfterArchive(s: Store, message: Message) {
    forall f, m | f in s.manifests && m in f.checksum && m.conversation == message.conversation ::
      m.createdAt < message.createdAt
  }

  /** Of each conversation no row is archived before an older one that is skipped. */
  predicate SkipsNoOlder(live: seq<Message>, cutoff: int, skipped: set<nat>) {
    forall m, x | m in Pending(live, cutoff, skipped) && x in live && x.conversation == m.conversation
      && x.id in skipped ::
      m.createdAt < x.createdAt
  }

  predicate Fits(s: Store, log: seq<Message>, event: Event) {
    match event
    case Append(message) => Sendable(s, log, message) && AfterArchive(s, message)
    case Archive(now, skipped) => SkipsNoOlder(s.live, now - ARCHIVE_AGE, skipped)
    case Abort(now, skipped, _) => SkipsNoOlder(s.live, now - ARCHIVE_AGE, skipped)
  }

  predicate Legal(events: seq<Event>) {
    forall i | 0 <= i < |events| :: Fits(After(events[..i]), Log(events[..i]), events[i])
  }

  function Contents(manifests: seq<Manifest>): seq<Message> {
    if manifests == [] then [] else manifests[0].checksum + Contents(manifests[1..])
  }

  ghost predicate WellFormed(manifest: Manifest) {
    manifest.checksum != [] && manifest == ManifestFor(manifest.checksum)
  }

  /** One conversation's messages among the rows, oldest first. */
  function Share(rows: seq<Message>, conversation: nat): seq<Message> {
    OrderBy(Where(rows, In(conversation)), ByTimeAndId)
  }

  /** One conversation's archived batches, in the order written, followed by its live rows, oldest first, are its
      share of the log. */
  ghost predicate Split(s: Store, log: seq<Message>, conversation: nat) {
    && Share(log, conversation) ==
       Contents(Where(s.manifests, ManifestOf(conversation))) + Share(s.live, conversation)
    && Ascending(Share(log, conversation), ByTime)
  }

  ghost predicate DistinctIds(rows: seq<Message>) {
    forall i, j | 0 <= i < j < |rows| :: rows[i].id != rows[j].id
  }

  ghost predicate DistinctKeys(manifests: seq<Manifest>) {
    forall i, j | 0 <= i < j < |manifests| :: manifests[i].key != manifests[j].key
  }

  ghost predicate Inv(s: Store, log: seq<Message>) {
    && (forall c: nat :: Split(s, log, c))
    && (forall m | m in s.manifests :: WellFormed(m))
    && DistinctKeys(s.manifests) && DistinctIds(s.live)
  }

  /** Every manifest still has the object it was written with. */
  ghost predicate Intact(s: Store) {
    forall m | m in s.manifests :: Decode(s.objects, m).Some?
  }

  // ----- small facts -----

  lemma ShareMembers(rows: seq<Message>, c: nat)
    ensures forall m :: m in Share(rows, c) <==> m in rows && m.conversation == c
  {
    Orders();
    WhereMembers(rows, In(c));
    OrderByMembers(Where(rows, In(c)), ByTimeAndId);
  }

  lemma ShareWhere(rows: seq<Message>, keep: Message -> bool, c: nat)
    ensures Share(Where(rows, keep), c) == Where(Share(rows, c), keep)
  {
    Orders();
    WhereCommutes(rows, keep, In(c));
    OrderByWhere(Where(rows, In(c)), ByTimeAndId, keep);
  }

  lemma Orders()
    ensures Preorder(ByTime) && Preorder(ByTimeAndId) && Preorder(NewestFirst)
  {
  }

  lemma {:induction false} ContentsSnoc(manifests: seq<Manifest>, m: Manifest)
    ensures Contents(manifests + [m]) == Contents(manifests) + m.checksum
  {
    if manifests == [] {
      assert [m][1..] == [];
    } else {
      assert (manifests + [m])[1..] == manifests[1..] + [m];
      ContentsSnoc(manifests[1..], m);
    }
  }

  lemma {:induction false} ContentsHolds(manifests: seq<Manifest>, k: nat, x: Message)
    requires k < |manifests| && x in manifests[k].checksum
    ensures x in Contents(manifests)
  {
    if k > 0 {
      ContentsHolds(manifests[1..], k - 1, x);
    }
  }

  /** Batches of an ascending log start at ascending times. */
  lemma {:induction false} BatchesAscend(manifests: seq<Manifest>, i: nat, j: nat)
    requires i < j < |manifests| && Ascending(Contents(manifests), ByTime)
    requires forall m | m in manifests :: m.checksum != [] && m.fromAt == m.checksum[0].createdAt
    ensures manifests[i].fromAt < manifests[j].fromAt
  {
    AscendingParts(manifests[0].checksum, Contents(manifests[1..]), ByTime);
    if i == 0 {
      assert manifests[j] == manifests[1..][j - 1] && manifests[j] in manifests;
      ContentsHolds(manifests[1..], j - 1, manifests[j].checksum[0]);
      assert manifests[0].checksum[0] in manifests[0].checksum;
      assert !ByTime(manifests[j].checksum[0], manifests[0].checksum[0]);
    } else {
      BatchesAscend(manifests[1..], i - 1, j - 1);
    }
  }

  lemma LiveInLog(s: Store, log: seq<Message>, m: Message)
    requires Inv(s, log) && m in s.live
    ensures m in log
  {
    assert Split(s, log, m.conversation);
    ShareMembers(s.live, m.conversation);
    ShareMembers(log, m.conversation);
    assert m in Share(s.live, m.conversation);
    assert m in Share(log, m.conversation);
  }

  lemma ArchivedInLog(s: Store, log: seq<Message>, manifest: Manifest, x: Message)
    requires Inv(s, log) && manifest in s.manifests && x in manifest.checksum
    ensures x in Contents(Where(s.manifests, ManifestOf(manifest.conversation)))
    ensures x in log && x.conversation == manifest.conversation
  {
    var c := manifest.conversation;
    assert Split(s, log, c);
    WhereMembers(s.manifests, ManifestOf(c));
    var ms := Where(s.manifests, ManifestOf(c));
    var k :| 0 <= k < |ms| && ms[k] == manifest;
    ContentsHolds(ms, k, x);
    ShareMembers(log, c);
    assert x in Share(log, c);
  }

  /** No row is live and in a batch. */
  lemma LiveIsNotArchived(s: Store, log: seq<Message>, manifest: Manifest, x: Message)
    requires Inv(s, log) && manifest in s.manifests && x in manifest.checksum
    ensures x !in s.live
  {
    var c := manifest.conversation;
    ArchivedInLog(s, log, manifest, x);
    assert Split(s, log, c);
    AscendingParts(Contents(Where(s.manifests, ManifestOf(c))), Share(s.live, c), ByTime);
    ShareMembers(s.live, c);
  }

  // ----- the loader shows the newest of the log -----

  lemma LastNOfConcat<T>(a: seq<T>, b: seq<T>, n: nat)
    ensures LastN(a + b, n) == LastN(a, n - |LastN(b, n)|) + LastN(b, n)
  {
  }

  /** The contents of manifests listed newest first, oldest message first. */
  function Backwards(manifests: seq<Manifest>): seq<Message> {
    if manifests == [] then [] else Backwards(manifests[1..]) + manifests[0].checksum
  }

  lemma {:induction false} BackwardsReverse(manifests: seq<Manifest>)
    ensures Backwards(Reverse(manifests)) == Contents(manifests)
  {
    if manifests != [] {
      BackwardsReverse(manifests[1..]);
      BackwardsSnoc(Reverse(manifests[1..]), manifests[0]);
    }
  }

  lemma {:induction false} BackwardsSnoc(manifests: seq<Manifest>, oldest: Manifest)
    ensures Backwards(manifests + [oldest]) == oldest.checksum + Backwards(manifests)
  {
    if manifests == [] {
      assert [oldest][1..] == [];
    } else {
      assert (manifests + [oldest])[1..] == manifests[1..] + [oldest];
      BackwardsSnoc(manifests[1..], oldest);
    }
  }

  ghost predicate Rearranges(a: Option<seq<Message>>, b: seq<Message>) {
    a.Some? && multiset(a.value) == multiset(b)
  }

  lemma SwapBlocks(selected: seq<Message>, older: Option<seq<Message>>, newest: seq<Message>)
    requires Rearranges(older, newest)
    ensures Rearranges(Prepend(selected, older), newest + selected)
  {
  }

  /** A batch that some of the wanted messages lie in is not as it was written. */
  ghost predicate Missing(manifest: Manifest, objects: map<Key, seq<Message>>, wanted: seq<Message>) {
    Decode(objects, manifest).None? && exists x :: x in manifest.checksum && x in wanted
  }

  lemma BackwardsStep(manifests: seq<Manifest>, limit: nat)
    requires manifests != []
    ensures var selected := LastN(manifests[0].checksum, limit);
      LastN(Backwards(manifests), limit) == LastN(Backwards(manifests[1..]), limit - |selected|) + selected
  {
    LastNOfConcat(Backwards(manifests[1..]), manifests[0].checksum, limit);
  }

  ghost predicate AnyMissing(manifests: seq<Manifest>, objects: map<Key, seq<Message>>, wanted: seq<Message>) {
    exists k :: 0 <= k < |manifests| && Missing(manifests[k], objects, wanted)
  }

  lemma {:induction false} InBackwards(manifests: seq<Manifest>, k: nat, x: Message)
    requires k < |manifests| && x in manifests[k].checksum
    ensures x in Backwards(manifests)
  {
    if k > 0 {
      InBackwards(manifests[1..], k - 1, x);
    }
  }

  lemma LastNMembers(s: seq<Message>, n: nat)
    ensures forall x | x in LastN(s, n) :: x in s
  {
  }

  /** Past the newest batch, what is wanted of the others is what their own quota reaches. */
  lemma MissingOlder(manifests: seq<Manifest>, objects: map<Key, seq<Message>>, limit: nat, k: nat)
    requires k + 1 < |manifests| && Ascending(Backwards(manifests), ByTime)
    ensures var selected := LastN(manifests[0].checksum, limit);
      var reached := LastN(Backwards(manifests[1..]), limit - |selected|);
      Missing(manifests[k + 1], objects, reached + selected) <==> Missing(manifests[k + 1], objects, reached)
  {
    var older := manifests[1..];
    var selected := LastN(manifests[0].checksum, limit);
    AscendingParts(Backwards(older), manifests[0].checksum, ByTime);
    LastNMembers(manifests[0].checksum, limit);
    forall x | x in manifests[k + 1].checksum ensures x !in selected {
      assert older[k] == manifests[k + 1];
      InBackwards(older, k, x);
    }
  }

  lemma MissingInRest(manifests: seq<Manifest>, objects: map<Key, seq<Message>>, limit: nat)
    requires manifests != [] && Ascending(Backwards(manifests), ByTime) && Decode(objects, manifests[0]).Some?
    ensures var rest := limit - |LastN(manifests[0].checksum, limit)|;
      AnyMissing(manifests, objects, LastN(Backwards(manifests), limit)) <==>
      AnyMissing(manifests[1..], objects, LastN(Backwards(manifests[1..]), rest))
  {
    var older := manifests[1..];
    var selected := LastN(manifests[0].checksum, limit);
    var wanted, reached := LastN(Backwards(manifests), limit), LastN(Backwards(older), limit - |selected|);
    BackwardsStep(manifests, limit);
    assert !Missing(manifests[0], objects, wanted);
    forall k | 0 <= k < |older|
      ensures Missing(manifests[k + 1], objects, wanted) <==> Missing(older[k], objects, reached)
    {
      MissingOlder(manifests, objects, limit, k);
    }
    hide Missing;
    hide LastN;
    if AnyMissing(manifests, objects, wanted) {
      var k :| 0 <= k < |manifests| && Missing(manifests[k], objects, wanted);
      assert Missing(older[k - 1], objects, reached);
    }
    if AnyMissing(older, objects, reached) {
      var k :| 0 <= k < |older| && Missing(older[k], objects, reached);
      assert Missing(manifests[k + 1], objects, wanted);
    }
  }

  lemma CollectStep(manifests: seq<Manifest>, objects: map<Key, seq<Message>>, limit: nat)
    requires manifests != [] && limit > 0
    ensures var selected := LastN(manifests[0].checksum, limit);
      Collect(manifests, objects, limit) ==
        if Decode(objects, manifests[0]).None? then None
        else Prepend(selected, Collect(manifests[1..], objects, limit - |selected|))
  {
  }

  lemma NewestIsWanted(manifests: seq<Manifest>, objects: map<Key, seq<Message>>, limit: nat)
    requires manifests != [] && limit > 0 && manifests[0].checksum != [] && Decode(objects, manifests[0]).None?
    ensures AnyMissing(manifests, objects, LastN(Backwards(manifests), limit))
  {
    var newest := manifests[0].checksum;
    BackwardsStep(manifests, limit);
    var selected := LastN(newest, limit);
    assert selected[|selected| - 1] == newest[|newest| - 1];
    assert newest[|newest| - 1] in newest && newest[|newest| - 1] in selected;
    assert Missing(manifests[0], objects, LastN(Backwards(manifests), limit));
  }

  ghost predicate Takes(manifests: seq<Manifest>, objects: map<Key, seq<Message>>, limit: nat) {
    var taken := Collect(manifests, objects, limit);
    var wanted := LastN(Backwards(manifests), limit);
    && (taken.Some? ==> Rearranges(taken, wanted))
    && (taken.None? <==> AnyMissing(manifests, objects, wanted))
  }

  lemma PrependTakes(selected: seq<Message>, older: Option<seq<Message>>, reached: seq<Message>)
    requires older.Some? ==> Rearranges(older, reached)
    ensures Prepend(selected, older).Some? <==> older.Some?
    ensures older.Some? ==> Rearranges(Prepend(selected, older), reached + selected)
  {
    if older.Some? {
      SwapBlocks(selected, older, reached);
    }
  }

  lemma TakesOlder(manifests: seq<Manifest>, objects: map<Key, seq<Message>>, limit: nat)
    requires manifests != [] && limit > 0 && Ascending(Backwards(manifests), ByTime)
    requires Decode(objects, manifests[0]).Some?
    requires Takes(manifests[1..], objects, limit - |LastN(manifests[0].checksum, limit)|)
    ensures Takes(manifests, objects, limit)
  {
    var selected := LastN(manifests[0].checksum, limit);
    var rest: nat := limit - |selected|;
    hide Collect;
    hide AnyMissing;
    hide Backwards;
    hide LastN;
    hide Rearranges;
    hide Prepend;
    hide Decode;
    hide Ascending;
    CollectStep(manifests, objects, limit);
    MissingInRest(manifests, objects, limit);
    BackwardsStep(manifests, limit);
    PrependTakes(selected, Collect(manifests[1..], objects, rest), LastN(Backwards(manifests[1..]), rest));
  }

  /** The quota loop over manifests, newest first, takes exactly the newest `limit` archived messages,
      and fails exactly if one of those lies in a batch it cannot read. */
  lemma {:induction false} CollectTakesNewest(manifests: seq<Manifest>, objects: map<Key, seq<Message>>, limit: nat)
    requires Ascending(Backwards(manifests), ByTime) && forall m | m in manifests :: m.checksum != []
    ensures Takes(manifests, objects, limit)
    decreases |manifests|
  {
    if manifests == [] || limit == 0 {
      assert LastN(Backwards(manifests), limit) == [] && Collect(manifests, objects, limit) == Some([]);
    } else if Decode(objects, manifests[0]).None? {
      CollectStep(manifests, objects, limit);
      NewestIsWanted(manifests, objects, limit);
    } else {
      AscendingParts(Backwards(manifests[1..]), manifests[0].checksum, ByTime);
      hide Takes;
      CollectTakesNewest(manifests[1..], objects, limit - |LastN(manifests[0].checksum, limit)|);
      TakesOlder(manifests, objects, limit);
    }
  }

  lemma LiveRowsAscend(s: Store, log: seq<Message>, c: nat)
    requires Split(s, log, c)
    ensures Ascending(Share(s.live, c), ByTime)
    ensures Ascending(Contents(Where(s.manifests, ManifestOf(c))), ByTime)
  {
    var live, archived := Share(s.live, c), Contents(Where(s.manifests, ManifestOf(c)));
    AscendingParts(archived, live, ByTime);
  }

  lemma ManifestsReversed(s: Store, log: seq<Message>, c: nat)
    requires Inv(s, log)
    ensures var ms := Where(s.manifests, ManifestOf(c)); OrderBy(ms, NewestFirst) == Reverse(ms)
    ensures forall m | m in Where(s.manifests, ManifestOf(c)) :: WellFormed(m)
  {
    var ms := Where(s.manifests, ManifestOf(c));
    assert Split(s, log, c);
    LiveRowsAscend(s, log, c);
    WhereMembers(s.manifests, ManifestOf(c));
    forall i, j | 0 <= i < j < |ms| ensures !NewestFirst(ms[i], ms[j]) {
      BatchesAscend(ms, i, j);
    }
    OrderByDescending(ms, NewestFirst);
  }

  /** Merging any arrangement of the newest archived messages behind the newest live rows. */
  lemma MergeIsNewest(archived: seq<Message>, live: seq<Message>, taken: Option<seq<Message>>)
    requires Ascending(archived + live, ByTime)
    requires Rearranges(taken, LastN(archived, MAXIMUM_MESSAGES - |LastN(live, MAXIMUM_MESSAGES)|))
    ensures Merge(LastN(live, MAXIMUM_MESSAGES), taken.value) == LastN(archived + live, MAXIMUM_MESSAGES)
  {
    var current, collected := LastN(live, MAXIMUM_MESSAGES), taken.value;
    var all, newest := archived + live, LastN(archived + live, MAXIMUM_MESSAGES);
    LastNOfConcat(archived, live, MAXIMUM_MESSAGES);
    assert newest == LastN(archived, MAXIMUM_MESSAGES - |current|) + current;
    assert all == all[..|all| - |newest|] + newest;
    AscendingParts(all[..|all| - |newest|], newest, ByTime);
    Orders();
    OrderBySorts(current + collected, ByTime);
    assert multiset(current + collected) == multiset(newest);
    SortedIsUnique(OrderBy(current + collected, ByTime), newest, ByTime);
  }

  lemma ArchivedNewest(s: Store, log: seq<Message>, c: nat, fetched: map<Key, seq<Message>>, limit: nat)
    requires Inv(s, log)
    ensures var ms := Where(s.manifests, ManifestOf(c));
      var taken := Collect(OrderBy(ms, NewestFirst), fetched, limit);
      && (taken.Some? ==> Rearranges(taken, LastN(Contents(ms), limit)))
      && (taken.None? <==> exists m :: m in ms && Missing(m, fetched, LastN(Contents(ms), limit)))
  {
    var ms := Where(s.manifests, ManifestOf(c));
    var wanted := LastN(Contents(ms), limit);
    ManifestsReversed(s, log, c);
    ReverseMembers(ms);
    BackwardsReverse(ms);
    assert Split(s, log, c);
    LiveRowsAscend(s, log, c);
    forall m | m in Reverse(ms) ensures m.checksum != [] {
      assert m in ms;
    }
    CollectTakesNewest(Reverse(ms), fetched, limit);
    if AnyMissing(Reverse(ms), fetched, wanted) {
      var k :| 0 <= k < |Reverse(ms)| && Missing(Reverse(ms)[k], fetched, wanted);
      assert Reverse(ms)[k] in ms;
    }
    if m :| m in ms && Missing(m, fetched, wanted) {
      var k :| 0 <= k < |Reverse(ms)| && Reverse(ms)[k] == m;
      assert AnyMissing(Reverse(ms), fetched, wanted);
    }
  }

  ghost predicate MissingIn(s: Store, c: nat, fetched: map<Key, seq<Message>>, wanted: seq<Message>) {
    exists m :: m in s.manifests && m.conversation == c && Missing(m, fetched, wanted)
  }

  /** Whatever the object store answers, a load between which nothing happens shows the newest fifty
      messages of the log in order, or fails; and it fails exactly if one of them lies in a batch that
      is not as its manifest has it. */
  lemma LoadIsRightOrFails(s: Store, log: seq<Message>, c: nat, fetched: map<Key, seq<Message>>)
    requires Inv(s, log)
    ensures var shown := LoadReads(s.live, s.manifests, fetched, c);
      var wanted := LastN(Share(log, c), MAXIMUM_MESSAGES);
      && (shown.Some? ==> shown.value == wanted)
      && (shown.None? <==> MissingIn(s, c, fetched, wanted))
  {
    hide Inv;
    hide Share;
    hide Where;
    hide Collect;
    hide OrderBy;
    hide Merge;
    hide LoadReads;
    hide MissingIn;
    hide Missing;
    var ms := Where(s.manifests, ManifestOf(c));
    var archived, live := Contents(ms), Share(s.live, c);
    var current := LastN(live, MAXIMUM_MESSAGES);
    var limit := MAXIMUM_MESSAGES - |current|;
    var taken := Collect(OrderBy(ms, NewestFirst), fetched, limit);
    Tiers(s, log, c);
    ReadsOf(s, log, s.manifests, fetched, c);
    ArchivedNewest(s, log, c, fetched, limit);
    LastNOfConcat(archived, live, MAXIMUM_MESSAGES);
    MissingAmong(s, log, c, fetched, LastN(archived, limit), current);
    hide LastN;
    if taken.Some? {
      MergeIsNewest(archived, live, taken);
    }
  }

  lemma Tiers(s: Store, log: seq<Message>, c: nat)
    requires Inv(s, log)
    ensures var archived, live := Contents(Where(s.manifests, ManifestOf(c))), Share(s.live, c);
      Share(log, c) == archived + live && Ascending(archived + live, ByTime)
  {
    assert Split(s, log, c);
  }

  /** The parts of a load whose first read saw `s` and whose second saw `manifests`. */
  lemma ReadsOf(s: Store, log: seq<Message>, manifests: seq<Manifest>, fetched: map<Key, seq<Message>>, c: nat)
    requires Inv(s, log)
    ensures var current := LastN(Share(s.live, c), MAXIMUM_MESSAGES);
      var listed := OrderBy(Where(manifests, ManifestOf(c)), NewestFirst);
      var taken := Collect(listed, fetched, MAXIMUM_MESSAGES - |current|);
      && NewestLive(s.live, c, MAXIMUM_MESSAGES) == current
      && LoadReads(s.live, manifests, fetched, c) == if taken.None? then None else Some(Merge(current, taken.value))
  {
    assert Split(s, log, c);
    LiveRowsAscend(s, log, c);
  }

  lemma MissingAmong(s: Store, log: seq<Message>, c: nat, fetched: map<Key, seq<Message>>, reached: seq<Message>,
                     current: seq<Message>)
    requires Inv(s, log) && current == LastN(Share(s.live, c), MAXIMUM_MESSAGES)
    ensures MissingIn(s, c, fetched, reached + current) <==>
      exists m :: m in Where(s.manifests, ManifestOf(c)) && Missing(m, fetched, reached)
  {
    WhereMembers(s.manifests, ManifestOf(c));
    ShareMembers(s.live, c);
    LastNMembers(Share(s.live, c), MAXIMUM_MESSAGES);
    forall m | m in s.manifests ensures Missing(m, fetched, reached + current) <==> Missing(m, fetched, reached) {
      forall x | x in m.checksum ensures x !in current {
        LiveIsNotArchived(s, log, m, x);
      }
    }
    hide Missing;
  }
}
