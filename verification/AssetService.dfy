/** The parties of the asset protocol as the code that runs them. */
module AssetService {
  import opened AssetProtocol
  import opened AssetHandling
  import opened AssetResults

  class Assets {
    var now: int
    const grace: int
    var ids: Ids
    var store: Store
    var runs: map<nat, Run>
    var normalizers: map<nat, Normalizer>
    var queue: Queue
    var handlers: map<nat, Handler>

    constructor (now: int, grace: int)
      ensures State() == Start(now, grace)
    {
      this.now := now;
      this.grace := grace;
      ids := Ids(map[], map[], map[], map[]);
      store := Store({}, {}, {});
      runs := map[];
      normalizers := map[];
      queue := Queue(map[], 0);
      handlers := map[];
    }

    ghost function State(): World
      reads this
    {
      World(now, grace, ids, store, runs, normalizers, queue, handlers)
    }

    /** Signs first and creates the row second; without a live conversation nobody gets the URL. */
    method CreateUpload(id: nat, live: bool) returns (created: bool)
      requires id !in ids.signed && id !in ids.urls
      modifies this`ids
      ensures created == live
      ensures ids == old(if live then ids.(urls := ids.urls[id := now + URL_LIFETIME],
                                           rows := ids.rows[id := Row(PendingUpload, now)])
                         else ids.(signed := ids.signed[id := now + URL_LIFETIME]))
      // the URL lives for ten minutes
      ensures live ==> id in ids.urls && ids.urls[id] == now + 600
      ensures live ==> Reaches(old(State()), [Client(SignUrl(id)), Client(CreateRow(id))], State())
      ensures !live ==> Reaches(old(State()), [Client(SignUrl(id))], State())
    {
      ghost var start := State();
      ids := ids.(signed := ids.signed[id := now + URL_LIFETIME]);
      ghost var signed := State();
      created := live;
      if live {
        ids := Ids(ids.signed - {id}, ids.urls[id := ids.signed[id]],
                   ids.rows[id := Row(PendingUpload, now)], ids.purges);
        assert ids.signed == old(ids.signed);
        ReachesCons(signed, Client(CreateRow(id)), [], State());
        assert [Client(CreateRow(id))] + [] == [Client(CreateRow(id))];
        ReachesCons(start, Client(SignUrl(id)), [Client(CreateRow(id))], State());
        assert [Client(SignUrl(id))] + [Client(CreateRow(id))] == [Client(SignUrl(id)), Client(CreateRow(id))];
      } else {
        ReachesCons(start, Client(SignUrl(id)), [], State());
        assert [Client(SignUrl(id))] + [] == [Client(SignUrl(id))];
      }
    }

    /** Deletes the row and, in the same transaction, leaves the purge behind. */
    method Delete(id: nat) returns (found: bool)
      modifies this`ids
      ensures found == (id in old(ids.rows))
      ensures !found ==> ids == old(ids)
      ensures found ==> State() == Apply(old(State()), Client(DeleteAsset(id)))
      // the purge is due fifteen minutes after the row was created, and not before now
      ensures found ==> id !in ids.rows && id in ids.purges && !ids.purges[id].published
      ensures found ==> ids.purges[id].notBefore >= now && ids.purges[id].notBefore >= old(ids.rows)[id].createdAt + 900
      ensures found ==> ids.purges[id].notBefore in {now, old(ids.rows)[id].createdAt + 900}
    {
      found := id in ids.rows;
      if found {
        var due := Later(now, ids.rows[id].createdAt + PURGE_FLOOR);
        ids := ids.(rows := ids.rows - {id}, purges := ids.purges[id := Purge(due, false)]);
      }
    }

    /** Handles a received batch message by message; a failure leaves its message in the queue, even
        after the row or the object was changed. */
    method Consume(received: seq<nat>, fate: nat -> Fate)
      requires Waiting(queue, received)
      modifies this`ids, this`store, this`queue
      ensures State() == HandledAll(old(State()), received, fate)
      ensures ResultsDecide(old(State()), received, fate, ids.rows)
      ensures OrphansDeleted(old(State()), received, fate, store.normalized)
    {
      hide ResultsDecide;
      hide OrphansDeleted;
      var i := 0;
      while i < |received|
        invariant 0 <= i <= |received|
        invariant State() == HandledAll(old(State()), received[..i], fate)
      {
        ghost var was := old(State());
        BatchFrame(was, received[..i], fate);
        var m := received[i];
        assert received[..i + 1][..i] == received[..i];
        if !fate(m).GivenUp? {
          var result := queue.messages[m];
          if result.asset in ids.rows && ids.rows[result.asset].status.PendingUpload? {
            var row := ids.rows[result.asset].(status := if result.ready then Ready else Rejected);
            ids := ids.(rows := ids.rows[result.asset := row]);
          } else if result.asset !in ids.rows && result.ready {
            store := store.(normalized := store.normalized - {result.asset});
          }
          queue := if fate(m).Acknowledged?
                   then queue.(messages := queue.messages - {m})
                   else queue.(messages := queue.messages[m := result.(settled := true)]);
        }
        i := i + 1;
      }
      assert received[..|received|] == received;
      BatchDecides(old(State()), received, fate);
    }

    /** The normalizer: the object is put before its result is sent, and anything that fails sends
        a rejection instead. */
    method ProcessRecord(id: nat, decodes: bool, stored: bool, ghost normalizer: nat)
      requires id in store.uploaded && normalizer !in normalizers
      modifies this`store, this`queue
      ensures var ready := id in store.raw && decodes && stored;
              && queue == old(Queue(queue.messages[queue.issued := Message(id, ready, false)], queue.issued + 1))
              && store == old(store).(normalized := old(store.normalized) + if ready then {id} else {})
      ensures Reaches(old(State()), NormalizerSteps(normalizer, id, id in store.raw && decodes && stored), State())
    {
      ghost var start := State();
      var ready := id in store.raw && decodes && stored;
      if ready {
        store := store.(normalized := store.normalized + {id});
      }
      queue := Queue(queue.messages[queue.issued := Message(id, ready, false)], queue.issued + 1);
      NormalizerIsARun(start, normalizer, id, ready);
      assert State() == Normalized(start, id, ready);
    }
  }
}
