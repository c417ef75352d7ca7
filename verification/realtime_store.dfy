/** The frontend's real-time collection stores (frontend/src/services/RealTimeAccess.tsx): one store per
    database collection, holding the collection's records by id, loaded once and then kept current by
    the create, update and delete events of the collection's subscription. The subject's value is
    `None` until the initial load completes. The network, RxJS subscriptions and the polling timer of
    GetStore are not modelled. */
module RealtimeStore {
  import opened Wrappers

  /** A database record as the store sees it. */
  datatype Record = Record(id: string, fields: map<string, string>)

  /** A collection's store: the transformer it was created with and the subject's current value. */
  datatype Store<T> = Store(transformer: Record -> T, value: Option<map<string, T>>)

  /** The module-level `stores` object: the store of every registered collection. */
  type Stores<T> = map<string, Store<T>>

  /** A subscription event: its action name and the record it concerns. */
  datatype Event = Event(action: string, record: Record)

  /** NewStore: an already-registered collection is left as it is; otherwise a store is registered whose
      value stays unset until the initial load (started here, completed by Load). */
  function NewStore<T>(stores: Stores<T>, collection: string, transformer: Record -> T): (r: Stores<T>)
    ensures collection in r
    ensures collection in stores ==> r == stores
    ensures collection !in stores ==>
      && r.Keys == stores.Keys + {collection}
      && r[collection].value.None?
      && (forall c | c in stores :: r[c] == stores[c])
  {
    if collection in stores then stores
    else stores[collection := Store(transformer, None)]
  }

  /** Registering a collection twice is registering it once, whatever the second transformer. */
  lemma NewStoreIsIdempotent<T>(stores: Stores<T>, collection: string, t1: Record -> T, t2: Record -> T)
    ensures NewStore(NewStore(stores, collection, t1), collection, t2) == NewStore(stores, collection, t1)
  {
  }

  /** The loop of the initial load over `records[..n]`: each record's id mapped to its transformation. */
  function LoadMap<T>(records: seq<Record>, transformer: Record -> T): map<string, T>
    decreases |records|
  {
    if records == [] then map[]
    else LoadMap(records[..|records| - 1], transformer)[records[|records| - 1].id := transformer(records[|records| - 1])]
  }

  /** The ids of the records. */
  function Ids(records: seq<Record>): set<string> {
    set i | 0 <= i < |records| :: records[i].id
  }

  /** The loaded map holds exactly the records' ids, each mapped to the transformation of the last record
      carrying it. */
  lemma {:induction false} LoadMapContents<T>(records: seq<Record>, transformer: Record -> T)
    ensures LoadMap(records, transformer).Keys == Ids(records)
    ensures forall i | 0 <= i < |records| && (forall j | i < j < |records| :: records[j].id != records[i].id) ::
      LoadMap(records, transformer)[records[i].id] == transformer(records[i])
    decreases |records|
  {
    if records != [] {
      var init := records[..|records| - 1];
      LoadMapContents(init, transformer);
      assert Ids(records) == Ids(init) + {records[|records| - 1].id} by {
        forall k | k in Ids(records) ensures k in Ids(init) + {records[|records| - 1].id} {
          var i :| 0 <= i < |records| && records[i].id == k;
          if i < |records| - 1 {
            assert init[i].id == k;
          }
        }
        forall k | k in Ids(init) ensures k in Ids(records) {
          var i :| 0 <= i < |init| && init[i].id == k;
          assert records[i].id == k;
        }
      }
      forall i | 0 <= i < |records| && (forall j | i < j < |records| :: records[j].id != records[i].id)
        ensures LoadMap(records, transformer)[records[i].id] == transformer(records[i])
      {
        if i < |records| - 1 {
          assert init[i] == records[i];
          assert forall j | i < j < |init| :: init[j] == records[j];
        }
      }
    }
  }

  /** The initial load: the fetched records, transformed and keyed by id, become the store's value. */
  function Load<T>(store: Store<T>, records: seq<Record>): (r: Store<T>)
    ensures r.transformer == store.transformer && r.value.Some?
    ensures r.value.value.Keys == Ids(records)
    ensures forall i | 0 <= i < |records| && (forall j | 0 <= j < |records| && j != i :: records[j].id != records[i].id) ::
      r.value.value[records[i].id] == store.transformer(records[i])
  {
    LoadMapContents(records, store.transformer);
    Store(store.transformer, Some(LoadMap(records, store.transformer)))
  }

  /** The subscription callback: before the load the event is ignored; "create" and "update" set the
      record's entry, "delete" removes it, any other action changes nothing. */
  function OnEvent<T>(store: Store<T>, ev: Event): (r: Store<T>)
    ensures r.transformer == store.transformer
    ensures store.value.None? ==> r == store
    ensures store.value.Some? && (ev.action == "create" || ev.action == "update") ==>
      && r.value.Some?
      && r.value.value.Keys == store.value.value.Keys + {ev.record.id}
      && r.value.value[ev.record.id] == store.transformer(ev.record)
      && (forall k | k in store.value.value && k != ev.record.id :: r.value.value[k] == store.value.value[k])
    ensures store.value.Some? && ev.action == "delete" ==>
      && r.value.Some?
      && r.value.value.Keys == store.value.value.Keys - {ev.record.id}
      && (forall k | k in r.value.value :: r.value.value[k] == store.value.value[k])
    ensures ev.action != "create" && ev.action != "update" && ev.action != "delete" ==> r == store
  {
    match store.value
    case None => store
    case Some(val) =>
      if ev.action == "create" then store.(value := Some(val[ev.record.id := store.transformer(ev.record)]))
      else if ev.action == "update" then store.(value := Some(val[ev.record.id := store.transformer(ev.record)]))
      else if ev.action == "delete" then store.(value := Some(val - {ev.record.id}))
      else store
  }

  /** The events of a subscription applied in order. */
  function Replay<T>(store: Store<T>, events: seq<Event>): Store<T>
    decreases |events|
  {
    if events == [] then store else Replay(OnEvent(store, events[0]), events[1..])
  }

  /** Events that arrive before the initial load are all ignored. */
  lemma {:induction false} EventsBeforeLoadIgnored<T>(store: Store<T>, events: seq<Event>)
    requires store.value.None?
    ensures Replay(store, events) == store
    decreases |events|
  {
    if events != [] {
      EventsBeforeLoadIgnored(OnEvent(store, events[0]), events[1..]);
    }
  }

  /** Creating a record and deleting it again leaves a loaded store that lacked it as it was. */
  lemma CreateThenDelete<T>(store: Store<T>, rec: Record)
    requires store.value.Some? && rec.id !in store.value.value
    ensures OnEvent(OnEvent(store, Event("create", rec)), Event("delete", rec)) == store
  {
    var val := store.value.value;
    assert val[rec.id := store.transformer(rec)] - {rec.id} == val;
  }

  /** Delivering the same event twice is delivering it once. */
  lemma RepeatedEventIsIdempotent<T>(store: Store<T>, ev: Event)
    ensures OnEvent(OnEvent(store, ev), ev) == OnEvent(store, ev)
  {
    if store.value.Some? && ev.action == "delete" {
      var val := store.value.value;
      assert val - {ev.record.id} - {ev.record.id} == val - {ev.record.id};
    } else if store.value.Some? && (ev.action == "create" || ev.action == "update") {
      var val := store.value.value;
      var x := store.transformer(ev.record);
      assert val[ev.record.id := x][ev.record.id := x] == val[ev.record.id := x];
    }
  }

  /** GetStore: the registered store, once there is one (until then the caller keeps polling). */
  function GetStore<T>(stores: Stores<T>, collection: string): (r: Option<Store<T>>)
    ensures r.Some? <==> collection in stores
    ensures r.Some? ==> r.value == stores[collection]
  {
    if collection in stores then Some(stores[collection]) else None
  }

  /** A store registered by NewStore is found by GetStore, and its value is unset until loaded. */
  lemma NewStoreIsFound<T>(stores: Stores<T>, collection: string, transformer: Record -> T)
    requires collection !in stores
    ensures GetStore(NewStore(stores, collection, transformer), collection) == Some(Store(transformer, None))
  {
  }
}
