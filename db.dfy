/** The record store of db.js: one object store, keyed by the record's `id`,
    inside a database that is opened lazily and whose handle is then cached
    for the page's lifetime. The store's contents are a map from id to record;
    put, get and getAll are map operations. */
module Db {
  import opened Records

  const DbName := "opic-helper-db"
  const DbVersion: nat := 1
  const StoreName := "practice-data"

  /** How a store request's promise ends. `Pending` is the promise that never
      settles: the requests await `openDB()` inside a promise executor, so a
      failed open leaves their own promise unresolved. */
  datatype Reply<+T> = Resolved(value: T) | Rejected | Pending

  type Store = map<string, Record>

  /** The store's keyPath is `id`: every record sits under its own id. */
  predicate KeyedById(m: Store)
  {
    forall k :: k in m ==> m[k].id == k
  }

  /** `put`: an upsert that replaces the whole record stored under `r.id`. */
  function Put(m: Store, r: Record): (m': Store)
    ensures m'.Keys == m.Keys + {r.id}
    ensures m'[r.id] == r
    ensures forall k :: k in m && k != r.id ==> m'[k] == m[k]
    ensures KeyedById(m) ==> KeyedById(m')
  {
    m[r.id := r]
  }

  /** `get`: the record stored under `id`, or `undefined` (None). */
  function Get(m: Store, id: string): (r: Option<Record>)
    ensures r.Some? <==> id in m
    ensures r.Some? ==> r.value == m[id]
  {
    if id in m then Some(m[id]) else None
  }

  /** Putting the same record twice leaves the store as putting it once. */
  lemma PutIdempotent(m: Store, r: Record)
    ensures Put(Put(m, r), r) == Put(m, r)
  {
  }

  /** The store after a sequence of puts, applied in order. */
  function PutAll(m: Store, rs: seq<Record>): Store
    decreases |rs|
  {
    if rs == [] then m else Put(PutAll(m, rs[..|rs| - 1]), rs[|rs| - 1])
  }

  /** The last record of `rs` whose id is `id`, if any. */
  function LastWrite(rs: seq<Record>, id: string): (r: Option<Record>)
    ensures r.Some? ==> r.value in rs && r.value.id == id
    decreases |rs|
  {
    if rs == [] then None
    else if rs[|rs| - 1].id == id then Some(rs[|rs| - 1])
    else LastWrite(rs[..|rs| - 1], id)
  }

  /** Last write wins: after a sequence of puts, `get(id)` yields the last
      record written under `id`, and what was there before if none was. */
  lemma {:induction false} PutAllLastWins(m: Store, rs: seq<Record>, id: string)
    ensures Get(PutAll(m, rs), id) == if LastWrite(rs, id).Some? then LastWrite(rs, id) else Get(m, id)
    decreases |rs|
  {
    if rs != [] {
      PutAllLastWins(m, rs[..|rs| - 1], id);
    }
  }

  /** The ids of a sequence of records. */
  function Ids(rs: seq<Record>): set<string>
    decreases |rs|
  {
    if rs == [] then {} else Ids(rs[..|rs| - 1]) + {rs[|rs| - 1].id}
  }

  /** The keys after a sequence of puts are the old keys and the ids put. */
  lemma {:induction false} PutAllKeys(m: Store, rs: seq<Record>)
    ensures PutAll(m, rs).Keys == m.Keys + Ids(rs)
    decreases |rs|
  {
    if rs != [] {
      PutAllKeys(m, rs[..|rs| - 1]);
    }
  }

  lemma {:induction false} IdsAvoid(rs: seq<Record>, k: string)
    requires forall i :: 0 <= i < |rs| ==> rs[i].id != k
    ensures k !in Ids(rs)
    decreases |rs|
  {
    if rs != [] {
      IdsAvoid(rs[..|rs| - 1], k);
    }
  }

  /** Puts of records with pairwise distinct ids into an empty store leave
      exactly one record per put. */
  lemma {:induction false} PutAllDistinctCount(rs: seq<Record>)
    requires forall i, j :: 0 <= i < j < |rs| ==> rs[i].id != rs[j].id
    ensures |PutAll(map[], rs)| == |rs|
    decreases |rs|
  {
    PutAllKeys(map[], rs);
    DistinctIdsCount(rs);
  }

  lemma {:induction false} DistinctIdsCount(rs: seq<Record>)
    requires forall i, j :: 0 <= i < j < |rs| ==> rs[i].id != rs[j].id
    ensures |Ids(rs)| == |rs|
    decreases |rs|
  {
    if rs != [] {
      var front := rs[..|rs| - 1];
      DistinctIdsCount(front);
      IdsAvoid(front, rs[|rs| - 1].id);
    }
  }

  /** `getAll`: every stored record once, in some order. */
  method ValuesOf(m: Store) returns (rs: seq<Record>)
    requires KeyedById(m)
    ensures |rs| == |m|
    ensures forall r :: r in rs <==> r.id in m && m[r.id] == r
    ensures forall i, j :: 0 <= i < j < |rs| ==> rs[i].id != rs[j].id
  {
    rs := [];
    var left := m.Keys;
    while left != {}
      invariant left <= m.Keys
      invariant |rs| + |left| == |m|
      invariant forall r :: r in rs <==> r.id in m && r.id !in left && m[r.id] == r
      invariant forall i, j :: 0 <= i < j < |rs| ==> rs[i].id != rs[j].id
      decreases left
    {
      var k :| k in left;
      rs := rs + [m[k]];
      left := left - {k};
    }
  }

  /** The database, its object store and the page's cached handle to it. */
  class RecordStore {
    /** The version of the database on disk (0: it does not exist yet). */
    var version: nat
    /** The database holds the object store `StoreName`. */
    var storeExists: bool
    /** The object store's contents. */
    var records: Store
    /** The module-level `db` handle has been assigned. */
    var handleOpen: bool
    /** How many `indexedDB.open` requests the page has issued. */
    var openRequests: nat

    ghost predicate Valid()
      reads this
    {
      && version <= DbVersion
      && (version == DbVersion ==> storeExists)
      && (handleOpen ==> version == DbVersion)
      && (!storeExists ==> records == map[])
      && KeyedById(records)
    }

    /** A page load, over the database left on disk by earlier visits
        (None: the database does not exist yet). */
    constructor (persisted: Option<Store>)
      requires persisted.Some? ==> KeyedById(persisted.value)
      ensures Valid() && !handleOpen && openRequests == 0
      ensures persisted.None? ==> version == 0 && !storeExists && records == map[]
      ensures persisted.Some? ==> version == DbVersion && storeExists && records == persisted.value
    {
      handleOpen := false;
      openRequests := 0;
      match persisted
      case None =>
        version, storeExists, records := 0, false, map[];
      case Some(m) =>
        version, storeExists, records := DbVersion, true, m;
    }

    /** `openDB`. A cached handle is returned without a new open request.
        Otherwise one request is issued; when it succeeds an older database is
        upgraded, creating the object store only if it is missing, and the
        handle is cached. `openOk` is the outcome of the request. */
    method Open(openOk: bool) returns (ok: bool)
      requires Valid()
      modifies this
      ensures Valid()
      ensures old(handleOpen) ==> ok && unchanged(this)
      ensures !old(handleOpen) ==> openRequests == old(openRequests) + 1 && ok == openOk && handleOpen == openOk
      ensures !old(handleOpen) && openOk ==> version == DbVersion && storeExists
      ensures !old(handleOpen) && !openOk ==> version == old(version) && storeExists == old(storeExists)
      ensures records == old(records)
    {
      if handleOpen {
        return true;
      }
      openRequests := openRequests + 1;
      if !openOk {
        return false;
      }
      if version < DbVersion {
        // onupgradeneeded
        if !storeExists {
          storeExists := true;
          records := map[];
        }
        version := DbVersion;
      }
      handleOpen := true;
      ok := true;
    }

    /** `saveData(r)`: `put` in a read-write transaction. */
    method Save(r: Record, openOk: bool, putOk: bool) returns (reply: Reply<()>)
      requires Valid()
      modifies this
      ensures Valid()
      ensures handleOpen == (old(handleOpen) || openOk)
      ensures openRequests == old(openRequests) + (if old(handleOpen) then 0 else 1)
      ensures !old(handleOpen) && openOk ==> version == DbVersion && storeExists
      ensures old(handleOpen) || !openOk ==> version == old(version) && storeExists == old(storeExists)
      ensures reply == if !handleOpen then Pending else if putOk then Resolved(()) else Rejected
      ensures records == if reply.Resolved? then Put(old(records), r) else old(records)
    {
      var isOpen := Open(openOk);
      if !isOpen {
        return Pending;
      }
      if putOk {
        records := Put(records, r);
        reply := Resolved(());
      } else {
        reply := Rejected;
      }
    }

    /** `loadData(id)`: `get` in a read-only transaction. */
    method Load(id: string, openOk: bool, getOk: bool) returns (reply: Reply<Option<Record>>)
      requires Valid()
      modifies this
      ensures Valid()
      ensures handleOpen == (old(handleOpen) || openOk)
      ensures openRequests == old(openRequests) + (if old(handleOpen) then 0 else 1)
      ensures !old(handleOpen) && openOk ==> version == DbVersion && storeExists
      ensures old(handleOpen) || !openOk ==> version == old(version) && storeExists == old(storeExists)
      ensures reply == if !handleOpen then Pending else if getOk then Resolved(Get(records, id)) else Rejected
      ensures records == old(records)
    {
      var isOpen := Open(openOk);
      if !isOpen {
        return Pending;
      }
      if getOk {
        reply := Resolved(Get(records, id));
      } else {
        reply := Rejected;
      }
    }

    /** `getAllData()`: `getAll` in a read-only transaction. */
    method GetAll(openOk: bool, getOk: bool) returns (reply: Reply<seq<Record>>)
      requires Valid()
      modifies this
      ensures Valid()
      ensures handleOpen == (old(handleOpen) || openOk)
      ensures openRequests == old(openRequests) + (if old(handleOpen) then 0 else 1)
      ensures !old(handleOpen) && openOk ==> version == DbVersion && storeExists
      ensures old(handleOpen) || !openOk ==> version == old(version) && storeExists == old(storeExists)
      ensures !handleOpen <==> reply.Pending?
      ensures reply.Rejected? <==> handleOpen && !getOk
      ensures reply.Resolved? ==> |reply.value| == |records|
      ensures reply.Resolved? ==> forall r :: r in reply.value <==> r.id in records && records[r.id] == r
      ensures reply.Resolved? ==> forall i, j :: 0 <= i < j < |reply.value| ==> reply.value[i].id != reply.value[j].id
      ensures records == old(records)
    {
      var isOpen := Open(openOk);
      if !isOpen {
        return Pending;
      }
      if getOk {
        var rs := ValuesOf(records);
        reply := Resolved(rs);
      } else {
        reply := Rejected;
      }
    }
  }

  /** A save followed by a load of the same id yields the saved record, and a
      load of an id never saved yields `undefined`. */
  method SaveThenLoad(store: RecordStore, r: Record, other: string)
      returns (saved: Reply<()>, loaded: Reply<Option<Record>>, missing: Reply<Option<Record>>)
    requires store.Valid()
    requires other != r.id && other !in store.records
    modifies store
    ensures saved == Resolved(()) && loaded == Resolved(Some(r)) && missing == Resolved(None)
    ensures store.Valid() && store.handleOpen && store.records == Put(old(store.records), r)
  {
    saved := store.Save(r, true, true);
    loaded := store.Load(r.id, true, true);
    missing := store.Load(other, true, true);
  }
}
