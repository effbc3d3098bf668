/**
 * `useIndexedDB(key, initial)`: the older single-tier cell. It loads once from one object
 * store, writes `initial` back when the key is missing, and its `save` writes every value
 * through at once, with no loaded gate.
 */
module IndexedDbState {
  import opened Wrappers

  /** The object store; when `opens` is false, `indexedDB.open` reports an error. */
  class Database<V> {
    var opens: bool
    var entries: map<string, V>

    constructor (opens: bool, entries: map<string, V>)
      ensures this.opens == opens && this.entries == entries
    {
      this.opens := opens;
      this.entries := entries;
    }
  }

  class IndexedDbCell<V> {
    const key: string
    const initial: V
    const db: Database<V>
    /** None until a load result or a save arrives (`undefined`). */
    var state: Option<V>

    /** The exposed value, `state ?? initial`. */
    function Value(): (r: V)
      reads this
    {
      state.GetOr(initial)
    }

    /** Until a result arrives the cell exposes `initial`. */
    constructor (db: Database<V>, key: string, initial: V)
      ensures this.db == db && this.key == key && this.initial == initial
      ensures state == None && Value() == initial
    {
      this.db := db;
      this.key := key;
      this.initial := initial;
      state := None;
    }

    /**
     * The load on mount: a stored value is adopted; a missing key yields `initial`, which is
     * also written to the store; a database that fails to open yields `initial` and no write.
     */
    method Load()
      modifies this`state, db`entries
      ensures !db.opens ==> state == Some(initial) && db.entries == old(db.entries)
      ensures db.opens && key in old(db.entries) ==>
        state == Some(old(db.entries)[key]) && db.entries == old(db.entries)
      ensures db.opens && key !in old(db.entries) ==>
        state == Some(initial) && db.entries == old(db.entries)[key := initial]
    {
      if !db.opens {
        state := Some(initial);
        return;
      }
      if key in db.entries {
        state := Some(db.entries[key]);
      } else {
        state := Some(initial);
        db.entries := db.entries[key := initial];
      }
    }

    /** `save(v)`: memory first, then the store when the database opens; a failed open is ignored. */
    method Save(v: V)
      modifies this`state, db`entries
      ensures state == Some(v) && Value() == v
      ensures db.entries == if db.opens then old(db.entries)[key := v] else old(db.entries)
    {
      state := Some(v);
      if db.opens {
        db.entries := db.entries[key := v];
      }
    }
  }

  /**
   * Round trip: a value saved while the database opens is what a freshly mounted cell on the
   * same key loads. Unlike the two-tier cell, no load has to complete before the write.
   */
  method SaveThenReload<V>(cell: IndexedDbCell<V>, v: V) returns (next: IndexedDbCell<V>)
    requires cell.db.opens
    modifies cell`state, cell.db`entries
    ensures fresh(next) && next.db == cell.db && next.key == cell.key
    ensures next.Value() == v && next.state == Some(v)
  {
    cell.Save(v);
    next := new IndexedDbCell(cell.db, cell.key, cell.initial);
    next.Load();
  }
}
