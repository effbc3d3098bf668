/**
 * The persistent state cell: one in-memory value backed by two storage tiers, an IndexedDB
 * object store (primary) and localStorage (fallback). The browser calls become operations on
 * two maps; each tier carries the flags that decide whether its calls throw.
 */
module PersistentState {
  import opened Wrappers

  /** The raw text localStorage holds under a key, as `JSON.parse` sees it. */
  datatype Entry<V> =
    | Encoded(value: V)   // parses to a value
    | Blank               // the empty string: skipped by the `if (raw)` test
    | Malformed           // `JSON.parse` throws

  /**
   * The IndexedDB tier. `present` is `hasIndexedDB()`; `failing` means opening the database
   * or running a transaction rejects, so every `idbGet` and `idbSet` throws.
   */
  datatype PrimaryTier<V> = PrimaryTier(present: bool, failing: bool, entries: map<string, V>)

  /**
   * The localStorage tier. Without `available` every call throws; when `full`, `setItem`
   * throws (quota exceeded) while reads still work.
   */
  datatype FallbackTier<V> = FallbackTier(available: bool, full: bool, entries: map<string, Entry<V>>)

  datatype Tiers<V> = Tiers(primary: PrimaryTier<V>, fallback: FallbackTier<V>)

  /** IndexedDB exists and its calls succeed. */
  predicate PrimaryWorks<V>(p: PrimaryTier<V>) {
    p.present && !p.failing
  }

  /** What the IndexedDB step of the load leaves in `persisted` (None: still undefined). */
  function PrimaryRead<V>(p: PrimaryTier<V>, key: string): (r: Option<V>) {
    if PrimaryWorks(p) && key in p.entries then Some(p.entries[key]) else None
  }

  /** What the localStorage step yields: a parsed value, or nothing (missing, blank, malformed, or the call threw). */
  function FallbackRead<V>(f: FallbackTier<V>, key: string): (r: Option<V>) {
    if f.available && key in f.entries && f.entries[key].Encoded? then Some(f.entries[key].value) else None
  }

  /** The value a load finds: IndexedDB's when it yields one, otherwise localStorage's. */
  function Lookup<V>(t: Tiers<V>, key: string): (r: Option<V>) {
    match PrimaryRead(t.primary, key)
    case Some(v) => Some(v)
    case None => FallbackRead(t.fallback, key)
  }

  /**
   * The stores after one write-back of `v`. When IndexedDB is present and fails, `idbSet`
   * throws and the catch also skips the localStorage write; otherwise IndexedDB (if present)
   * and then localStorage (if it accepts the write) hold `v`.
   */
  function Persist<V>(t: Tiers<V>, key: string, v: V): (r: Tiers<V>) {
    if t.primary.present && t.primary.failing then t
    else
      var p := if t.primary.present then t.primary.(entries := t.primary.entries[key := v]) else t.primary;
      var f := if t.fallback.available && !t.fallback.full
               then t.fallback.(entries := t.fallback.entries[key := Encoded(v)])
               else t.fallback;
      Tiers(p, f)
  }

  /** The stores after the setter gave the cell `v`: written back only once the cell is loaded. */
  function Committed<V>(t: Tiers<V>, loaded: bool, key: string, v: V): (r: Tiers<V>) {
    if loaded then Persist(t, key, v) else t
  }

  /** The stores after one write-back per value of `vs`, in order (writes are neither queued nor merged). */
  function PersistAll<V>(t: Tiers<V>, key: string, vs: seq<V>): (r: Tiers<V>)
    decreases |vs|
  {
    if vs == [] then t else PersistAll(Persist(t, key, vs[0]), key, vs[1..])
  }

  /** A write-back lands somewhere a later load reads it. */
  predicate Durable<V>(t: Tiers<V>) {
    PrimaryWorks(t.primary) || (!t.primary.present && t.fallback.available && !t.fallback.full)
  }

  /** Both tiers accept writes. */
  predicate BothWork<V>(t: Tiers<V>) {
    PrimaryWorks(t.primary) && t.fallback.available && !t.fallback.full
  }

  /** The flags of the two tiers: writes change contents, never availability. */
  predicate SameFlags<V>(a: Tiers<V>, b: Tiers<V>) {
    a.primary.present == b.primary.present && a.primary.failing == b.primary.failing &&
    a.fallback.available == b.fallback.available && a.fallback.full == b.fallback.full
  }

  /**
   * The load reads localStorage when, and only when, IndexedDB yields nothing; a value
   * IndexedDB yields wins over whatever localStorage holds.
   */
  lemma LoadPrecedence<V>(t: Tiers<V>, key: string)
    ensures PrimaryWorks(t.primary) && key in t.primary.entries ==> Lookup(t, key) == Some(t.primary.entries[key])
    ensures !(PrimaryWorks(t.primary) && key in t.primary.entries) ==> Lookup(t, key) == FallbackRead(t.fallback, key)
    ensures Lookup(t, key).Some? <==>
      (PrimaryWorks(t.primary) && key in t.primary.entries) ||
      (t.fallback.available && key in t.fallback.entries && t.fallback.entries[key].Encoded?)
  {
  }

  /**
   * Round trip: after a write-back of `v` that lands, a fresh load of the same key finds `v`;
   * a write-back that does not land leaves both stores exactly as they were.
   */
  lemma PersistThenLookup<V>(t: Tiers<V>, key: string, v: V)
    ensures SameFlags(Persist(t, key, v), t)
    ensures Durable(t) ==> Lookup(Persist(t, key, v), key) == Some(v)
    ensures !Durable(t) ==> Persist(t, key, v) == t
  {
  }

  /**
   * With IndexedDB present but failing, no write-back persists anything, although
   * localStorage might have accepted the write.
   */
  lemma BrokenPrimaryPersistsNothing<V>(t: Tiers<V>, key: string, v: V)
    requires t.primary.present && t.primary.failing
    ensures Persist(t, key, v) == t
    ensures Lookup(Persist(t, key, v), key) == Lookup(t, key)
  {
  }

  /**
   * A stale localStorage entry is shadowed by IndexedDB on load and overwritten by the next
   * write-back when both tiers work.
   */
  lemma StaleFallbackOverwritten<V>(t: Tiers<V>, key: string, v: V)
    requires BothWork(t)
    ensures Persist(t, key, v).fallback.entries[key] == Encoded(v)
    ensures Persist(t, key, v).primary.entries[key] == v
  {
  }

  /** A write-back touches its own key only: neither tier's entry for any other key changes. */
  lemma PersistIsLocal<V>(t: Tiers<V>, key: string, other: string, v: V)
    requires other != key
    ensures PrimaryRead(Persist(t, key, v).primary, other) == PrimaryRead(t.primary, other)
    ensures FallbackRead(Persist(t, key, v).fallback, other) == FallbackRead(t.fallback, other)
    ensures Lookup(Persist(t, key, v), other) == Lookup(t, other)
  {
  }

  /** Writes change contents, never the tiers' flags, however many there are. */
  lemma {:induction false} PersistAllKeepsFlags<V>(t: Tiers<V>, key: string, vs: seq<V>)
    ensures SameFlags(PersistAll(t, key, vs), t)
    decreases |vs|
  {
    if vs != [] {
      PersistThenLookup(t, key, vs[0]);
      PersistAllKeepsFlags(Persist(t, key, vs[0]), key, vs[1..]);
    }
  }

  /**
   * Last write wins: after a burst of write-backs that land, a load finds the last value,
   * and when both tiers work both hold it.
   */
  lemma {:induction false} LastWriteWins<V>(t: Tiers<V>, key: string, vs: seq<V>)
    requires vs != [] && Durable(t)
    ensures Lookup(PersistAll(t, key, vs), key) == Some(vs[|vs| - 1])
    ensures BothWork(t) ==>
      PrimaryRead(PersistAll(t, key, vs).primary, key) == Some(vs[|vs| - 1]) &&
      FallbackRead(PersistAll(t, key, vs).fallback, key) == Some(vs[|vs| - 1])
    decreases |vs|
  {
    var t' := Persist(t, key, vs[0]);
    PersistThenLookup(t, key, vs[0]);
    if |vs| > 1 {
      LastWriteWins(t', key, vs[1..]);
    }
  }

  /**
   * A consumer's handler either leaves `cell` alone (`r` is None: it returned early) or
   * calls its setter with the value in `r`.
   */
  twostate predicate Commits<V>(cell: PersistentCell<V>, r: Option<V>)
    reads cell, cell.storage
  {
    match r
    case None => cell.state == old(cell.state) && cell.storage.tiers == old(cell.storage.tiers)
    case Some(v) => cell.state == v && cell.storage.tiers == Committed(old(cell.storage.tiers), cell.loaded, cell.key, v)
  }

  /** The origin's storage, shared by every cell that uses it. */
  class Storage<V> {
    var tiers: Tiers<V>

    constructor (tiers: Tiers<V>)
      ensures this.tiers == tiers
    {
      this.tiers := tiers;
    }
  }

  /**
   * `useLocalStorage(key, initial)`: the live value `state`, the `loaded` and `hasValue`
   * flags, and the `mounted` flag the load checks before it commits.
   */
  class PersistentCell<V> {
    const key: string
    const initial: V
    const storage: Storage<V>
    var state: V
    var loaded: bool
    var hasValue: bool
    var mounted: bool

    /** A value is only ever reported found by a completed load. */
    ghost predicate Valid()
      reads this
    {
      hasValue ==> loaded
    }

    constructor (storage: Storage<V>, key: string, initial: V)
      ensures this.storage == storage && this.key == key && this.initial == initial
      ensures state == initial && !loaded && !hasValue && mounted && Valid()
    {
      this.storage := storage;
      this.key := key;
      this.initial := initial;
      state := initial;
      loaded := false;
      hasValue := false;
      mounted := true;
    }

    /** The load effect's cleanup: a load finishing afterwards commits nothing. */
    method Unmount()
      modifies this`mounted
      ensures !mounted
    {
      mounted := false;
    }

    /**
     * The load effect: IndexedDB first, then localStorage when that yielded nothing; every
     * failure is swallowed. A mounted cell adopts the value found, records whether one was
     * found and becomes loaded; an unmounted one changes nothing. Storage is only read.
     */
    method Load() returns (ghost readFallback: bool)
      requires Valid()
      modifies this`state, this`loaded, this`hasValue
      ensures Valid()
      ensures readFallback <==> PrimaryRead(storage.tiers.primary, key).None?
      ensures old(mounted) ==>
        loaded && hasValue == Lookup(storage.tiers, key).Some? &&
        state == Lookup(storage.tiers, key).GetOr(old(state))
      ensures !old(mounted) ==>
        state == old(state) && loaded == old(loaded) && hasValue == old(hasValue)
    {
      var persisted: Option<V> := None;
      readFallback := false;
      var t := storage.tiers;
      if t.primary.present {
        // idbGet throws when the database cannot be used; the catch leaves `persisted` undefined
        if !t.primary.failing && key in t.primary.entries {
          persisted := Some(t.primary.entries[key]);
        }
      }
      if persisted.None? {
        readFallback := true;
        // getItem throws when localStorage is unavailable, and JSON.parse on malformed text
        if t.fallback.available && key in t.fallback.entries {
          var raw := t.fallback.entries[key];
          if raw.Encoded? {
            persisted := Some(raw.value);
          }
        }
      }
      if mounted {
        if persisted.Some? {
          state := persisted.value;
        }
        hasValue := persisted.Some?;
        loaded := true;
      }
    }

    /**
     * The write-back effect: nothing before the cell is loaded; afterwards IndexedDB (when
     * present) and then localStorage receive the current value, inside one try, so a failing
     * IndexedDB write skips the localStorage write. Failures are swallowed: the cell itself
     * never changes.
     */
    method WriteBack()
      modifies storage
      ensures storage.tiers == Committed(old(storage.tiers), loaded, key, state)
    {
      if !loaded {
        return;
      }
      var t := storage.tiers;
      var threw := false;
      if t.primary.present {
        if t.primary.failing {
          threw := true;
        } else {
          storage.tiers := t.(primary := t.primary.(entries := t.primary.entries[key := state]));
        }
      }
      if !threw {
        var f := storage.tiers.fallback;
        if f.available && !f.full {
          storage.tiers := storage.tiers.(fallback := f.(entries := f.entries[key := Encoded(state)]));
        }
      }
    }

    /**
     * The setter followed by the write-back its change triggers: the in-memory value is
     * replaced at once, whatever happens to the write.
     */
    method SetState(v: V)
      modifies this`state, storage
      ensures state == v
      ensures storage.tiers == Committed(old(storage.tiers), loaded, key, v)
    {
      state := v;
      WriteBack();
    }

    /**
     * The cell's first activation: the load, then the write-back that the `loaded`
     * transition triggers (only when the load committed, that is, while mounted).
     */
    method Activate()
      requires Valid() && !loaded
      modifies this`state, this`loaded, this`hasValue, storage
      ensures Valid()
      ensures old(mounted) ==>
        loaded && hasValue == Lookup(old(storage.tiers), key).Some? &&
        state == Lookup(old(storage.tiers), key).GetOr(old(state)) &&
        storage.tiers == Persist(old(storage.tiers), key, state)
      ensures !old(mounted) ==>
        state == old(state) && !loaded && !hasValue && storage.tiers == old(storage.tiers)
    {
      var _ := Load();
      if loaded {
        WriteBack();
      }
    }
  }
}
