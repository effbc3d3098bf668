/** The shared catalogue: one persistent cell of items plus the first-run seed. */
module ItemsContext {
  import opened Wrappers
  import opened Inventory
  import opened PersistentState

  /** The versioned storage key of the catalogue. */
  const ItemsKey: string := "drawer_app_items_v1"

  /** `ItemsProvider`: the catalogue cell, keyed by `ItemsKey`, starting from the empty list. */
  class ItemsProvider {
    const cell: PersistentCell<seq<Item>>

    /** The cell is the catalogue's: its key and initial value are fixed. */
    ghost predicate Valid() {
      cell.key == ItemsKey && cell.initial == []
    }

    constructor (storage: Storage<seq<Item>>)
      ensures Valid() && fresh(cell) && cell.storage == storage
      ensures cell.state == [] && !cell.loaded && !cell.hasValue && cell.mounted && cell.Valid()
    {
      cell := new PersistentCell(storage, ItemsKey, []);
    }

    /**
     * The seed effect: once loaded, a cell that found nothing and still holds no items gets
     * `SampleItems` (and writes it back). A value found in storage is never replaced, even
     * an empty one. The effect runs once per mount, when `loaded` and `hasValue` take their
     * loaded values; `Start` is its only caller.
     */
    method Seed()
      requires Valid()
      modifies cell`state, cell.storage
      ensures var seeds := cell.loaded && !cell.hasValue && |old(cell.state)| == 0;
        cell.state == (if seeds then SampleItems else old(cell.state)) &&
        cell.storage.tiers == (if seeds then Persist(old(cell.storage.tiers), ItemsKey, SampleItems)
                               else old(cell.storage.tiers))
    {
      if !cell.loaded {
        return;
      }
      if !cell.hasValue && |cell.state| == 0 {
        cell.SetState(SampleItems);
      }
    }

    /**
     * The provider's first activation: the cell's load and its write-back, then the seed
     * effect that the `loaded` transition triggers.
     */
    method Start()
      requires Valid() && cell.Valid() && !cell.loaded
      modifies cell, cell.storage
      ensures cell.Valid() && cell.mounted == old(cell.mounted)
      ensures !old(cell.mounted) ==>
        cell.state == old(cell.state) && !cell.loaded && cell.storage.tiers == old(cell.storage.tiers)
      ensures old(cell.mounted) ==> cell.loaded && cell.hasValue == Lookup(old(cell.storage.tiers), ItemsKey).Some?
      ensures var found := Lookup(old(cell.storage.tiers), ItemsKey);
        old(cell.mounted) && found.Some? ==>
          cell.state == found.value &&
          cell.storage.tiers == Persist(old(cell.storage.tiers), ItemsKey, found.value)
      ensures var found := Lookup(old(cell.storage.tiers), ItemsKey);
        old(cell.mounted) && found.None? && old(cell.state) == [] ==>
          cell.state == SampleItems &&
          cell.storage.tiers == Persist(Persist(old(cell.storage.tiers), ItemsKey, []), ItemsKey, SampleItems)
      ensures var found := Lookup(old(cell.storage.tiers), ItemsKey);
        old(cell.mounted) && found.None? && old(cell.state) != [] ==>
          cell.state == old(cell.state) &&
          cell.storage.tiers == Persist(old(cell.storage.tiers), ItemsKey, old(cell.state))
    {
      cell.Activate();
      Seed();
    }
  }

  /**
   * Seeding happens at most once per storage whose writes land: a second provider, loading
   * what the first one wrote, finds a value and keeps the first provider's items.
   */
  method Reload(storage: Storage<seq<Item>>) returns (first: ItemsProvider, second: ItemsProvider)
    requires Durable(storage.tiers)
    modifies storage
    ensures first.cell.loaded && second.cell.loaded && second.cell.hasValue
    ensures second.cell.state == first.cell.state
    ensures Lookup(old(storage.tiers), ItemsKey).None? ==> first.cell.state == SampleItems
    ensures Lookup(old(storage.tiers), ItemsKey).Some? ==> first.cell.state == Lookup(old(storage.tiers), ItemsKey).value
  {
    first := new ItemsProvider(storage);
    ghost var t0 := storage.tiers;
    first.Start();
    ghost var t1 := storage.tiers;
    // each write-back lands and keeps the tiers' flags
    ghost var found := Lookup(t0, ItemsKey);
    if found.Some? {
      PersistThenLookup(t0, ItemsKey, found.value);
    } else {
      PersistThenLookup(t0, ItemsKey, []);
      PersistThenLookup(Persist(t0, ItemsKey, []), ItemsKey, SampleItems);
    }
    assert Lookup(t1, ItemsKey) == Some(first.cell.state);
    second := new ItemsProvider(storage);
    second.Start();
  }

  /** `useItems()`: the enclosing provider, or the error raised when there is none. */
  function UseItems(context: Option<ItemsProvider>): (r: Result<ItemsProvider, string>)
    ensures context.Some? <==> r.Success?
    ensures r.Success? ==> r.value == context.value
    ensures r.Failure? ==> r.error == "useItems must be used within ItemsProvider"
  {
    match context
    case Some(p) => Success(p)
    case None => Failure("useItems must be used within ItemsProvider")
  }
}
