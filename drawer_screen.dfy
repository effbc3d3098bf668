/**
 * The drawer screen: the items of one chest and drawer, over the single-tier IndexedDB cell,
 * with add, delete and edit by id.
 */
module DrawerScreen {
  import opened Wrappers
  import opened ArrayOps
  import opened Inventory
  import opened IndexedDbState

  /** What the add and edit forms hand over: an item whose id may be missing. */
  datatype Payload = Payload(
    id: Option<string>,
    name: string,
    imageUrl: string,
    chest: string,
    drawer: string,
    category: Option<string>)

  /** What the screen shows: the route lacks a chest or a drawer, or the drawer's items. */
  datatype DrawerView = InvalidDrawer | Listing(items: seq<Item>)

  /** The items stored in the given chest and drawer, in catalogue order. */
  function InDrawer(items: seq<Item>, chest: string, drawer: string): (r: seq<Item>) {
    Filter(items, (i: Item) => i.chest == chest && i.drawer == drawer)
  }

  /** The route guard: a missing or empty chest or drawer parameter shows "Invalid drawer". */
  function View(items: seq<Item>, chestId: Option<string>, drawerLabel: Option<string>): (v: DrawerView)
    ensures v.InvalidDrawer? <==> chestId.None? || chestId.value == "" || drawerLabel.None? || drawerLabel.value == ""
    ensures v.Listing? ==> forall i :: i in v.items <==> i in items && i.chest == chestId.value && i.drawer == drawerLabel.value
    ensures v.Listing? ==> IsSubsequence(v.items, items)
    ensures v.Listing? ==> forall i :: i in multiset(items) ==>
      multiset(v.items)[i] == if i.chest == chestId.value && i.drawer == drawerLabel.value then multiset(items)[i] else 0
  {
    if chestId.None? || chestId.value == "" || drawerLabel.None? || drawerLabel.value == "" then InvalidDrawer
    else
      InDrawerSpec(items, chestId.value, drawerLabel.value);
      Listing(InDrawer(items, chestId.value, drawerLabel.value))
  }

  /** `payload.id ?? uid("it")`, as written: an empty id is kept, since `??` only replaces a missing one. */
  function AssignedIdAsWritten(payload: Payload, freshId: string): (id: string) {
    payload.id.GetOr(freshId)
  }

  /** The evidently intended id: a fresh one whenever the payload's id is missing or empty. */
  function AssignedId(payload: Payload, freshId: string): (id: string) {
    if payload.id.None? || payload.id.value == "" then freshId else payload.id.value
  }

  /** The record `addItem` builds; the category is not copied. */
  function NewItem(payload: Payload, id: string): (item: Item) {
    Item(id, payload.name, payload.imageUrl, payload.chest, payload.drawer, None)
  }

  /** The record `saveEdit` substitutes; the category is not copied either. */
  function EditedRecord(payload: Payload): (record: Item)
    requires payload.id.Some?
  {
    Item(payload.id.value, payload.name, payload.imageUrl, payload.chest, payload.drawer, None)
  }

  /** The catalogue without any item carrying `id`, the others kept in order. */
  function WithoutId(items: seq<Item>, id: string): (r: seq<Item>) {
    Filter(items, (i: Item) => i.id != id)
  }

  /** The catalogue with every item that carries the record's id replaced by the record, in place. */
  function Replaced(items: seq<Item>, record: Item): (r: seq<Item>) {
    Map(items, (i: Item) => if i.id == record.id then record else i)
  }

  /** The first item whose id is `id`; none when `id` is none or no item carries it. */
  function FindById(items: seq<Item>, id: Option<string>): (r: Option<Item>)
    ensures r.None? <==> forall i :: i in items ==> Some(i.id) != id
    ensures r.Some? ==> Some(r.value.id) == id
    ensures r.Some? ==>
      exists k :: 0 <= k < |items| && items[k] == r.value && forall j :: 0 <= j < k ==> Some(items[j].id) != id
  {
    Find(items, (i: Item) => Some(i.id) == id)
  }

  /** No two items share an id. */
  predicate UniqueIds(items: seq<Item>) {
    forall i, j :: 0 <= i < j < |items| ==> items[i].id != items[j].id
  }

  /** The add form's payload: its starting record has the empty id, which the form's spread keeps. */
  predicate FromAddForm(payload: Payload) {
    payload.id == Some("")
  }

  /** The drawer's items are the matching items, in their order. */
  lemma InDrawerSpec(items: seq<Item>, chest: string, drawer: string)
    ensures IsSubsequence(InDrawer(items, chest, drawer), items)
    ensures forall i :: i in InDrawer(items, chest, drawer) <==> i in items && i.chest == chest && i.drawer == drawer
    ensures forall i :: i in multiset(items) ==>
      multiset(InDrawer(items, chest, drawer))[i] == if i.chest == chest && i.drawer == drawer then multiset(items)[i] else 0
  {
    FilterIsSubsequence(items, (i: Item) => i.chest == chest && i.drawer == drawer);
  }

  /** An appended item shows at the end of its drawer's list, and in no other drawer's. */
  lemma AppendInDrawer(items: seq<Item>, item: Item, chest: string, drawer: string)
    ensures InDrawer(items + [item], chest, drawer) ==
      InDrawer(items, chest, drawer) + (if item.chest == chest && item.drawer == drawer then [item] else [])
  {
    FilterAppend(items, [item], (i: Item) => i.chest == chest && i.drawer == drawer);
  }

  /** After a delete no item has the id, every other item remains in order, and an absent id changes nothing. */
  lemma WithoutIdSpec(items: seq<Item>, id: string)
    ensures forall i :: i in WithoutId(items, id) ==> i.id != id
    ensures forall i :: i in multiset(items) ==>
      multiset(WithoutId(items, id))[i] == if i.id != id then multiset(items)[i] else 0
    ensures forall i :: i in items && i.id != id ==> i in WithoutId(items, id)
    ensures IsSubsequence(WithoutId(items, id), items)
    ensures (forall k :: 0 <= k < |items| ==> items[k].id != id) ==> WithoutId(items, id) == items
  {
    FilterIsSubsequence(items, (i: Item) => i.id != id);
    if forall k :: 0 <= k < |items| ==> items[k].id != id {
      FilterKeepsAll(items, (i: Item) => i.id != id);
    }
  }

  /** A delete keeps ids unique. */
  lemma WithoutIdKeepsUnique(items: seq<Item>, id: string)
    requires UniqueIds(items)
    ensures UniqueIds(WithoutId(items, id))
  {
    var key := (i: Item) => i.id;
    assert DistinctKeys(items, key);
    FilterDistinctKeys(items, (i: Item) => i.id != id, key);
    assert DistinctKeys(WithoutId(items, id), key);
  }

  /** An edit keeps the count, and exactly the items with the record's id become the record. */
  lemma ReplacedSpec(items: seq<Item>, record: Item)
    ensures |Replaced(items, record)| == |items|
    ensures forall k :: 0 <= k < |items| ==>
      Replaced(items, record)[k] == if items[k].id == record.id then record else items[k]
  {
  }

  /** After an edit, every item carrying the record's id is the record, so ids stay unique. */
  lemma ReplacedKeepsUnique(items: seq<Item>, record: Item)
    ensures forall i :: i in Replaced(items, record) && i.id == record.id ==> i == record
    ensures UniqueIds(items) ==> UniqueIds(Replaced(items, record))
  {
    var r := Replaced(items, record);
    forall i | i in r && i.id == record.id ensures i == record {
      var m :| 0 <= m < |r| && r[m] == i;
    }
  }

  /** The edited item is what the next lookup by its id finds, whenever the id was present. */
  lemma ReplaceThenFind(items: seq<Item>, record: Item)
    requires exists k :: 0 <= k < |items| && items[k].id == record.id
    ensures FindById(Replaced(items, record), Some(record.id)) == Some(record)
  {
    var r := Replaced(items, record);
    var k :| 0 <= k < |items| && items[k].id == record.id;
    assert r[k] in r && r[k].id == record.id;
    ReplacedKeepsUnique(items, record);
  }

  /** As written: an item added through the add form gets the empty id, whatever fresh id was available. */
  lemma AddFormIdAsWritten(payload: Payload, freshId: string)
    requires FromAddForm(payload)
    ensures AssignedIdAsWritten(payload, freshId) == ""
  {
  }

  /**
   * As written, the drawer screen's own add form breaks id uniqueness: after two adds, both new
   * items have the empty id, and deleting either one deletes both.
   */
  lemma AddFormDuplicatesIds(items: seq<Item>, first: Payload, second: Payload, id1: string, id2: string)
    requires FromAddForm(first) && FromAddForm(second)
    ensures var after := items + [NewItem(first, AssignedIdAsWritten(first, id1))]
                               + [NewItem(second, AssignedIdAsWritten(second, id2))];
      !UniqueIds(after) && |WithoutId(after, "")| <= |after| - 2
  {
    var a := NewItem(first, AssignedIdAsWritten(first, id1));
    var b := NewItem(second, AssignedIdAsWritten(second, id2));
    var after := items + [a] + [b];
    assert after[|items|] == a && after[|items| + 1] == b;
    assert after == (items + [a]) + [b];
    FilterAppend(items + [a], [b], (i: Item) => i.id != "");
    FilterAppend(items, [a], (i: Item) => i.id != "");
  }

  /** Corrected: adding with a fresh id keeps ids unique whenever the payload carries no id of its own. */
  lemma AddKeepsUnique(items: seq<Item>, payload: Payload, freshId: string)
    requires UniqueIds(items) && (payload.id.None? || payload.id.value == "")
    requires forall k :: 0 <= k < |items| ==> items[k].id != freshId
    ensures AssignedId(payload, freshId) == freshId
    ensures UniqueIds(items + [NewItem(payload, AssignedId(payload, freshId))])
  {
  }

  /** `DrawerPage` for the route's chest and drawer. */
  class DrawerPage {
    const chestId: string
    const drawer: string
    const items: IndexedDbCell<seq<Item>>
    var editingId: Option<string>
    var showAdd: bool

    constructor (items: IndexedDbCell<seq<Item>>, chestId: string, drawer: string)
      ensures this.items == items && this.chestId == chestId && this.drawer == drawer
      ensures editingId == None && !showAdd
    {
      this.items := items;
      this.chestId := chestId;
      this.drawer := drawer;
      editingId := None;
      showAdd := false;
    }

    /** The list the screen shows: this chest's and drawer's items, in catalogue order. */
    function Filtered(): (r: seq<Item>)
      reads items
      ensures IsSubsequence(r, items.Value())
      ensures forall i :: i in r <==> i in items.Value() && i.chest == chestId && i.drawer == drawer
      ensures forall i :: i in multiset(items.Value()) ==>
        multiset(r)[i] == if i.chest == chestId && i.drawer == drawer then multiset(items.Value())[i] else 0
    {
      InDrawerSpec(items.Value(), chestId, drawer);
      InDrawer(items.Value(), chestId, drawer)
    }

    /** The item the edit form opens on: the first one carrying the edited id, or none. */
    function EditingItem(): (r: Option<Item>)
      reads this, items
      ensures r.None? <==> forall i :: i in items.Value() ==> Some(i.id) != editingId
      ensures r.Some? ==> Some(r.value.id) == editingId
      ensures r.Some? ==>
        exists k :: 0 <= k < |items.Value()| && items.Value()[k] == r.value &&
          forall j :: 0 <= j < k ==> Some(items.Value()[j].id) != editingId
    {
      FindById(items.Value(), editingId)
    }

    /** The "Add Item"/"Close" button. */
    method ToggleAdd()
      modifies this`showAdd
      ensures showAdd == !old(showAdd)
    {
      showAdd := !showAdd;
    }

    /**
     * `addItem` as written: exactly one item appended, its id the payload's whenever one is
     * given (the empty one included) and `freshId` only when it is missing; the list before
     * it unchanged, saved through the cell; the form closes. An item added through the add
     * form therefore gets the empty id. An item added for this chest and drawer shows at the
     * end of this drawer's list.
     */
    method AddItem(payload: Payload, freshId: string)
      modifies this`showAdd, items`state, items.db`entries
      ensures items.Value() == old(items.Value()) + [NewItem(payload, AssignedIdAsWritten(payload, freshId))]
      ensures items.db.entries == if items.db.opens then old(items.db.entries)[items.key := items.Value()] else old(items.db.entries)
      ensures !showAdd
      ensures FromAddForm(payload) ==> items.Value()[|items.Value()| - 1].id == ""
      ensures payload.chest == chestId && payload.drawer == drawer ==>
        Filtered() == old(Filtered()) + [NewItem(payload, AssignedIdAsWritten(payload, freshId))]
    {
      var item := NewItem(payload, AssignedIdAsWritten(payload, freshId));
      ghost var before := items.Value();
      items.Save(items.Value() + [item]);
      showAdd := false;
      AppendInDrawer(before, item, chestId, drawer);
    }

    /**
     * `addItem` as evidently intended: as `AddItem`, but a missing or empty payload id is
     * replaced by `freshId`, so an unused `freshId` keeps the catalogue's ids unique.
     */
    method AddItemCorrected(payload: Payload, freshId: string)
      modifies this`showAdd, items`state, items.db`entries
      ensures items.Value() == old(items.Value()) + [NewItem(payload, AssignedId(payload, freshId))]
      ensures items.db.entries == if items.db.opens then old(items.db.entries)[items.key := items.Value()] else old(items.db.entries)
      ensures !showAdd
      ensures (UniqueIds(old(items.Value())) && (payload.id.None? || payload.id.value == "") &&
               (forall k :: 0 <= k < |old(items.Value())| ==> old(items.Value())[k].id != freshId)) ==>
        UniqueIds(items.Value())
      ensures payload.chest == chestId && payload.drawer == drawer ==>
        Filtered() == old(Filtered()) + [NewItem(payload, AssignedId(payload, freshId))]
    {
      var item := NewItem(payload, AssignedId(payload, freshId));
      ghost var before := items.Value();
      items.Save(items.Value() + [item]);
      showAdd := false;
      AppendInDrawer(before, item, chestId, drawer);
      if UniqueIds(before) && (payload.id.None? || payload.id.value == "") &&
         (forall k :: 0 <= k < |before| ==> before[k].id != freshId) {
        AddKeepsUnique(before, payload, freshId);
      }
    }

    /** `deleteItem`: without confirmation nothing happens; otherwise every item with the id goes. */
    method DeleteItem(id: string, confirmed: bool)
      modifies items`state, items.db`entries
      ensures !confirmed ==> items.state == old(items.state) && items.db.entries == old(items.db.entries)
      ensures confirmed ==> items.Value() == WithoutId(old(items.Value()), id)
      ensures confirmed ==>
        items.db.entries == if items.db.opens then old(items.db.entries)[items.key := items.Value()] else old(items.db.entries)
    {
      if !confirmed {
        return;
      }
      items.Save(WithoutId(items.Value(), id));
    }

    method StartEdit(id: string)
      modifies this`editingId
      ensures editingId == Some(id)
    {
      editingId := Some(id);
    }

    /**
     * `saveEdit`: a payload with a missing or empty id changes nothing; otherwise each item
     * with that id becomes the edited record, and edit mode ends.
     */
    method SaveEdit(payload: Payload)
      modifies this`editingId, items`state, items.db`entries
      ensures payload.id.None? || payload.id.value == "" ==>
        items.state == old(items.state) && items.db.entries == old(items.db.entries) && editingId == old(editingId)
      ensures payload.id.Some? && payload.id.value != "" ==>
        items.Value() == Replaced(old(items.Value()), EditedRecord(payload)) && editingId == None &&
        items.db.entries == if items.db.opens then old(items.db.entries)[items.key := items.Value()] else old(items.db.entries)
    {
      if payload.id.None? || payload.id.value == "" {
        return;
      }
      items.Save(Replaced(items.Value(), EditedRecord(payload)));
      editingId := None;
    }
  }
}
