/**
 * The categories screen: the password lock, and the handlers that edit the category list
 * together with the shared catalogue (deleting moves items to "None", renaming carries the
 * items along).
 */
module CategoriesScreen {
  import opened Wrappers
  import opened Text
  import opened ArrayOps
  import opened Inventory
  import opened PersistentState
  import opened ItemsContext
  import opened Categories

  /** The password that unlocks category editing. */
  const Password: string := "1257"

  /** The catalogue with every item whose category is exactly `from` moved to `to`, in place. */
  function Recategorise(items: seq<Item>, from: string, to: string): (r: seq<Item>) {
    Map(items, (i: Item) => if i.category == Some(from) then i.(category := Some(to)) else i)
  }

  /** Every item is listed under a category the list holds (a missing or empty one counts as "None"). */
  predicate Covered(items: seq<Item>, cats: seq<string>) {
    forall i :: i in items ==> EffectiveCategory(i) in cats
  }

  /**
   * Recategorising keeps the count, the order and every field but the category; exactly the
   * items in `from` move to `to`, so none is left in `from` unless `from` is `to`.
   */
  lemma RecategoriseSpec(items: seq<Item>, from: string, to: string)
    ensures var r := Recategorise(items, from, to);
      |r| == |items| &&
      (forall k :: 0 <= k < |items| ==>
        r[k].(category := items[k].category) == items[k] &&
        r[k].category == (if items[k].category == Some(from) then Some(to) else items[k].category)) &&
      (from != to ==> forall i :: i in r ==> i.category != Some(from))
  {
  }

  /** Moving a category onto itself changes no item. */
  lemma RecategoriseSame(items: seq<Item>, c: string)
    ensures Recategorise(items, c, c) == items
  {
    var r := Recategorise(items, c, c);
    assert |r| == |items|;
    forall k | 0 <= k < |items| ensures r[k] == items[k] {
    }
  }

  /** Deleting a category and moving its items to "None" keeps every item's category listed. */
  lemma DeleteKeepsCoverage(items: seq<Item>, cats: seq<string>, c: string)
    requires Covered(items, cats) && NoneCategory in cats && c != NoneCategory
    ensures Covered(Recategorise(items, c, NoneCategory), Filter(cats, x => x != c))
  {
    var r := Recategorise(items, c, NoneCategory);
    forall i | i in r ensures EffectiveCategory(i) in Filter(cats, x => x != c) {
      var k :| 0 <= k < |r| && r[k] == i;
      assert items[k] in items;
    }
  }

  /** Renaming a listed category on the list and on its items keeps every item's category listed. */
  lemma RenameKeepsCoverage(items: seq<Item>, cats: seq<string>, oldName: string, newName: string)
    requires Covered(items, cats) && oldName in cats && oldName != NoneCategory && newName != ""
    ensures Covered(Recategorise(items, oldName, newName), Rename(cats, oldName, newName))
  {
    var r := Recategorise(items, oldName, newName);
    var renamed := Rename(cats, oldName, newName);
    forall i | i in r ensures EffectiveCategory(i) in renamed {
      var k :| 0 <= k < |r| && r[k] == i;
      assert items[k] in items;
      var e := EffectiveCategory(items[k]);
      var m :| 0 <= m < |cats| && cats[m] == (if items[k].category == Some(oldName) then oldName else e);
      assert renamed[m] == EffectiveCategory(i);
    }
  }

  /** An accepted rename of a listed category, applied to the list and to the items, keeps the list well formed and covering. */
  lemma RenameStepPreserves(items: seq<Item>, cats: seq<string>, oldName: string, newName: string)
    requires WellFormed(cats) && Covered(items, cats) && oldName in cats
    requires Renamed(cats, oldName, newName, true).Some?
    ensures WellFormed(Renamed(cats, oldName, newName, true).value)
    ensures Covered(Recategorise(items, oldName, Trim(newName)), Renamed(cats, oldName, newName, true).value)
  {
    RenamedPreserves(cats, oldName, newName, true);
    RenameKeepsCoverage(items, cats, oldName, Trim(newName));
  }

  /** `CategoriesPage`: the hook's two cells, the shared catalogue cell, and the screen's own fields. */
  class CategoriesPage {
    const store: CategoryStore
    const items: PersistentCell<seq<Item>>
    var newCategory: string
    var editingCategory: Option<string>
    var editingName: string

    /** The category list is well formed and lists every item's category. */
    ghost predicate Consistent()
      reads store.categories, items
    {
      WellFormed(store.categories.state) && Covered(items.state, store.categories.state)
    }

    constructor (store: CategoryStore, provider: ItemsProvider)
      ensures this.store == store && items == provider.cell
      ensures newCategory == "" && editingCategory == None && editingName == ""
    {
      this.store := store;
      items := provider.cell;
      newCategory := "";
      editingCategory := None;
      editingName := "";
    }

    /** Unlocked: always locks. Locked: unlocks only for the right password (`prompt` may give none). */
    method ToggleEditing(password: Option<string>)
      modifies store.editingEnabled`state, store.editingEnabled.storage
      ensures store.editingEnabled.state == (!old(store.editingEnabled.state) && password == Some(Password))
      ensures Commits(store.editingEnabled,
        if old(store.editingEnabled.state) then Some(false)
        else if password == Some(Password) then Some(true)
        else None)
    {
      if store.editingEnabled.state {
        store.editingEnabled.SetState(false);
      } else {
        if password == Some(Password) {
          store.editingEnabled.SetState(true);
        }
      }
    }

    /** The new-category input's change handler. */
    method TypeNewCategory(text: string)
      modifies this`newCategory
      ensures newCategory == text
    {
      newCategory := text;
    }

    /**
     * Locked, blank or already listed: nothing changes. Otherwise the trimmed name is added
     * and the input cleared.
     */
    method HandleAddCategory()
      modifies this`newCategory, store.categories`state, store.categories.storage
      ensures var r := if old(store.editingEnabled.state) then Added(old(store.categories.state), old(newCategory)) else None;
        Commits(store.categories, r) && newCategory == (if r.Some? then "" else old(newCategory))
      ensures old(Consistent()) ==> Consistent()
    {
      if !store.editingEnabled.state {
        return;
      }
      var trimmed := Trim(newCategory);
      if trimmed == "" || trimmed in store.categories.state {
        return;
      }
      ghost var before := store.categories.state;
      TrimIdempotent(newCategory);
      store.AddCategory(trimmed);
      newCategory := "";
      if WellFormed(before) {
        AddedPreserves(before, trimmed);
      }
    }

    /**
     * Unless locked or not confirmed: the category's items move to "None" (a commit even when
     * none moves), then the category is removed (refused for "None").
     */
    method HandleDeleteCategory(category: string, confirmed: bool)
      modifies items`state, items.storage, store.categories`state, store.categories.storage
      ensures var proceeds := old(store.editingEnabled.state) && confirmed;
        Commits(items, if proceeds then Some(Recategorise(old(items.state), category, NoneCategory)) else None) &&
        Commits(store.categories, if proceeds then Removed(old(store.categories.state), category, true) else None)
      ensures old(Consistent()) ==> Consistent()
    {
      if !store.editingEnabled.state {
        return;
      }
      if !confirmed {
        return;
      }
      ghost var cats, before := store.categories.state, items.state;
      items.SetState(Recategorise(items.state, category, NoneCategory));
      store.RemoveCategory(category);
      if WellFormed(cats) && Covered(before, cats) {
        if category == NoneCategory {
          RecategoriseSame(before, category);
        } else {
          RemovedPreserves(cats, category, true);
          DeleteKeepsCoverage(before, cats, category);
        }
      }
    }

    /** Unless locked: edit `category`, with its name as the starting text. */
    method StartEditCategory(category: string)
      modifies this`editingCategory, this`editingName
      ensures old(store.editingEnabled.state) ==> editingCategory == Some(category) && editingName == category
      ensures !old(store.editingEnabled.state) ==>
        editingCategory == old(editingCategory) && editingName == old(editingName)
    {
      if !store.editingEnabled.state {
        return;
      }
      editingCategory := Some(category);
      editingName := category;
    }

    /** The rename input's change handler. */
    method TypeEditingName(text: string)
      modifies this`editingName
      ensures editingName == text
    {
      editingName := text;
    }

    /** The Cancel button: leave edit mode, keeping the typed text. */
    method CancelEdit()
      modifies this`editingCategory
      ensures editingCategory == None
    {
      editingCategory := None;
    }

    /**
     * Unless locked, or the trimmed name is blank, unchanged or already listed: the list is
     * renamed (refused for "None"), every item in the old category moves to the new name, and
     * edit mode ends with an empty input. The Save button exists only while a category is
     * being edited.
     */
    method SaveEditCategory()
      requires editingCategory.Some?
      modifies this`editingCategory, this`editingName
      modifies items`state, items.storage, store.categories`state, store.categories.storage
      ensures var trimmed := Trim(old(editingName));
        var from := old(editingCategory).value;
        var proceeds := old(store.editingEnabled.state) && trimmed != "" && trimmed != from &&
                        trimmed !in old(store.categories.state);
        Commits(store.categories, if proceeds then Renamed(old(store.categories.state), from, trimmed, true) else None) &&
        Commits(items, if proceeds then Some(Recategorise(old(items.state), from, trimmed)) else None) &&
        (proceeds ==> editingCategory == None && editingName == "") &&
        (!proceeds ==> editingCategory == old(editingCategory) && editingName == old(editingName))
      ensures (old(Consistent()) && old(editingCategory).value in old(store.categories.state) &&
               old(editingCategory).value != NoneCategory) ==> Consistent()
    {
      if !store.editingEnabled.state {
        return;
      }
      var trimmed := Trim(editingName);
      var from := editingCategory.value;
      if trimmed == "" || trimmed == from || trimmed in store.categories.state {
        return;
      }
      ghost var cats, before := store.categories.state, items.state;
      TrimIdempotent(editingName);
      store.RenameCategory(from, trimmed);
      items.SetState(Recategorise(items.state, from, trimmed));
      editingCategory := None;
      editingName := "";
      if WellFormed(cats) && Covered(before, cats) && from in cats && from != NoneCategory {
        RenameStepPreserves(before, cats, from, trimmed);
      }
    }
  }
}
