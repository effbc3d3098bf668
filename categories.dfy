/**
 * `useCategories`: the persisted category list and the persisted editing flag, with the
 * three list edits. Each edit computes its new list purely and commits it to the list's
 * cell; an `Option` result of None stands for the hook returning without a commit.
 */
module Categories {
  import opened Wrappers
  import opened Text
  import opened ArrayOps
  import opened Inventory
  import opened PersistentState

  const CategoriesKey: string := "categories"
  const EditingKey: string := "categoryEditingEnabled"
  const InitialCategories: seq<string> := [NoneCategory]

  /** The invariant the edits keep: no name twice, and "None" always listed. */
  predicate WellFormed(cats: seq<string>) {
    Distinct(cats) && NoneCategory in cats
  }

  /** `addCategory(name)`: the trimmed name appended, unless it is empty or already listed. */
  function Added(cats: seq<string>, name: string): (r: Option<seq<string>>) {
    var trimmed := Trim(name);
    if trimmed == "" || trimmed in cats then None else Some(cats + [trimmed])
  }

  /** `removeCategory(name)`: every occurrence filtered out, unless locked or the name is "None". */
  function Removed(cats: seq<string>, name: string, editingEnabled: bool): (r: Option<seq<string>>) {
    if !editingEnabled || name == NoneCategory then None
    else Some(Filter(cats, c => c != name))
  }

  /** The rename a category list undergoes: `oldName` replaced by `newName` in place. */
  function Rename(cats: seq<string>, oldName: string, newName: string): (r: seq<string>) {
    Map(cats, c => if c == oldName then newName else c)
  }

  /**
   * `renameCategory(oldName, newName)`: unless locked, or the trimmed name is empty, unchanged,
   * already listed, or the old name is "None".
   */
  function Renamed(cats: seq<string>, oldName: string, newName: string, editingEnabled: bool): (r: Option<seq<string>>) {
    var trimmed := Trim(newName);
    if !editingEnabled || trimmed == "" || trimmed == oldName || trimmed in cats || oldName == NoneCategory then None
    else Some(Rename(cats, oldName, trimmed))
  }

  lemma InitialWellFormed()
    ensures WellFormed(InitialCategories)
  {
    assert InitialCategories[0] == NoneCategory;
  }

  /**
   * Adding is refused exactly for blank or listed names; otherwise the list grows by the
   * trimmed name at the end and its prefix is the old list.
   */
  lemma AddedSpec(cats: seq<string>, name: string)
    ensures Added(cats, name).None? <==>
      (forall k :: 0 <= k < |name| ==> IsSpace(name[k])) || Trim(name) in cats
    ensures Added(cats, name).Some? ==>
      var r := Added(cats, name).value;
      |r| == |cats| + 1 && r[..|cats|] == cats && r[|cats|] == Trim(name) && Trim(name) != ""
  {
    TrimEmptyIff(name);
    if Added(cats, name).Some? {
      assert (cats + [Trim(name)])[..|cats|] == cats;
    }
  }

  lemma AddedPreserves(cats: seq<string>, name: string)
    requires WellFormed(cats) && Added(cats, name).Some?
    ensures WellFormed(Added(cats, name).value)
  {
    var r := Added(cats, name).value;
    assert r == cats + [Trim(name)];
    forall i, j | 0 <= i < j < |r| ensures r[i] != r[j] {
      if j == |cats| {
        assert r[i] == cats[i] && r[j] == Trim(name);
      } else {
        assert r[i] == cats[i] && r[j] == cats[j];
      }
    }
    assert NoneCategory in r by {
      var k :| 0 <= k < |cats| && cats[k] == NoneCategory;
      assert r[k] == NoneCategory;
    }
  }

  /**
   * Removal is refused exactly when locked or for "None"; otherwise the name is gone, every
   * other name stays, and the survivors keep their relative order.
   */
  lemma RemovedSpec(cats: seq<string>, name: string, editingEnabled: bool)
    ensures Removed(cats, name, editingEnabled).None? <==> !editingEnabled || name == NoneCategory
    ensures Removed(cats, name, editingEnabled).Some? ==>
      var r := Removed(cats, name, editingEnabled).value;
      name !in r && IsSubsequence(r, cats) && forall c :: c in cats && c != name ==> c in r
  {
    FilterIsSubsequence(cats, c => c != name);
  }

  lemma RemovedPreserves(cats: seq<string>, name: string, editingEnabled: bool)
    requires WellFormed(cats) && Removed(cats, name, editingEnabled).Some?
    ensures WellFormed(Removed(cats, name, editingEnabled).value)
  {
    FilterDistinct(cats, c => c != name);
  }

  /**
   * A rename is refused in the cases listed above; otherwise it keeps length and positions,
   * and the new name stands exactly where the old one stood.
   */
  lemma RenamedSpec(cats: seq<string>, oldName: string, newName: string, editingEnabled: bool)
    ensures Renamed(cats, oldName, newName, editingEnabled).None? <==>
      !editingEnabled || (forall k :: 0 <= k < |newName| ==> IsSpace(newName[k])) ||
      Trim(newName) == oldName || Trim(newName) in cats || oldName == NoneCategory
    ensures Renamed(cats, oldName, newName, editingEnabled).Some? ==>
      var r := Renamed(cats, oldName, newName, editingEnabled).value;
      |r| == |cats| &&
      (forall k :: 0 <= k < |cats| ==> (r[k] == Trim(newName) <==> cats[k] == oldName)) &&
      (forall k :: 0 <= k < |cats| && cats[k] != oldName ==> r[k] == cats[k])
  {
    TrimEmptyIff(newName);
  }

  lemma RenamedPreserves(cats: seq<string>, oldName: string, newName: string, editingEnabled: bool)
    requires WellFormed(cats) && Renamed(cats, oldName, newName, editingEnabled).Some?
    ensures WellFormed(Renamed(cats, oldName, newName, editingEnabled).value)
  {
    var trimmed := Trim(newName);
    var r := Rename(cats, oldName, trimmed);
    forall i, j | 0 <= i < j < |r| ensures r[i] != r[j] {
      if cats[i] == oldName {
        assert cats[j] != oldName && r[j] == cats[j] && cats[j] in cats;
      } else if cats[j] == oldName {
        assert r[i] == cats[i] && cats[i] in cats;
      }
    }
    var k :| 0 <= k < |cats| && cats[k] == NoneCategory;
    assert r[k] == NoneCategory;
  }

  /** `useCategories()`: the list cell and the editing-flag cell. */
  class CategoryStore {
    const categories: PersistentCell<seq<string>>
    const editingEnabled: PersistentCell<bool>

    /** The two cells use their fixed keys and initial values. */
    ghost predicate Valid() {
      categories.key == CategoriesKey && categories.initial == InitialCategories &&
      editingEnabled.key == EditingKey && editingEnabled.initial == false
    }

    /** Categories start as just "None"; editing starts locked. */
    constructor (categoryStorage: Storage<seq<string>>, flagStorage: Storage<bool>)
      ensures Valid() && fresh(categories) && fresh(editingEnabled)
      ensures categories.storage == categoryStorage && editingEnabled.storage == flagStorage
      ensures categories.state == InitialCategories && WellFormed(categories.state)
      ensures !editingEnabled.state
      ensures !categories.loaded && !editingEnabled.loaded && categories.Valid() && editingEnabled.Valid()
    {
      categories := new PersistentCell(categoryStorage, CategoriesKey, InitialCategories);
      editingEnabled := new PersistentCell(flagStorage, EditingKey, false);
      InitialWellFormed();
    }

    method AddCategory(name: string)
      modifies categories`state, categories.storage
      ensures Commits(categories, Added(old(categories.state), name))
    {
      var trimmed := Trim(name);
      if trimmed == "" || trimmed in categories.state {
        return;
      }
      categories.SetState(categories.state + [trimmed]);
    }

    method RemoveCategory(name: string)
      modifies categories`state, categories.storage
      ensures Commits(categories, Removed(old(categories.state), name, editingEnabled.state))
    {
      if !editingEnabled.state {
        return;
      }
      if name == NoneCategory {
        return;
      }
      categories.SetState(Filter(categories.state, c => c != name));
    }

    method RenameCategory(oldName: string, newName: string)
      modifies categories`state, categories.storage
      ensures Commits(categories, Renamed(old(categories.state), oldName, newName, editingEnabled.state))
    {
      if !editingEnabled.state {
        return;
      }
      var trimmed := Trim(newName);
      if trimmed == "" || trimmed == oldName || trimmed in categories.state || oldName == NoneCategory {
        return;
      }
      categories.SetState(Map(categories.state, c => if c == oldName then trimmed else c));
    }

    /** `toggleEditing()`: the flag negated, and committed. */
    method ToggleEditing()
      modifies editingEnabled`state, editingEnabled.storage
      ensures editingEnabled.state == !old(editingEnabled.state)
      ensures Commits(editingEnabled, Some(!old(editingEnabled.state)))
    {
      editingEnabled.SetState(!editingEnabled.state);
    }
  }
}
