# Drawer inventory: a verified model of its state core

This is a Dafny model of the state core of a small single-page web app. The app catalogues
tools stored in the drawers of two chests. It keeps the catalogue and a list of categories in
browser storage and offers several screens:

- a drawer view, with add, delete and edit;
- a category editor, locked by a password;
- a category browser;
- a search page.

The model covers the following parts of the app.

- **`PersistentState`** (`useLocalStorage.ts`) is the two-tier persistent cell.
  - It holds an in-memory value.
  - It loads once, from IndexedDB first and then from localStorage.
  - The load is gated by a `mounted` flag.
  - Every later change is written back, gated by `loaded`.
  - The storage tiers are two maps. Each carries the flags that decide whether its calls throw: IndexedDB present/failing, localStorage available/full.
  - A localStorage entry can also be blank or malformed.
- **`ItemsContext`** (`ItemsContext.tsx`) is the shared catalogue cell and its first-run seed, plus `useItems`.
- **`Categories`** (`useCategories.ts`) is the category list and the editing flag: two cells, plus the add, remove, rename and toggle edits.
- **`CategoriesScreen`** (`CategoriesPage.tsx`) covers:
  - the password lock;
  - the handlers that change the list and the catalogue together: delete moves items to "None", rename carries items to the new name.
- **`IndexedDbState`** (`useIndexedDB.ts`) is the older single-tier cell. The drawer and search screens use it, on a separate database.
- **`DrawerScreen`** (`DrawerPage.tsx`) is the per-drawer list and its add, delete and edit by id.
- **`CategoryResults`** (`CategoryResults.tsx`) and **`ItemDetail`** (`ItemDetail.tsx`) are the category listing and the case-insensitive name search.
- **`Inventory`** (`data.ts`, `inventory.ts`) holds the item record, the drawer labels and the seed items.
- **Helpers.** `ArrayOps` and `Text` model the JavaScript `filter`/`map`/`find` and `trim`/`toLowerCase`/`includes` that the screens use. `Wrappers` gives `Option` and `Result`.

Stateful hooks and screens are classes. The storage they write is a shared `Storage` or
`Database` object. Each event handler is a method whose `ensures` gives the whole new state in
terms of pure functions of the old state. The properties are proved about those functions.

A handler of a consumer screen either returns early or calls its cell's setter. The two-state
predicate `PersistentState.Commits` says which one happened. When it calls the setter, the
predicate also gives what the stores then hold.

The localStorage copy is not written independently of IndexedDB, although a fallback tier
suggests it would be. The model follows the code:

- Both writes sit inside one `try`, with IndexedDB first (useLocalStorage.ts:105-112).
- So a failing IndexedDB write also skips the localStorage write.
- `PersistentState.Persist` models this, and `BrokenPrimaryPersistsNothing` states the consequence.

## Model

| member | source | states |
|---|---|---|
| PersistentState.LoadPrecedence | src/hooks/useLocalStorage.ts:73-87 | IndexedDB's value wins whenever it yields one. Otherwise the load sees exactly what localStorage yields. A value is found iff one of the two tiers yields it. |
| PersistentState.PersistThenLookup | src/hooks/useLocalStorage.ts:102-113 | A write-back never changes the tiers' flags. When it lands, a later load of the key finds the written value. When it cannot land, both stores stay exactly as they were. |
| PersistentState.BrokenPrimaryPersistsNothing | src/hooks/useLocalStorage.ts:106-111 | If IndexedDB is present but failing, a write-back persists nothing at all: the localStorage write shares the same `try`. |
| PersistentState.StaleFallbackOverwritten | src/hooks/useLocalStorage.ts:107-108 | When both tiers work, a write-back overwrites both tiers' entries with the new value. |
| PersistentState.PersistIsLocal | src/hooks/useLocalStorage.ts:102-113 | Writing one key leaves every other key's entry unchanged in the IndexedDB tier and in the localStorage tier, so a load of any other key finds what it found before. |
| PersistentState.PersistAllKeepsFlags | src/hooks/useLocalStorage.ts:102-113 | Any number of write-backs leave tier availability unchanged. |
| PersistentState.LastWriteWins | src/hooks/useLocalStorage.ts:102-113 | After a burst of write-backs that land, a load finds the last value. When both tiers work, each tier holds it. |
| PersistentState.PersistentCell.constructor | src/hooks/useLocalStorage.ts:63-66 | The cell starts at `initial`, not loaded, with no value found, mounted. |
| PersistentState.PersistentCell.Unmount | src/hooks/useLocalStorage.ts:96-98 | The cleanup clears `mounted`. |
| PersistentState.PersistentCell.Load | src/hooks/useLocalStorage.ts:69-99 | localStorage is consulted iff IndexedDB yielded nothing. A mounted cell becomes loaded, sets `hasValue` iff a value was found, and adopts that value, keeping its state otherwise. An unmounted cell changes nothing. Storage is only read. |
| PersistentState.PersistentCell.WriteBack | src/hooks/useLocalStorage.ts:102-113 | Before loading, nothing is written. Afterwards the stores hold `Persist` of the current value. |
| PersistentState.PersistentCell.SetState | src/hooks/useLocalStorage.ts:102-113 | The in-memory value is replaced immediately. The write-back is gated by `loaded`. |
| PersistentState.PersistentCell.Activate | src/hooks/useLocalStorage.ts:69-113 | A first activation writes back the loaded value only if the load committed. Unmounted before the load finishes, the cell and stores are untouched. |
| ItemsContext.ItemsProvider.constructor | src/contexts/ItemsContext.tsx:15-18 | The catalogue cell uses key `drawer_app_items_v1` and starts from the empty list. |
| ItemsContext.ItemsProvider.Seed | src/contexts/ItemsContext.tsx:21-26 | It writes `SAMPLE_ITEMS` exactly when the cell is loaded, found nothing and is still empty. It never replaces a stored value, even an empty one. |
| ItemsContext.ItemsProvider.Start | src/contexts/ItemsContext.tsx:14-26 | Mounting the provider covers: a found value adopted and written back; nothing found gives the seed, persisted after the empty write-back; an unmounted provider changes nothing. |
| ItemsContext.Reload | src/contexts/ItemsContext.tsx:20-26 | Seeding happens once per durable storage: a second provider finds a value and ends with the first provider's items. |
| ItemsContext.UseItems | src/contexts/ItemsContext.tsx:40-43 | It succeeds iff a provider encloses the call. Otherwise it fails with the source's error text. |
| Inventory.EffectiveCategory | src/pages/CategoryResults.tsx:16 | `category \|\| "None"` is never empty. It equals the item's category whenever that is non-empty. |
| Categories.InitialWellFormed | src/hooks/useCategories.ts:5-8 | The initial list `["None"]` has no repeats and lists "None". |
| Categories.AddedSpec | src/hooks/useCategories.ts:15-19 | An add is refused iff the name is all whitespace or its trimmed form is already listed. Otherwise the trimmed name is appended after the unchanged old list. |
| Categories.AddedPreserves | src/hooks/useCategories.ts:15-19 | An accepted add keeps the list free of repeats and keeps "None". |
| Categories.RemovedSpec | src/hooks/useCategories.ts:21-26 | A remove is refused iff editing is locked or the name is "None". Otherwise the name is gone, every other name stays, and the order is kept. |
| Categories.RemovedPreserves | src/hooks/useCategories.ts:21-26 | An accepted remove keeps the list free of repeats and keeps "None". |
| Categories.RenamedSpec | src/hooks/useCategories.ts:28-41 | A rename is refused iff one of these holds: editing is locked; the new name is blank, unchanged or already listed; the old name is "None". Otherwise the length is kept, and the trimmed new name stands exactly where the old one stood. |
| Categories.RenamedPreserves | src/hooks/useCategories.ts:28-41 | An accepted rename keeps the list free of repeats and keeps "None". |
| Categories.CategoryStore.constructor | src/hooks/useCategories.ts:5-12 | The two cells use keys `categories` and `categoryEditingEnabled`, starting from `["None"]` and `false`. |
| Categories.CategoryStore.AddCategory | src/hooks/useCategories.ts:15-19 | It commits `Added` of the old list, or nothing. |
| Categories.CategoryStore.RemoveCategory | src/hooks/useCategories.ts:21-26 | It commits `Removed` of the old list under the current lock, or nothing. |
| Categories.CategoryStore.RenameCategory | src/hooks/useCategories.ts:28-41 | It commits `Renamed` of the old list under the current lock, or nothing. |
| Categories.CategoryStore.ToggleEditing | src/hooks/useCategories.ts:44-46 | It negates the editing flag and commits it. |
| CategoriesScreen.RecategoriseSpec | src/pages/CategoriesPage.tsx:57-61 | Moving items between categories keeps the count, the order and every other field. Exactly the items in `from` move, so none is left in `from`. |
| CategoriesScreen.RecategoriseSame | src/pages/CategoriesPage.tsx:57-61 | Moving a category onto itself changes no item (deleting "None" leaves the items alone). |
| CategoriesScreen.DeleteKeepsCoverage | src/pages/CategoriesPage.tsx:53-64 | Deleting a category and moving its items to "None" keeps every item's category listed. |
| CategoriesScreen.RenameKeepsCoverage | src/pages/CategoriesPage.tsx:74-89 | Renaming a listed category on the list and on its items keeps every item's category listed. |
| CategoriesScreen.RenameStepPreserves | src/pages/CategoriesPage.tsx:74-89 | An accepted rename of a listed category, applied to both the list and the items, keeps the list free of repeats, keeps "None", and keeps every item's category listed. |
| CategoriesScreen.CategoriesPage.constructor | src/pages/CategoriesPage.tsx:16-19 | The screen shares the category store and the catalogue cell. The new-category input is empty, and no category is being edited, with an empty rename text. |
| CategoriesScreen.CategoriesPage.ToggleEditing | src/pages/CategoriesPage.tsx:23-35 | Unlocked, the flag always locks. Locked, it unlocks only for the password `1257`. Any other answer, or a cancelled prompt, commits nothing. |
| CategoriesScreen.CategoriesPage.TypeNewCategory | src/pages/CategoriesPage.tsx:105 | The input holds the typed text. |
| CategoriesScreen.CategoriesPage.HandleAddCategory | src/pages/CategoriesPage.tsx:44-50 | If locked, blank or already listed, nothing changes. Otherwise the trimmed name is committed and the input cleared. A well-formed, covering list stays so. |
| CategoriesScreen.CategoriesPage.HandleDeleteCategory | src/pages/CategoriesPage.tsx:53-64 | If locked or not confirmed, nothing changes. Otherwise the items move to "None" and the category is removed ("None" itself is kept). Well-formedness and coverage are kept. |
| CategoriesScreen.CategoriesPage.StartEditCategory | src/pages/CategoriesPage.tsx:67-71 | Unlocked, it enters edit mode with the category's name as text. Locked, it changes nothing. |
| CategoriesScreen.CategoriesPage.TypeEditingName | src/pages/CategoriesPage.tsx:142 | The rename input holds the typed text. |
| CategoriesScreen.CategoriesPage.CancelEdit | src/pages/CategoriesPage.tsx:153 | It leaves edit mode. |
| CategoriesScreen.CategoriesPage.SaveEditCategory | src/pages/CategoriesPage.tsx:74-89 | It proceeds iff unlocked and the trimmed name is non-blank, changed and unlisted. Then it renames the list and the items and leaves edit mode. Otherwise nothing changes. Renaming a listed category other than "None" keeps the list well formed and covering. |
| IndexedDbState.Database.constructor | src/hooks/useIndexedDB.ts:8 | The database starts with the given contents and open behaviour. |
| IndexedDbState.IndexedDbCell.constructor | src/hooks/useIndexedDB.ts:4 | Until a result arrives, the cell exposes `initial`. |
| IndexedDbState.IndexedDbCell.Load | src/hooks/useIndexedDB.ts:7-32 | A stored value is adopted. A missing key yields `initial` and writes it back. A failed open yields `initial` with no write. |
| IndexedDbState.IndexedDbCell.Save | src/hooks/useIndexedDB.ts:35-43 | Memory is updated at once. The store is updated when the database opens, and not otherwise. |
| IndexedDbState.SaveThenReload | src/hooks/useIndexedDB.ts:7-43 | A saved value is what a freshly mounted cell on the same key loads. No loaded gate is needed. |
| DrawerScreen.View | src/pages/DrawerPage.tsx:19-27 | A missing or empty chest or drawer gives "Invalid drawer". Otherwise the listing is exactly the matching items in catalogue order, each as many times as the catalogue holds it. |
| DrawerScreen.InDrawerSpec | src/pages/DrawerPage.tsx:24-27 | The drawer's list is the items with this chest and drawer, in catalogue order, each kept as many times as the catalogue holds it. |
| DrawerScreen.AppendInDrawer | src/pages/DrawerPage.tsx:39 | An appended item shows last in its own drawer's list and in no other drawer's list. |
| DrawerScreen.WithoutIdSpec | src/pages/DrawerPage.tsx:46 | After a delete no item has the id, and all others remain in order, each with its number of copies. An absent id changes nothing. |
| DrawerScreen.WithoutIdKeepsUnique | src/pages/DrawerPage.tsx:46 | A delete keeps ids unique. |
| DrawerScreen.ReplacedSpec | src/pages/DrawerPage.tsx:57-69 | An edit keeps the count, and exactly the items with the record's id become the record. Every other item is unchanged. |
| DrawerScreen.ReplacedKeepsUnique | src/pages/DrawerPage.tsx:57-69 | After an edit, every item with the record's id is the record, and unique ids stay unique. |
| DrawerScreen.ReplaceThenFind | src/pages/DrawerPage.tsx:57-73 | When the id was present, the lookup by id after the edit finds exactly the edited record. |
| DrawerScreen.AddFormIdAsWritten | src/pages/DrawerPage.tsx:31 | As written, an item added through the add form gets the empty id, whatever fresh id was available. |
| DrawerScreen.AddFormDuplicatesIds | src/pages/DrawerPage.tsx:30-47 | As written, two adds through the form give two items with the same id, and one delete removes both. |
| DrawerScreen.AddKeepsUnique | src/pages/DrawerPage.tsx:30-41 | Corrected: an item added with a fresh id, when the payload has none, keeps ids unique. |
| DrawerScreen.DrawerPage.constructor | src/pages/DrawerPage.tsx:14-17 | No item is being edited and the add form is closed. |
| DrawerScreen.DrawerPage.ToggleAdd | src/pages/DrawerPage.tsx:88 | The add form's visibility flips. |
| DrawerScreen.DrawerPage.AddItem | src/pages/DrawerPage.tsx:30-41 | As written: exactly one record is appended and saved, and the form closes. Its id is the payload's whenever one is given, the empty one included, so an item from the add form gets the empty id. An item for this drawer shows last in this drawer's list. |
| DrawerScreen.DrawerPage.AddItemCorrected | src/pages/DrawerPage.tsx:30-41 | Corrected: as `AddItem`, but a missing or empty payload id is replaced by the fresh one. With unique ids and an unused fresh id, ids stay unique. |
| DrawerScreen.DrawerPage.DeleteItem | src/pages/DrawerPage.tsx:44-47 | Unconfirmed, nothing changes. Confirmed, every item with the id is removed and saved. |
| DrawerScreen.DrawerPage.Filtered | src/pages/DrawerPage.tsx:24-27 | The drawer's list holds exactly the catalogue's items with this chest and drawer, in catalogue order, each as many times as the catalogue holds it. |
| DrawerScreen.DrawerPage.EditingItem | src/pages/DrawerPage.tsx:73 | It is the first item carrying the edited id. It is none iff no item carries it, or no id is being edited. |
| DrawerScreen.FindById | src/pages/DrawerPage.tsx:73 | `find` yields the first item with the id, and none iff no item has it. |
| DrawerScreen.DrawerPage.StartEdit | src/pages/DrawerPage.tsx:50-52 | It records the id being edited. |
| DrawerScreen.DrawerPage.SaveEdit | src/pages/DrawerPage.tsx:55-71 | A missing or empty id changes nothing. Otherwise the items with that id become the edited record, which is saved, and edit mode ends. |
| CategoryResults.CategoryName | src/pages/CategoryResults.tsx:11 | A missing route parameter names the empty category. Otherwise it names the parameter. |
| CategoryResults.Render | src/pages/CategoryResults.tsx:15-23 | A missing or empty name gives "Invalid category". Otherwise the listing is the name's results. |
| CategoryResults.ResultsSpec | src/pages/CategoryResults.tsx:15-18 | The results are exactly the items whose effective category is the name, in order, each with its number of copies. An uncategorised item is listed under "None" and under no other name. |
| CategoryResults.ResultsDisjoint | src/pages/CategoryResults.tsx:15-18 | No item is listed under two names. |
| CategoryResults.NothingUnderEmptyName | src/pages/CategoryResults.tsx:15-23 | The empty name, which the screen refuses, would list nothing. |
| CategoryResults.EveryItemListedOnce | src/pages/CategoryResults.tsx:15-18 | Over a repeat-free category list that lists every item's category, the results' sizes add up to the catalogue's size. So each item is browsable under exactly one category. |
| ItemDetail.Render | src/pages/ItemDetail.tsx:9-17 | A missing or all-whitespace query gives "No search query." Otherwise the view shows the matches of the trimmed, lower-cased query. |
| ItemDetail.TrimLowerCommute | src/pages/ItemDetail.tsx:9 | Trimming and lower-casing commute. |
| ItemDetail.NormaliseQuerySpec | src/pages/ItemDetail.tsx:9-15 | The query is empty iff the parameter is missing or all whitespace. It has no surrounding whitespace and is already lower case. |
| ItemDetail.QueryIgnoresCase | src/pages/ItemDetail.tsx:9-17 | Two queries that differ only in letter case give the same view. |
| ItemDetail.MatchesSpec | src/pages/ItemDetail.tsx:17 | The results are the items, in order and with their number of copies, whose lower-cased name contains the query at some position. Names that differ only in case are found together. |
| ArrayOps.Filter | src/pages/ItemDetail.tsx:17 | `filter` keeps exactly the elements that pass the test, each as many times as the input holds it, and never more elements than the input. |
| ArrayOps.FilterIsSubsequence | src/pages/DrawerPage.tsx:25 | `filter` keeps its survivors in their original order. |
| Text.IncludesIffOccurs | src/pages/ItemDetail.tsx:17 | The scan `includes` performs succeeds iff the query occurs at some position. |
| Text.TrimIdempotent | src/hooks/useCategories.ts:16 | Trimming twice equals trimming once, so the handler and the hook agree on the name. |

## Left out

- **Concurrency.** The model ignores asynchrony and ordering between effects:
  - a load and a write-back never interleave;
  - each event handler runs to completion;
  - the unmount-before-load race is the `Unmount` call before `Load`.
- **Tier failures** are flags on the tiers, not exceptions.
- **What is stored.** JSON encoding is the `Encoded`/`Blank`/`Malformed` entry. The model does not describe:
  - serialisation details;
  - values that do not round-trip through JSON.
- **Identity.** React's `Object.is` test before re-running the write-back effect is not modelled. Every setter call writes back, which matches the handlers here, since they always build new arrays.
- **Storage types.** Each value type has its own `Storage` object. The cells on one origin use different keys, so no interaction between them is lost.
- **Debug logging.** `hasIndexedDB` exceptions and the `IS_DEV` logging are not modelled.
- **localStorage effects in useCategories.ts:49-61.** These two effects write and re-read the editing flag behind the cell's back. Their outcome depends on the order of effects, which this model does not represent.
- PersistentState.PersistentCell.Load keeps the cell's current state when nothing is found, as the code does. It does not reset the state to `initial`: the two differ only if the setter ran before the load finished.
- **Failed `get` and `put` requests, and the upgrade step.** A failed open is modelled. `useIndexedDB` has no handler for a failed `get` or `put` request, so those paths are not modelled. Its upgrade step (object store creation) is not modelled either.
- DrawerScreen.DrawerPage.AddItem and DrawerScreen.DrawerPage.AddItemCorrected take the generated id as a parameter `freshId`. `uid` lives in `utils`, which is not part of this model. `AddKeepsUnique` requires `freshId` to be unused.
- **Route parameters** are taken as already URI-decoded. Navigation (`navigate`, `handleClickCategory`) is not modelled.
- **The form and the rest of the app.** `AddItemEditForm.tsx` is only used to justify `FromAddForm`: the form spreads its starting record, so the add form's empty id survives. Not modelled: file-to-data-URL conversion, the header, `App`, `Home`, the service worker.
- **Strings.** `trim` and `toLowerCase` are modelled over ASCII: space, tab, line feed, vertical tab, form feed and carriage return count as whitespace, and A–Z lower to a–z. Unicode whitespace and case mapping are not modelled.
- CategoriesScreen.CategoriesPage.SaveEditCategory requires an edited category. Its Save button is rendered only for the category being edited (CategoriesPage.tsx:137-148).
- **Screen rendering.** The search and drawer screens build their lists from the `IndexedDbState` cell (`SAMPLE_ITEMS` as its initial value). Their rendering is modelled on the list they are given.

## Findings

| source | as written | input that shows it | evidently intended | confidence | as-written member | corrected member |
|---|---|---|---|---|---|---|
| src/pages/DrawerPage.tsx:31 | `payload.id ?? uid("it")` keeps an empty id. The add form starts from `id: ""` (DrawerPage.tsx:106), which the form's spread passes on (AddItemEditForm.tsx:26), so every added item gets the id `""`. | Add two items through the add form. Both have id `""`. Deleting either removes both, and neither can be edited, because `saveEdit` returns on a falsy id. | A fresh id whenever the payload's id is missing or empty, so ids stay unique. | high (not executed) | DrawerScreen.AddFormDuplicatesIds | DrawerScreen.AddKeepsUnique |

`DrawerScreen.DrawerPage.AddItem` follows the code as written (`AssignedIdAsWritten`). `DrawerScreen.DrawerPage.AddItemCorrected` is the same method with the corrected assignment (`AssignedId`), and its contract carries `AddKeepsUnique`.
