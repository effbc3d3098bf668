/** The catalogue's record type and its fixed data. */
module Inventory {
  import opened Wrappers

  /**
   * One catalogued object. `chest` is free text, since the seed data names chests outside the
   * two declared chest identifiers; `category` is optional, since the category screens read it
   * although the declared record type does not list it.
   */
  datatype Item = Item(
    id: string,
    name: string,
    imageUrl: string,
    chest: string,
    drawer: string,
    category: Option<string>)

  /** The slot labels a drawer route may name, in display order. */
  const Drawers: seq<string> := [
    "Top",
    "2nd left", "3rd left", "4th left", "5th left",
    "2nd right", "3rd right", "4th right", "5th right"
  ]

  /** The catalogue written on first run, when nothing was ever persisted. */
  const SampleItems: seq<Item> := [
    Item("i1", "Screwdriver",
      "https://upload.wikimedia.org/wikipedia/commons/4/41/Flat-head_screwdriver.png",
      "Electronics Chest", "Top", None),
    Item("i2", "Hammer",
      "https://upload.wikimedia.org/wikipedia/commons/3/3b/Steel_hammer.jpg",
      "Build Chest", "2nd left", None)
  ]

  /** The category every item without one (missing or empty) is listed under. */
  const NoneCategory: string := "None"

  /** `item.category || "None"`: an empty or missing category counts as "None". */
  function EffectiveCategory(item: Item): (c: string)
    ensures c != ""
    ensures item.category.Some? && item.category.value != "" ==> c == item.category.value
  {
    if item.category.None? || item.category.value == "" then NoneCategory else item.category.value
  }
}
