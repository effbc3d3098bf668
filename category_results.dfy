/** The category results screen: the catalogue's items listed under one category name. */
module CategoryResults {
  import opened Wrappers
  import opened ArrayOps
  import opened Inventory
  import opened CategoriesScreen

  /** What the screen shows: no category was named, or the category's items. */
  datatype CategoryView = InvalidCategory | Listing(results: seq<Item>)

  /** The route parameter, already URI-decoded; a missing parameter names the empty category. */
  function CategoryName(name: Option<string>): (c: string)
    ensures name.None? ==> c == ""
    ensures name.Some? ==> c == name.value
  {
    name.GetOr("")
  }

  /** The items whose effective category is `categoryName`, in catalogue order. */
  function Results(items: seq<Item>, categoryName: string): (r: seq<Item>) {
    Filter(items, (i: Item) => EffectiveCategory(i) == categoryName)
  }

  /** The results are computed first; an empty name then shows "Invalid category". */
  function Render(items: seq<Item>, name: Option<string>): (v: CategoryView)
    ensures v.InvalidCategory? <==> name.None? || name.value == ""
    ensures v.Listing? ==> v.results == Results(items, name.value)
  {
    var categoryName := CategoryName(name);
    var results := Results(items, categoryName);
    if categoryName == "" then InvalidCategory else Listing(results)
  }

  /**
   * The results are the catalogue's items whose effective category is the name, in catalogue
   * order; an item without a category (or with an empty one) is listed under "None" and under
   * no other name.
   */
  lemma ResultsSpec(items: seq<Item>, categoryName: string)
    ensures IsSubsequence(Results(items, categoryName), items)
    ensures forall i :: i in Results(items, categoryName) <==> i in items && EffectiveCategory(i) == categoryName
    ensures forall i :: i in multiset(items) ==>
      multiset(Results(items, categoryName))[i] == if EffectiveCategory(i) == categoryName then multiset(items)[i] else 0
    ensures forall i :: i in items && (i.category.None? || i.category == Some("")) ==>
      (i in Results(items, categoryName) <==> categoryName == NoneCategory)
  {
    FilterIsSubsequence(items, (i: Item) => EffectiveCategory(i) == categoryName);
  }

  /** No item is listed under two names. */
  lemma ResultsDisjoint(items: seq<Item>, a: string, b: string)
    requires a != b
    ensures forall i :: !(i in Results(items, a) && i in Results(items, b))
  {
  }

  /** The empty name, which the screen refuses, would list nothing either. */
  lemma {:induction false} NothingUnderEmptyName(items: seq<Item>)
    ensures Results(items, "") == []
  {
    if items != [] {
      NothingUnderEmptyName(items[1..]);
    }
  }

  /** How often `c` is listed. */
  function Occurrences(cats: seq<string>, c: string): (n: nat) {
    if cats == [] then 0 else (if cats[0] == c then 1 else 0) + Occurrences(cats[1..], c)
  }

  /** The sizes of the result lists of every name in `cats`, added up. */
  function TotalListed(items: seq<Item>, cats: seq<string>): (n: nat) {
    if cats == [] then 0 else |Results(items, cats[0])| + TotalListed(items, cats[1..])
  }

  lemma {:induction false} OccursOnce(cats: seq<string>, c: string)
    requires Distinct(cats)
    ensures Occurrences(cats, c) == if c in cats then 1 else 0
  {
    if cats != [] {
      var rest := cats[1..];
      assert Distinct(rest) by {
        forall i, j | 0 <= i < j < |rest| ensures rest[i] != rest[j] {
          assert rest[i] == cats[i + 1] && rest[j] == cats[j + 1];
        }
      }
      OccursOnce(rest, c);
      if cats[0] == c {
        assert c !in rest by {
          forall k | 0 <= k < |rest| ensures rest[k] != c {
            assert rest[k] == cats[k + 1];
          }
        }
      } else {
        assert c in cats <==> c in rest;
      }
    }
  }

  /** Putting one item in front adds it once for each time its effective category is listed. */
  lemma {:induction false} TotalListedCons(x: Item, rest: seq<Item>, cats: seq<string>)
    ensures TotalListed([x] + rest, cats) == Occurrences(cats, EffectiveCategory(x)) + TotalListed(rest, cats)
  {
    if cats != [] {
      var items := [x] + rest;
      assert items[1..] == rest;
      TotalListedCons(x, rest, cats[1..]);
    }
  }

  /**
   * Browsing a category list without repeats that lists every item's category shows each item
   * exactly once: the result lists' sizes add up to the catalogue's size.
   */
  lemma {:induction false} EveryItemListedOnce(items: seq<Item>, cats: seq<string>)
    requires Distinct(cats) && Covered(items, cats)
    ensures TotalListed(items, cats) == |items|
  {
    if items == [] {
      TotalListedEmpty(cats);
    } else {
      var x, rest := items[0], items[1..];
      assert items == [x] + rest;
      assert Covered(rest, cats) by {
        forall i | i in rest ensures EffectiveCategory(i) in cats {
          assert i in items;
        }
      }
      EveryItemListedOnce(rest, cats);
      TotalListedCons(x, rest, cats);
      assert x in items;
      OccursOnce(cats, EffectiveCategory(x));
    }
  }

  lemma {:induction false} TotalListedEmpty(cats: seq<string>)
    ensures TotalListed([], cats) == 0
  {
    if cats != [] {
      TotalListedEmpty(cats[1..]);
    }
  }
}
