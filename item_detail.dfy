/**
 * The search screen (`ItemDetail.tsx`, exported as `SearchResults`): the items whose name
 * contains the query, ignoring case and surrounding whitespace.
 */
module ItemDetail {
  import opened Wrappers
  import opened Text
  import opened ArrayOps
  import opened Inventory

  /** What the screen shows: no usable query, or the matching items. */
  datatype SearchView = NoQuery | Found(results: seq<Item>)

  /** The `q` parameter trimmed and lower-cased; the empty string when it is missing. */
  function NormaliseQuery(q: Option<string>): (query: string) {
    if q.None? then "" else Lower(Trim(q.value))
  }

  /** The items whose lower-cased name contains `query`, in catalogue order. */
  function Matches(items: seq<Item>, query: string): (r: seq<Item>) {
    Filter(items, (i: Item) => Includes(Lower(i.name), query))
  }

  /** The item's lower-cased name contains `query` at some position. */
  ghost predicate NameContains(i: Item, query: string) {
    exists k :: OccursAt(Lower(i.name), query, k)
  }

  /** An empty query shows "No search query." before any filtering. */
  function Render(items: seq<Item>, q: Option<string>): (v: SearchView)
    ensures v.NoQuery? <==> q.None? || forall k :: 0 <= k < |q.value| ==> IsSpace(q.value[k])
    ensures v.Found? ==> q.Some? && v.results == Matches(items, Lower(Trim(q.value)))
  {
    NormaliseQuerySpec(q);
    var query := NormaliseQuery(q);
    if query == "" then NoQuery else Found(Matches(items, query))
  }

  lemma LowerCharKeepsSpace(c: char)
    ensures IsSpace(LowerChar(c)) <==> IsSpace(c)
    ensures LowerChar(LowerChar(c)) == LowerChar(c)
  {
  }

  lemma LowerTail(s: string)
    requires s != []
    ensures Lower(s)[1..] == Lower(s[1..])
    ensures Lower(s)[..|s| - 1] == Lower(s[..|s| - 1])
  {
  }

  lemma {:induction false} TrimStartLower(s: string)
    ensures TrimStart(Lower(s)) == Lower(TrimStart(s))
  {
    if s != [] {
      LowerCharKeepsSpace(s[0]);
      LowerTail(s);
      TrimStartLower(s[1..]);
    }
  }

  lemma {:induction false} TrimEndLower(s: string)
    ensures TrimEnd(Lower(s)) == Lower(TrimEnd(s))
  {
    if s != [] {
      LowerCharKeepsSpace(s[|s| - 1]);
      LowerTail(s);
      TrimEndLower(s[..|s| - 1]);
    }
  }

  /** Trimming and lower-casing commute, since lower-casing maps whitespace to whitespace. */
  lemma TrimLowerCommute(s: string)
    ensures Lower(Trim(s)) == Trim(Lower(s))
  {
    TrimStartLower(s);
    TrimEndLower(TrimStart(s));
  }

  /**
   * The normalised query has no surrounding whitespace and no upper-case letter, and it is
   * empty exactly when the parameter is missing or all whitespace.
   */
  lemma NormaliseQuerySpec(q: Option<string>)
    ensures var n := NormaliseQuery(q);
      (n == "" <==> q.None? || forall k :: 0 <= k < |q.value| ==> IsSpace(q.value[k])) &&
      (n != "" ==> !IsSpace(n[0]) && !IsSpace(n[|n| - 1])) &&
      Lower(n) == n
  {
    if q.Some? {
      var s := q.value;
      TrimEmptyIff(s);
      TrimLowerCommute(s);
      var n := NormaliseQuery(q);
      forall k | 0 <= k < |n| ensures LowerChar(n[k]) == n[k] {
        LowerCharKeepsSpace(Trim(s)[k]);
      }
    }
  }

  /** Two queries that differ only in letter case find the same items. */
  lemma QueryIgnoresCase(items: seq<Item>, a: string, b: string)
    requires SameUpToCase(a, b)
    ensures Render(items, Some(a)) == Render(items, Some(b))
  {
    TrimLowerCommute(a);
    TrimLowerCommute(b);
    LowerIgnoresCase(a, b);
  }

  /**
   * The results are the items, in catalogue order, whose lower-cased name contains the query
   * at some position; two names that differ only in letter case are found together.
   */
  lemma MatchesSpec(items: seq<Item>, query: string)
    ensures IsSubsequence(Matches(items, query), items)
    ensures forall i :: i in Matches(items, query) <==> i in items && NameContains(i, query)
    ensures forall i :: i in multiset(items) ==>
      multiset(Matches(items, query))[i] == if NameContains(i, query) then multiset(items)[i] else 0
    ensures forall a, b :: a in items && b in items && SameUpToCase(a.name, b.name) ==>
      (a in Matches(items, query) <==> b in Matches(items, query))
  {
    FilterIsSubsequence(items, (i: Item) => Includes(Lower(i.name), query));
    forall i
      ensures i in Matches(items, query) <==> i in items && NameContains(i, query)
    {
      IncludesIffOccurs(Lower(i.name), query);
      assert i in Matches(items, query) <==> i in items && Includes(Lower(i.name), query);
    }
    forall a, b | a in items && b in items && SameUpToCase(a.name, b.name) {
      LowerIgnoresCase(a.name, b.name);
    }
  }
}
