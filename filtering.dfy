/**
  The effect that recomputes the search results whenever the query, the
  loaded items or the loaded categories change.
 */
module Filtering {
  import opened Seqs
  import opened Text
  import opened Entries

  /** `name.toLowerCase().includes(query.toLowerCase())`: the query is matched untrimmed. */
  predicate Matches(query: string, e: Entry)
  {
    Includes(Lower(e.name), Lower(query))
  }

  function MatcherOf(query: string): Entry -> bool
  {
    (e: Entry) => Matches(query, e)
  }

  /**
    The filtered results for `query`: nothing for a blank query, otherwise
    the matching items followed by the matching categories. The screen
    tests `query.trim() === ""`, which `TrimEmptyIffBlank` shows is `IsBlank`.
   */
  function Search(query: string, items: seq<Entry>, categories: seq<Entry>): seq<Entry>
  {
    if IsBlank(query) then []
    else Filter(MatcherOf(query), items) + Filter(MatcherOf(query), categories)
  }

  /** A query that trims to the empty string clears the results, whatever is loaded. */
  lemma SearchBlank(query: string, items: seq<Entry>, categories: seq<Entry>)
    requires Trim(query) == ""
    ensures Search(query, items, categories) == []
  {
    TrimEmptyIffBlank(query);
  }

  /**
    For a non-blank query every result is a loaded item or category whose
    name matches, and every matching item and category is a result.
   */
  lemma SearchMembers(query: string, items: seq<Entry>, categories: seq<Entry>)
    requires Trim(query) != ""
    ensures var r := Search(query, items, categories);
      && (forall i :: 0 <= i < |r| ==> (r[i] in items || r[i] in categories) && Matches(query, r[i]))
      && (forall i :: 0 <= i < |items| && Matches(query, items[i]) ==> items[i] in r)
      && (forall i :: 0 <= i < |categories| && Matches(query, categories[i]) ==> categories[i] in r)
  {
    TrimEmptyIffBlank(query);
    var a := Filter(MatcherOf(query), items);
    var b := Filter(MatcherOf(query), categories);
    var r := Search(query, items, categories);
    assert r == a + b;
    forall i | 0 <= i < |r| ensures (r[i] in items || r[i] in categories) && Matches(query, r[i]) {
      if i < |a| {
        assert r[i] == a[i];
      } else {
        assert r[i] == b[i - |a|];
      }
    }
  }

  /**
    For a non-blank query the results are exactly the matching items in
    their loaded order, then exactly the matching categories in theirs.
   */
  lemma SearchExactly(query: string, items: seq<Entry>, categories: seq<Entry>)
    requires Trim(query) != ""
    ensures var r := Search(query, items, categories);
            var k := Count(MatcherOf(query), items);
            && k <= |r|
            && IsFilterOf(r[..k], items, MatcherOf(query))
            && IsFilterOf(r[k..], categories, MatcherOf(query))
  {
    TrimEmptyIffBlank(query);
    var a := Filter(MatcherOf(query), items);
    var b := Filter(MatcherOf(query), categories);
    assert Search(query, items, categories) == a + b;
    assert (a + b)[..|a|] == a;
    assert (a + b)[|a|..] == b;
  }

  /** Together with `SearchExactly`: no other list qualifies as the results. */
  lemma SearchUnique(query: string, items: seq<Entry>, categories: seq<Entry>, a: seq<Entry>, b: seq<Entry>)
    requires Trim(query) != ""
    ensures IsFilterOf(a, items, MatcherOf(query)) && IsFilterOf(b, categories, MatcherOf(query)) ==>
              Search(query, items, categories) == a + b
  {
    TrimEmptyIffBlank(query);
    if IsFilterOf(a, items, MatcherOf(query)) && IsFilterOf(b, categories, MatcherOf(query)) {
      FilterOfUnique(a, Filter(MatcherOf(query), items), items, MatcherOf(query));
      FilterOfUnique(b, Filter(MatcherOf(query), categories), categories, MatcherOf(query));
    }
  }
}
