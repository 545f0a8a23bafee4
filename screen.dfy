/**
  The search screen's component state and the handlers that replace it:
  the query, the loaded items and categories, the filtered results, the
  recent searches and the click counts.
 */
module Screen {
  import opened Wrappers
  import opened Text
  import opened Ids
  import opened Entries
  import opened Filtering
  import opened Clicks
  import opened Popular

  class SearchModal {
    var query: string
    var items: seq<Entry>
    var categories: seq<Entry>
    var filteredResults: seq<Entry>
    var recentSearches: seq<Entry>
    var clickCounts: map<string, Click>

    /**
      The filter effect has run for the current query and lists, and the
      recent searches are as the click handler builds them.
     */
    ghost predicate Valid()
      reads this
    {
      && filteredResults == Search(query, items, categories)
      && RecentsWellFormed(recentSearches)
      && CountKeysWellFormed(clickCounts)
    }

    /** `sortedPopularItems` for the current click counts. */
    ghost function Popular(): (r: seq<PopularItem>)
      reads this
      requires Valid()
      ensures |r| <= 5
      ensures forall i :: 0 <= i < |r| ==> r[i].count >= 3 && r[i].kind != "" && IsTruthyId(r[i].id)
      ensures forall i, j :: 0 <= i < j < |r| ==> r[i].count >= r[j].count && r[i].id != r[j].id
    {
      var es := EntriesOf(clickCounts);
      PopularIdsDistinct(clickCounts, es);
      PopularItems(es)
    }

    /** The screen as first rendered: every piece of state empty. */
    constructor ()
      ensures Valid()
      ensures query == "" && items == [] && categories == []
      ensures filteredResults == [] && recentSearches == [] && clickCounts == map[]
    {
      query := "";
      items := [];
      categories := [];
      filteredResults := [];
      recentSearches := [];
      clickCounts := map[];
    }

    /** `setItems`/`setCategories` with the fetched lists, followed by the filter effect. */
    method Loaded(newItems: seq<Entry>, newCategories: seq<Entry>)
      requires Valid()
      modifies this
      ensures Valid()
      ensures items == newItems && categories == newCategories
      ensures query == old(query) && recentSearches == old(recentSearches) && clickCounts == old(clickCounts)
    {
      var results := Search(query, newItems, newCategories);
      items, categories, filteredResults := newItems, newCategories, results;
    }

    /** `setSearchQuery`, followed by the filter effect. */
    method SetQuery(q: string)
      requires Valid()
      modifies this
      ensures Valid()
      ensures query == q
      ensures IsBlank(q) ==> filteredResults == []
      ensures items == old(items) && categories == old(categories)
      ensures recentSearches == old(recentSearches) && clickCounts == old(clickCounts)
    {
      var results := Search(q, items, categories);
      query, filteredResults := q, results;
    }

    /**
      `handleItemClick(item)`. `recentsSaved` says whether writing the
      recent searches to storage succeeded; when it fails the handler's
      `catch` ends it before the counts change or anything is navigated.
      The result is the route passed to `router.replace`, if any.
     */
    method HandleItemClick(item: Entry, recentsSaved: bool) returns (route: Option<string>)
      requires Valid()
      modifies this
      ensures Valid()
      ensures query == old(query) && items == old(items) && categories == old(categories)
      ensures filteredResults == old(filteredResults)
      ensures !IsTruthyId(item.id) ==>
        recentSearches == old(recentSearches) && clickCounts == old(clickCounts) && route == None
      ensures IsTruthyId(item.id) ==>
        var c := Complete(item, items);
        && recentSearches == UpdateRecents(old(recentSearches), c)
        && recentSearches[0] == c
        && (recentsSaved ==>
              && clickCounts == RecordClick(old(clickCounts), IdKey(item.id.value), item.name, c.kind)
              && route == Some(Route(item.id.value, c.kind.value)))
        && (!recentsSaved ==> clickCounts == old(clickCounts) && route == None)
    {
      var complete := Complete(item, items);
      if !IsTruthyId(complete.id) {
        return None;
      }
      UpdateRecentsWellFormed(recentSearches, complete);
      recentSearches := UpdateRecents(recentSearches, complete);
      if !recentsSaved {
        return None;
      }
      var id := complete.id.value;
      RecordClickKeysWellFormed(clickCounts, id, complete.name, complete.kind);
      clickCounts := RecordClick(clickCounts, IdKey(id), complete.name, complete.kind);
      route := Some(Route(id, complete.kind.value));
    }

    /**
      `clearClickCounts`. `removed` says whether removing the stored
      counts succeeded; when it fails the handler stops before the reset.
     */
    method ClearClickCounts(removed: bool)
      requires Valid()
      modifies this
      ensures Valid()
      ensures clickCounts == if removed then map[] else old(clickCounts)
      ensures removed ==> Popular() == []
      ensures query == old(query) && items == old(items) && categories == old(categories)
      ensures filteredResults == old(filteredResults) && recentSearches == old(recentSearches)
    {
      if removed {
        clickCounts := map[];
      }
    }
  }
}
