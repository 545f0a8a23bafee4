# Search modal: a verified model

This project models the search screen of a local-business discovery app.
The screen is the `SearchModal` component in `frontend/app/test.tsx`.
It keeps this state:

- the query;
- the loaded items and categories;
- the filtered results;
- the list of recent searches;
- a map from id strings to click records `{count, name, type}`. Every key is `String(id)` for a truthy id, since only the click handler adds keys.

Five rules act on that state:

- **Query filtering.** A blank query gives no results. Any other query gives
  every item whose lower-cased name contains the lower-cased query, then every
  category that matches the same way.
- **Type resolution.** A clicked entry keeps its own `type`. An entry without
  one becomes `"item"` when a loaded item has its id, and `"category"`
  otherwise.
- **Recent searches.** This is a most-recently-used list of at most five
  entries. The clicked entry moves to the front, and any older entry with the
  same id is dropped.
- **Click counts.** A click adds one to the id's count, counting from 0, and
  overwrites its name and type. Clearing empties the map.
- **Popular list.** Keep the pairs whose key is not `"undefined"` and whose
  count is at least 3. Sort them by count, highest first, and keep five. A
  missing type becomes `"item"`.

The click handler also picks a route: `/categories/<id>` for a category,
`/items/<id>` for anything else.

Layout, one module per file:

- `seqs.dfy` (`Seqs`): `filter`, `slice(0, n)` and subsequences.
- `text.dfy` (`Text`): `trim`, `toLowerCase` and `includes`.
- `ids.dfy` (`Wrappers`, `Ids`): id truthiness, `String(id)` and `parseInt`.
- `entries.dfy` (`Entries`): the screen's value types.
- `filtering.dfy` (`Filtering`): the filter effect.
- `clicks.dfy` (`Clicks`): the click handler's rules.
- `popular.dfy` (`Popular`): the popular list.
- `screen.dfy` (`Screen`): the class `SearchModal`. It holds the state, and its
  methods replace that state the way the component's setters do.

Each method's contract gives the whole new state as a function of the old one.
Those functions carry the properties, proved as `ensures` clauses and lemmas.

Items and categories have separate id spaces. The screen keys both the recent
searches and the click counts by id alone, and the model does the same. So an
item and a category with the same id share one recent-search slot and one
click record.

## Model

| member | source | states |
|---|---|---|
| `Seqs.Filter` | frontend/app/test.tsx:141-146 | `filter` keeps the order of its input. It keeps only elements that pass the test, and it keeps all of them. |
| `Seqs.Take` | frontend/app/test.tsx:172 | `slice(0, 5)` returns the first five elements, or the whole list when it is shorter. |
| `Seqs.FilterOfUnique` | frontend/app/test.tsx:141-146 | Those three conditions determine the filtered list: no other list meets them. |
| `Text.TrimEmptyIffBlank` | frontend/app/test.tsx:137 | `query.trim() === ""` holds exactly when every character of the query is JavaScript white space. |
| `Text.Lower` | frontend/app/test.tsx:140-145 | `toLowerCase` keeps the length, turns each ASCII capital into its lower-case letter and keeps every other character. |
| `Text.Includes` | frontend/app/test.tsx:142 | `includes` holds exactly when the needle occurs at some position of the name. |
| `Filtering.SearchBlank` | frontend/app/test.tsx:137-138 | A query that trims to the empty string gives no results, whatever is loaded. |
| `Filtering.SearchMembers` | frontend/app/test.tsx:139-147 | For any other query, every result is a loaded item or category whose name matches, and every matching item and category appears. |
| `Filtering.SearchExactly` | frontend/app/test.tsx:140-147 | For a query that does not trim to the empty string, the results are the matching items in loaded order, then the matching categories in loaded order. |
| `Filtering.SearchUnique` | frontend/app/test.tsx:140-147 | Any two lists that each meet the filter conditions, one for items and one for categories, joined together are the results. |
| `Clicks.Find` | frontend/app/test.tsx:160 | `find` returns a value exactly when some item has the id. That value is the first such item. |
| `Clicks.ResolveKind` | frontend/app/test.tsx:155-161 | A non-empty `type` is kept. Otherwise the type is `"item"` exactly when a loaded item has the entry's id, and `"category"` otherwise. The resolved type is never empty. |
| `Clicks.UpdateRecents` | frontend/app/test.tsx:169-172 | The new list starts with the clicked entry. Its length is the smaller of 5 and one plus the number of older entries with another id. No other entry has the clicked id. The older entries keep their relative order. |
| `Clicks.RecentsKeepLeadingOthers` | frontend/app/test.tsx:169-172 | The entries behind the clicked one are the first entries of the older list with the clicked id removed. |
| `Clicks.UpdateRecentsWellFormed` | frontend/app/test.tsx:163-172 | A click with a truthy id keeps the list at five entries or fewer, with distinct, truthy ids. |
| `Clicks.RecordClick` | frontend/app/test.tsx:181-189 | The clicked key's count is its previous count plus one, where an absent key counts as 0. Its name and type are replaced. Every other key keeps its record, and no other key is added. |
| `Clicks.RecordClickKeysWellFormed` | frontend/app/test.tsx:181-189 | A click on a truthy id keeps every key of the click counts equal to `String(n)` for a truthy id `n` that `parseInt` reads back. |
| `Clicks.RecordClickCommutes` | frontend/app/test.tsx:181-189 | Clicks on two different ids give the same map in either order. Each id gains exactly one count. |
| `Clicks.RouteDeterminesTarget` | frontend/app/test.tsx:195-199 | Two equal routes have the same id and agree on whether the target is a category. |
| `Ids.IdKey` | frontend/app/test.tsx:184 | `String(id)` is non-empty and starts with `-` or a digit. |
| `Ids.ParseIdKey` | frontend/app/test.tsx:210-211 | `parseInt(String(n))` gives back `n`. |
| `Ids.IdKeyIsIdKey` | frontend/app/test.tsx:184 | The key stored for a truthy id is read back by `parseInt` as that same truthy id. |
| `Ids.IdKeyInjective` | frontend/app/test.tsx:184 | Different ids are stored under different keys. |
| `Ids.IdKeyNotUndefined` | frontend/app/test.tsx:207 | No id is ever stored under the key `"undefined"`. |
| `Popular.SortByCount` | frontend/app/test.tsx:208 | The sort returns the same pairs, with counts non-increasing. |
| `Popular.Top` | frontend/app/test.tsx:206-209 | At most five pairs are kept: the smaller of 5 and the number of eligible pairs. Each kept pair is eligible and comes from the entries. Counts are non-increasing, and no pair is kept more often than it occurs. |
| `Popular.PopularItems` | frontend/app/test.tsx:206-215 | The popular list has one element per kept pair, built from that pair in the same position, so at most five. Each has a count of at least 3 and a non-empty type. Counts are non-increasing down the list. |
| `Popular.TopIsTopK` | frontend/app/test.tsx:206-209 | If an eligible pair was left out, five pairs were kept, and each has a count at least as large as the left-out pair's. |
| `Popular.PopularFromEligible` | frontend/app/test.tsx:206-215 | Every popular element is built from an eligible pair, that is, a key other than `"undefined"` with a count of at least 3. |
| `Popular.TopDistinctKeys` | frontend/app/test.tsx:206-209 | When the pairs have distinct keys, the kept pairs do too. |
| `Popular.EntriesOf` | frontend/app/test.tsx:206 | `Object.entries` lists every key of the map exactly once, with its record. |
| `Popular.PopularIdsDistinct` | frontend/app/test.tsx:206-215 | When every key of the map is `String(n)` for a truthy id `n`, the popular list shows truthy, pairwise distinct ids, and the `"undefined"` test never drops a key. |
| `Popular.PopularOfMap` | frontend/app/test.tsx:206-209 | Read on the map: each kept pair is a key of the map with an eligible record. An eligible key that was left out has a count no larger than any kept one. |
| `Popular.PopularIdOfKey` | frontend/app/test.tsx:210-211 | A popular element built from the key of id `n` has id `n`. |
| `Screen.SearchModal.constructor` | frontend/app/test.tsx:20-36 | The screen starts with an empty query, empty lists and empty click counts. |
| `Screen.SearchModal.Loaded` | frontend/app/test.tsx:123-124 | Storing the loaded lists re-runs the filter effect. It changes neither the query, nor the recent searches, nor the click counts. |
| `Screen.SearchModal.SetQuery` | frontend/app/test.tsx:136-149 | A new query re-runs the filter effect. A blank query empties the results. Nothing else changes. |
| `Screen.SearchModal.HandleItemClick` | frontend/app/test.tsx:152-203 | An entry with a falsy id changes nothing and navigates nowhere. Otherwise the recent searches are updated with the resolved entry. If storing them then succeeds, the click is counted and the route is returned; if it fails, neither happens. The query, lists and results stay unchanged. |
| `Screen.SearchModal.ClearClickCounts` | frontend/app/test.tsx:221-224 | After the stored counts are removed, the map is empty and the popular list is empty. If the removal fails, nothing changes. |
| `Screen.SearchModal.Popular` | frontend/app/test.tsx:206-215 | On a valid screen, the popular list of the current click counts has at most five elements. Each has a count of at least 3, a non-empty type and a truthy id. Counts are non-increasing, and no id appears twice. |

## Left out

- Loading recent searches and click counts from AsyncStorage (frontend/app/test.tsx:39-72) is not modelled. Neither is the effect that saves the counts on every change (89-100), the storage self-test (74-86), the debug read `checkStorage` (228-233), or the JSON encoding of stored values. These are I/O through a library that is not part of this model. Failures of the two writes the handlers await are modelled as boolean parameters: `recentsSaved` and `removed`.
- Counts loaded from storage are taken to be ones this screen wrote, so their keys are id keys as `Valid` requires. A hand-edited store with keys such as `"07"` and `"7"` could show one id twice in the popular list; the model does not cover that.
- Fetching items and categories and tagging each with `type` (103-133) is network I/O. The loaded lists are inputs to `Loaded`. The `loading` flag only drives rendering and is not modelled.
- `router.replace` and `router.back` are not modelled. Only the chosen route string is returned.
- `Text.Lower` folds only ASCII letters. JavaScript's `toLowerCase` folds all of Unicode.
- `Ids.ParseInt` reads decimal only. It does not handle the `0x` prefix `parseInt` accepts.
- Ids are integers, and `None` stands for `undefined`, `null` and `NaN`. Fractional ids, and ids that are strings, are not modelled. Ids are unbounded, so the model has no precision limit beyond 2^53 and no exponent form: JavaScript writes `String(1e21)` as `"1e+21"`, which `parseInt` reads as 1. `Ids.IdKey`, `Ids.ParseIdKey` and `Ids.IdKeyIsIdKey` describe JavaScript only for ids of magnitude below 2^53.
- The order of `Object.entries`, and the order `sort` gives to equal counts, are left open. `EntriesOf` picks some order, and every property is proved for any order.
- Stored click records are always objects. So the `item &&` test on line 207 always passes, and a `null` record from corrupt storage is not modelled.
- The handler reads `recentSearches` as captured by the render that created it. Overlapping asynchronous clicks, and state updates batched across renders, are not modelled: each click sees the state left by the previous one.
- The rendering code (236-458) is not modelled. This includes the way it builds the handler's argument from a recent search (302) or a popular element (328); the model takes that argument as an `Entry`.
- `Screen.SearchModal.Popular`: its own contract does not state the top-five property. That is proved on `Popular.TopIsTopK` and `Popular.PopularOfMap`, for any enumeration of the map.
- The other screens, the animation code, the routing configuration and the Django backend are not part of this model. They hold static UI, timers, framework declarations and file I/O.
