/**
  The values the search screen handles: loaded items and categories,
  clicked entries, recent searches, click-count records and popular items.
 */
module Entries {
  import opened Wrappers

  /**
    An entry shown on the screen or remembered by it. `kind` is the
    `type` property ("item" or "category"); it may be absent on an entry
    handed to the click handler. An absent `id` stands for `undefined`.
   */
  datatype Entry = Entry(id: Option<int>, name: string, kind: Option<string>)

  /** One value of the click-count map: `{count, name, type}`. */
  datatype Click = Click(count: nat, name: string, kind: Option<string>)

  /** One element of the popular list: `{id, name, type, count}`. */
  datatype PopularItem = PopularItem(id: Option<int>, name: string, kind: string, count: nat)

  /** JavaScript's `s || fallback` for a string property that may be absent: the empty string is falsy too. */
  function OrElse(s: Option<string>, fallback: string): string
  {
    if s.Some? && s.value != "" then s.value else fallback
  }

  /** No two entries of `s` share an id. */
  ghost predicate DistinctIds(s: seq<Entry>)
  {
    forall i, j :: 0 <= i < j < |s| ==> s[i].id != s[j].id
  }

  /** The test `i.id !== id` as a predicate on entries. */
  function OtherId(id: Option<int>): Entry -> bool
  {
    (e: Entry) => e.id != id
  }
}
