/**
  The rules `handleItemClick` applies to a clicked entry: resolve its
  type, move it to the front of the recent searches, bump its click
  count and choose the screen to navigate to.
 */
module Clicks {
  import opened Wrappers
  import opened Seqs
  import opened Ids
  import opened Entries

  /** `items.find((i) => i.id === id)`: the first loaded item with that id, if any. */
  function Find(items: seq<Entry>, id: Option<int>): (r: Option<Entry>)
    ensures r.Some? <==> exists i :: 0 <= i < |items| && items[i].id == id
    ensures r.Some? ==> r.value in items && r.value.id == id
    ensures r.Some? ==> forall i :: 0 <= i < |items| && items[i].id == id ==> items[i] == r.value || r.value in items[..i]
  {
    if items == [] then None
    else if items[0].id == id then Some(items[0])
    else
      var r := Find(items[1..], id);
      assert r.Some? ==> forall i :: 1 <= i < |items| && items[i].id == id ==>
        items[i] == r.value || r.value in items[1..][..i - 1];
      assert forall i :: 1 <= i < |items| ==> items[1..][..i - 1] == items[1..i];
      r
  }

  /** `item.type || (items.find(...) ? "item" : "category")`. */
  function ResolveKind(e: Entry, items: seq<Entry>): (k: string)
    ensures k != ""
    ensures e.kind.Some? && e.kind.value != "" ==> k == e.kind.value
    ensures e.kind.None? || e.kind.value == "" ==>
      && (k == "item" || k == "category")
      && (k == "item" <==> exists i :: 0 <= i < |items| && items[i].id == e.id)
  {
    if e.kind.Some? && e.kind.value != "" then e.kind.value
    else if Find(items, e.id).Some? then "item"
    else "category"
  }

  /** The `completeItem` built from a clicked entry: its id and name, and its resolved type. */
  function Complete(e: Entry, items: seq<Entry>): Entry
  {
    Entry(e.id, e.name, Some(ResolveKind(e, items)))
  }

  /** The recent searches are at most five entries with non-empty types and distinct, truthy ids. */
  ghost predicate RecentsWellFormed(recents: seq<Entry>)
  {
    && |recents| <= 5
    && DistinctIds(recents)
    && (forall i :: 0 <= i < |recents| ==> IsTruthyId(recents[i].id))
  }

  /** `[c, ...recents.filter((i) => i.id !== c.id)].slice(0, 5)`. */
  function UpdateRecents(recents: seq<Entry>, c: Entry): (r: seq<Entry>)
    ensures |r| == Min(5, 1 + Count(OtherId(c.id), recents))
    ensures r[0] == c
    ensures forall i :: 1 <= i < |r| ==> r[i].id != c.id && r[i] in recents
    ensures SubsequenceOf(r[1..], recents)
  {
    var rest := Filter(OtherId(c.id), recents);
    var r := Take([c] + rest, 5);
    assert r[1..] == rest[..|r| - 1];
    SubsequencePrefix(rest, recents, |r| - 1);
    r
  }

  /**
    The entries that survive behind the clicked one are the leading
    entries of the one list that filtering out its id can give.
   */
  lemma RecentsKeepLeadingOthers(recents: seq<Entry>, c: Entry, f: seq<Entry>)
    requires IsFilterOf(f, recents, OtherId(c.id))
    ensures var r := UpdateRecents(recents, c);
            |r| - 1 <= |f| && r[1..] == f[..|r| - 1]
  {
    FilterOfUnique(f, Filter(OtherId(c.id), recents), recents, OtherId(c.id));
    var rest := Filter(OtherId(c.id), recents);
    assert UpdateRecents(recents, c)[1..] == ([c] + rest)[1..|UpdateRecents(recents, c)|];
  }

  /** A click keeps the recent searches well formed. */
  lemma UpdateRecentsWellFormed(recents: seq<Entry>, c: Entry)
    requires RecentsWellFormed(recents)
    requires IsTruthyId(c.id)
    ensures RecentsWellFormed(UpdateRecents(recents, c))
  {
    var rest := Filter(OtherId(c.id), recents);
    FilterKeepsDistinctIds(OtherId(c.id), recents);
    var r := UpdateRecents(recents, c);
    assert r == Take([c] + rest, 5);
    forall i, j | 0 <= i < j < |r| ensures r[i].id != r[j].id {
      if i > 0 {
        assert r[i] == rest[i - 1] && r[j] == rest[j - 1];
      }
    }
  }

  /** Filtering never creates two entries with the same id. */
  lemma {:induction false} FilterKeepsDistinctIds(p: Entry -> bool, s: seq<Entry>)
    requires DistinctIds(s)
    ensures DistinctIds(Filter(p, s))
  {
    if s != [] {
      FilterKeepsDistinctIds(p, s[1..]);
      var tail := Filter(p, s[1..]);
      if p(s[0]) {
        var r := [s[0]] + tail;
        assert Filter(p, s) == r;
        forall i, j | 0 <= i < j < |r| ensures r[i].id != r[j].id {
          assert r[j] == tail[j - 1];
          if i == 0 {
            var k :| 0 <= k < |s[1..]| && s[1..][k] == tail[j - 1];
            assert s[k + 1] == r[j];
          } else {
            assert r[i] == tail[i - 1];
          }
        }
      }
    }
  }

  /** The count stored for `key` so far: `prevCounts[key]?.count || 0`. */
  function PrevCount(counts: map<string, Click>, key: string): nat
  {
    if key in counts then counts[key].count else 0
  }

  /** `{...prevCounts, [key]: {count: prev + 1, name, type}}`. */
  function RecordClick(counts: map<string, Click>, key: string, name: string, kind: Option<string>): (m: map<string, Click>)
    ensures m.Keys == counts.Keys + {key}
    ensures m[key].count == PrevCount(counts, key) + 1
    ensures m[key].name == name && m[key].kind == kind
    ensures forall k :: k in counts && k != key ==> m[k] == counts[k]
  {
    counts[key := Click(PrevCount(counts, key) + 1, name, kind)]
  }

  /** Every key of the click counts is `String(id)` for a truthy id. */
  ghost predicate CountKeysWellFormed(counts: map<string, Click>)
  {
    forall k :: k in counts ==> IsIdKey(k)
  }

  /** A click on a truthy id keeps every key of the counts an id key. */
  lemma RecordClickKeysWellFormed(counts: map<string, Click>, n: int, name: string, kind: Option<string>)
    requires CountKeysWellFormed(counts)
    requires n != 0
    ensures CountKeysWellFormed(RecordClick(counts, IdKey(n), name, kind))
  {
    IdKeyIsIdKey(n);
  }

  /** Clicks on one id do not change the counts of another, and each adds one to its own. */
  lemma RecordClickCommutes(counts: map<string, Click>, a: int, b: int, na: string, ka: Option<string>, nb: string, kb: Option<string>)
    requires a != b
    ensures var ab := RecordClick(RecordClick(counts, IdKey(a), na, ka), IdKey(b), nb, kb);
            var ba := RecordClick(RecordClick(counts, IdKey(b), nb, kb), IdKey(a), na, ka);
            ab == ba && ab[IdKey(a)].count == PrevCount(counts, IdKey(a)) + 1
  {
    var keyA, keyB := IdKey(a), IdKey(b);
    assert keyA != keyB by {
      if keyA == keyB {
        IdKeyInjective(a, b);
      }
    }
    var clickA := Click(PrevCount(counts, keyA) + 1, na, ka);
    var clickB := Click(PrevCount(counts, keyB) + 1, nb, kb);
    var onlyA := RecordClick(counts, keyA, na, ka);
    var onlyB := RecordClick(counts, keyB, nb, kb);
    assert PrevCount(onlyA, keyB) == PrevCount(counts, keyB);
    assert PrevCount(onlyB, keyA) == PrevCount(counts, keyA);
    assert RecordClick(onlyA, keyB, nb, kb) == counts[keyA := clickA][keyB := clickB];
    assert RecordClick(onlyB, keyA, na, ka) == counts[keyB := clickB][keyA := clickA];
  }

  /** `/categories/<id>` for a category, `/items/<id>` for anything else. */
  function Route(id: int, kind: string): string
  {
    if kind == "category" then "/categories/" + IdKey(id) else "/items/" + IdKey(id)
  }

  /** Different targets give different routes: the route fixes the id and whether it is a category. */
  lemma RouteDeterminesTarget(a: int, ka: string, b: int, kb: string)
    requires Route(a, ka) == Route(b, kb)
    ensures a == b
    ensures ka == "category" <==> kb == "category"
  {
    var ra, rb := Route(a, ka), Route(b, kb);
    assert ka == "category" <==> ra[1] == 'c';
    assert kb == "category" <==> rb[1] == 'c';
    if ka == "category" && kb == "category" {
      assert IdKey(a) == ra[12..] && IdKey(b) == rb[12..];
      IdKeyInjective(a, b);
    } else if ka != "category" && kb != "category" {
      assert IdKey(a) == ra[7..] && IdKey(b) == rb[7..];
      IdKeyInjective(a, b);
    }
  }
}
