/**
  The popular list the screen derives from its click counts on every
  render: the `[key, value]` pairs of the map, filtered, sorted by count
  from high to low, cut to five and mapped to `{id, name, type, count}`.
 */
module Popular {
  import opened Wrappers
  import opened Seqs
  import opened Ids
  import opened Entries

  /** One `[key, value]` pair of `Object.entries(clickCounts)`. */
  type Pair = (string, Click)

  /**
    `id !== "undefined" && item && item.count >= 3` for one `[id, item]`
    pair (every stored value is an object, so `item` is always truthy).
   */
  predicate Eligible(e: Pair)
  {
    e.0 != "undefined" && e.1.count >= 3
  }

  /** Counts never increase along `s`. */
  ghost predicate CountsDescending(s: seq<Pair>)
  {
    forall i, j :: 0 <= i < j < |s| ==> s[i].1.count >= s[j].1.count
  }

  /** Puts `x` into the descending list `s` behind every element with a larger count. */
  function Insert(x: Pair, s: seq<Pair>): (r: seq<Pair>)
    requires CountsDescending(s)
    ensures CountsDescending(r)
    ensures multiset(r) == multiset(s) + multiset{x}
    ensures r[0] == x || (s != [] && r[0] == s[0])
  {
    if s == [] || s[0].1.count <= x.1.count then
      ConsDescending(x, s);
      [x] + s
    else
      var t := Insert(x, s[1..]);
      assert s == [s[0]] + s[1..];
      ConsDescending(s[0], t);
      [s[0]] + t
  }

  /** A pair whose count is at least the head's can be put in front of a descending list. */
  lemma ConsDescending(a: Pair, t: seq<Pair>)
    requires CountsDescending(t)
    requires t != [] ==> a.1.count >= t[0].1.count
    ensures CountsDescending([a] + t)
  {
    var r := [a] + t;
    forall i, j | 0 <= i < j < |r| ensures r[i].1.count >= r[j].1.count {
      if i == 0 {
        assert r[j] == t[j - 1];
        assert t[0].1.count >= t[j - 1].1.count;
      } else {
        assert r[i] == t[i - 1] && r[j] == t[j - 1];
      }
    }
  }

  /**
    `sort((a, b) => b[1].count - a[1].count)`: the same pairs, counts
    descending. The order among equal counts is not specified.
   */
  function SortByCount(s: seq<Pair>): (r: seq<Pair>)
    ensures CountsDescending(r)
    ensures multiset(r) == multiset(s)
  {
    if s == [] then []
    else
      assert s == [s[0]] + s[1..];
      Insert(s[0], SortByCount(s[1..]))
  }

  /** The pairs behind the popular list: filtered, sorted and cut to five. */
  function Top(entries: seq<Pair>): (t: seq<Pair>)
    ensures |t| == Min(5, Count(Eligible, entries))
    ensures forall i :: 0 <= i < |t| ==> Eligible(t[i]) && t[i] in entries
    ensures CountsDescending(t)
    ensures multiset(t) <= multiset(entries)
  {
    var s := SortByCount(Filter(Eligible, entries));
    TakeSorted(entries, s);
    Take(s, 5)
  }

  lemma TakeSorted(entries: seq<Pair>, s: seq<Pair>)
    requires s == SortByCount(Filter(Eligible, entries))
    ensures var t := Take(s, 5);
      && |t| == Min(5, Count(Eligible, entries))
      && (forall i :: 0 <= i < |t| ==> Eligible(t[i]) && t[i] in entries)
      && CountsDescending(t)
      && multiset(t) <= multiset(entries)
  {
    var f := Filter(Eligible, entries);
    assert |s| == |multiset(s)| == |f|;
    var t := Take(s, 5);
    assert s == t + s[|t|..];
    assert multiset(s) == multiset(t) + multiset(s[|t|..]);
    FilterSubMultiset(Eligible, entries);
    forall i | 0 <= i < |t| ensures Eligible(t[i]) && t[i] in entries {
      assert t[i] in multiset(f);
    }
  }

  /** The element `{id: parseInt(key), name, type: type || "item", count}` built from one pair. */
  function ToPopularItem(e: Pair): PopularItem
  {
    PopularItem(ParseInt(e.0), e.1.name, OrElse(e.1.kind, "item"), e.1.count)
  }

  /** `sortedPopularItems`. */
  function PopularItems(entries: seq<Pair>): (r: seq<PopularItem>)
    ensures |r| == |Top(entries)| <= 5
    ensures forall i :: 0 <= i < |r| ==> r[i] == ToPopularItem(Top(entries)[i])
    ensures forall i :: 0 <= i < |r| ==> r[i].count >= 3 && r[i].kind != ""
    ensures forall i, j :: 0 <= i < j < |r| ==> r[i].count >= r[j].count
  {
    var t := Top(entries);
    seq(|t|, i requires 0 <= i < |t| => ToPopularItem(t[i]))
  }

  lemma {:induction false} FilterSubMultiset(p: Pair -> bool, s: seq<Pair>)
    ensures multiset(Filter(p, s)) <= multiset(s)
  {
    if s != [] {
      FilterSubMultiset(p, s[1..]);
      assert s == [s[0]] + s[1..];
    }
  }

  /**
    The popular list is a top five: an eligible pair that was left out
    has a count no larger than any that was kept, and then five were kept.
   */
  lemma TopIsTopK(entries: seq<Pair>, j: int)
    requires 0 <= j < |entries| && Eligible(entries[j])
    ensures entries[j] in Top(entries) ||
              (|Top(entries)| == 5 && forall i :: 0 <= i < 5 ==> Top(entries)[i].1.count >= entries[j].1.count)
  {
    var f := Filter(Eligible, entries);
    var s := SortByCount(f);
    var t := Take(s, 5);
    assert t == Top(entries);
    assert entries[j] in f;
    assert entries[j] in multiset(s);
    var k :| 0 <= k < |s| && s[k] == entries[j];
    if k < |t| {
      assert t[k] == s[k];
    }
  }

  /** Each popular element is built from an eligible pair of `entries`. */
  lemma PopularFromEligible(entries: seq<Pair>, i: int)
    requires 0 <= i < |PopularItems(entries)|
    ensures exists j :: 0 <= j < |entries| && Eligible(entries[j]) && PopularItems(entries)[i] == ToPopularItem(entries[j])
  {
    var t := Top(entries);
    var j :| 0 <= j < |entries| && entries[j] == t[i];
    assert PopularItems(entries)[i] == ToPopularItem(entries[j]);
  }

  /** No two pairs of `es` share a key. */
  ghost predicate DistinctKeys(es: seq<Pair>)
  {
    forall i, j :: 0 <= i < j < |es| ==> es[i].0 != es[j].0
  }

  lemma {:induction false} DistinctKeysOnce(es: seq<Pair>, x: Pair)
    requires DistinctKeys(es)
    ensures multiset(es)[x] <= 1
  {
    if es != [] {
      assert es == [es[0]] + es[1..];
      DistinctKeysOnce(es[1..], x);
      if es[0] == x {
        assert x !in es[1..];
      }
    }
  }

  /** An element found at two positions of `t` occurs at least twice in `multiset(t)`. */
  lemma TwiceInMultiset(t: seq<Pair>, i: int, j: int)
    requires 0 <= i < j < |t| && t[i] == t[j]
    ensures multiset(t)[t[i]] >= 2
  {
    assert t == t[..j] + t[j..];
    assert t[i] in t[..j];
    assert t[j..][0] == t[j];
  }

  /** In a list with distinct keys a key picks out one pair. */
  lemma KeyDeterminesPair(es: seq<Pair>, a: int, b: int)
    requires DistinctKeys(es)
    requires 0 <= a < |es| && 0 <= b < |es| && es[a].0 == es[b].0
    ensures a == b
  {
  }

  /** When the enumerated pairs have distinct keys, no key appears twice among the pairs kept. */
  lemma TopDistinctKeys(entries: seq<Pair>)
    requires DistinctKeys(entries)
    ensures DistinctKeys(Top(entries))
  {
    var t := Top(entries);
    forall i, j | 0 <= i < j < |t| ensures t[i].0 != t[j].0 {
      DistinctKeysOnce(entries, t[i]);
      assert multiset(t)[t[i]] <= 1;
      if t[i] == t[j] {
        TwiceInMultiset(t, i, j);
      }
      assert t[i] != t[j];
      var a :| 0 <= a < |entries| && entries[a] == t[i];
      var b :| 0 <= b < |entries| && entries[b] == t[j];
      if entries[a].0 == entries[b].0 {
        KeyDeterminesPair(entries, a, b);
      }
    }
  }

  /** `es` lists the `[key, value]` pairs of `m`, each key once, in some order. */
  ghost predicate Enumerates(es: seq<Pair>, m: map<string, Click>)
  {
    && (forall i :: 0 <= i < |es| ==> es[i].0 in m && m[es[i].0] == es[i].1)
    && (forall k :: k in m ==> (k, m[k]) in es)
    && DistinctKeys(es)
  }

  /** `Object.entries(m)`, in an order the model leaves open. */
  ghost function EntriesOf(m: map<string, Click>): (es: seq<Pair>)
    ensures Enumerates(es, m)
    decreases |m|
  {
    if |m| == 0 then []
    else
      var k :| k in m;
      var rest := EntriesOf(m - {k});
      EnumeratesCons(m, k, rest);
      [(k, m[k])] + rest
  }

  /** Putting a key's pair in front of an enumeration of the rest of the map enumerates the map. */
  lemma EnumeratesCons(m: map<string, Click>, k: string, rest: seq<Pair>)
    requires k in m && Enumerates(rest, m - {k})
    ensures Enumerates([(k, m[k])] + rest, m)
  {
    var es := [(k, m[k])] + rest;
    forall i | 0 <= i < |es| ensures es[i].0 in m && m[es[i].0] == es[i].1 {
      if i > 0 {
        assert es[i] == rest[i - 1];
      }
    }
    forall k' | k' in m ensures (k', m[k']) in es {
      if k' != k {
        assert k' in m - {k};
      }
    }
    forall i, j | 0 <= i < j < |es| ensures es[i].0 != es[j].0 {
      assert es[j] == rest[j - 1];
      if i > 0 {
        assert es[i] == rest[i - 1];
      }
    }
  }

  /**
    Read on a click-count map: every popular element stands for a key of
    the map other than "undefined" with a count of at least 3, and a key
    of that kind that was left out has a count no larger than any shown.
   */
  lemma PopularOfMap(m: map<string, Click>, es: seq<Pair>, k: string)
    requires Enumerates(es, m)
    requires k in m && k != "undefined" && m[k].count >= 3
    ensures forall i :: 0 <= i < |Top(es)| ==> Top(es)[i].0 in m && Eligible((Top(es)[i].0, m[Top(es)[i].0]))
    ensures (k, m[k]) !in Top(es) ==> |Top(es)| == 5 && forall i :: 0 <= i < 5 ==> Top(es)[i].1.count >= m[k].count
  {
    var j :| 0 <= j < |es| && es[j] == (k, m[k]);
    TopIsTopK(es, j);
  }

  /** The id of a popular element built from the key of id `n` is `n` again. */
  lemma PopularIdOfKey(n: int, c: Click)
    ensures ToPopularItem((IdKey(n), c)).id == Some(n)
  {
    ParseIdKey(n);
  }

  /**
    When every key of the map is the key of a truthy id, the popular list
    shows truthy, pairwise distinct ids, and the `"undefined"` test never
    drops a key.
   */
  lemma PopularIdsDistinct(m: map<string, Click>, es: seq<Pair>)
    requires Enumerates(es, m)
    requires forall k :: k in m ==> IsIdKey(k)
    ensures forall k :: k in m ==> k != "undefined"
    ensures var r := PopularItems(es);
      && (forall i :: 0 <= i < |r| ==> IsTruthyId(r[i].id))
      && (forall i, j :: 0 <= i < j < |r| ==> r[i].id != r[j].id)
  {
    forall k | k in m ensures k != "undefined" {
      IdKeyNotUndefined(ParseInt(k).value);
    }
    var t := Top(es);
    var r := PopularItems(es);
    TopDistinctKeys(es);
    forall i | 0 <= i < |r| ensures IsTruthyId(r[i].id) {
      assert t[i] in es && t[i].0 in m;
    }
    forall i, j | 0 <= i < j < |r| ensures r[i].id != r[j].id {
      assert t[i] in es && t[j] in es && t[i].0 != t[j].0;
      assert IsIdKey(t[i].0) && IsIdKey(t[j].0);
    }
  }
}
