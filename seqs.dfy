/**
  Generic sequence vocabulary used by the search screen: JavaScript's
  `Array.prototype.filter` and `slice(0, n)`, and an order-preserving
  notion of "subsequence" that pins down what a filter returns.
 */
module Seqs {

  function Min(a: int, b: int): int
  {
    if a <= b then a else b
  }

  /** Number of elements of `s` that satisfy `p`. */
  function Count<T>(p: T -> bool, s: seq<T>): (n: nat)
    ensures n <= |s|
  {
    if s == [] then 0 else (if p(s[0]) then 1 else 0) + Count(p, s[1..])
  }

  /** `r` is obtained from `s` by deleting elements, keeping the order of the rest. */
  ghost predicate SubsequenceOf<T>(r: seq<T>, s: seq<T>)
    decreases |s|
  {
    if r == [] then true
    else if s == [] then false
    else (r[0] == s[0] && SubsequenceOf(r[1..], s[1..])) || SubsequenceOf(r, s[1..])
  }

  /**
    `r` is what filtering `s` by `p` must give: it keeps the order of `s`,
    holds only elements satisfying `p`, and holds as many as `s` has.
   */
  ghost predicate IsFilterOf<T>(r: seq<T>, s: seq<T>, p: T -> bool)
  {
    && SubsequenceOf(r, s)
    && (forall i :: 0 <= i < |r| ==> p(r[i]))
    && |r| == Count(p, s)
  }

  /** `s.filter(p)`. */
  function Filter<T>(p: T -> bool, s: seq<T>): (r: seq<T>)
    ensures IsFilterOf(r, s, p)
    ensures forall i :: 0 <= i < |r| ==> r[i] in s
    ensures forall i :: 0 <= i < |s| && p(s[i]) ==> s[i] in r
  {
    if s == [] then []
    else
      assert s == [s[0]] + s[1..];
      if p(s[0]) then [s[0]] + Filter(p, s[1..]) else Filter(p, s[1..])
  }

  /** `s.slice(0, n)`: the first `n` elements, or all of `s` when it is shorter. */
  function Take<T>(s: seq<T>, n: nat): (r: seq<T>)
    ensures |r| == Min(n, |s|)
    ensures r == s[..|r|]
  {
    if |s| <= n then s else s[..n]
  }

  /** A subsequence whose elements all satisfy `p` cannot be longer than the count of `p` in `s`. */
  lemma {:induction false} SubsequenceCount<T>(r: seq<T>, s: seq<T>, p: T -> bool)
    requires SubsequenceOf(r, s)
    requires forall i :: 0 <= i < |r| ==> p(r[i])
    ensures |r| <= Count(p, s)
    decreases |s|
  {
    if r == [] {
    } else if r[0] == s[0] && SubsequenceOf(r[1..], s[1..]) {
      SubsequenceCount(r[1..], s[1..], p);
    } else {
      SubsequenceCount(r, s[1..], p);
    }
  }

  /** There is exactly one filter of `s` by `p`: `IsFilterOf` determines the result. */
  lemma {:induction false} FilterOfUnique<T>(r1: seq<T>, r2: seq<T>, s: seq<T>, p: T -> bool)
    requires IsFilterOf(r1, s, p)
    requires IsFilterOf(r2, s, p)
    ensures r1 == r2
    decreases |s|
  {
    if s == [] {
    } else if p(s[0]) {
      HeadKept(r1, s, p);
      HeadKept(r2, s, p);
      FilterOfUnique(r1[1..], r2[1..], s[1..], p);
      assert r1 == [r1[0]] + r1[1..];
      assert r2 == [r2[0]] + r2[1..];
    } else {
      HeadDropped(r1, s, p);
      HeadDropped(r2, s, p);
      FilterOfUnique(r1, r2, s[1..], p);
    }
  }

  /** When the first element of `s` satisfies `p`, every filter of `s` starts with it. */
  lemma HeadKept<T>(r: seq<T>, s: seq<T>, p: T -> bool)
    requires s != [] && p(s[0])
    requires IsFilterOf(r, s, p)
    ensures r != [] && r[0] == s[0] && IsFilterOf(r[1..], s[1..], p)
  {
    if !(r[0] == s[0] && SubsequenceOf(r[1..], s[1..])) {
      SubsequenceCount(r, s[1..], p);
      assert false;
    }
  }

  /** When the first element of `s` fails `p`, every filter of `s` is a filter of its tail. */
  lemma HeadDropped<T>(r: seq<T>, s: seq<T>, p: T -> bool)
    requires s != [] && !p(s[0])
    requires IsFilterOf(r, s, p)
    ensures IsFilterOf(r, s[1..], p)
  {
  }

  /** Every prefix of a subsequence of `s` is a subsequence of `s`. */
  lemma {:induction false} SubsequencePrefix<T>(r: seq<T>, s: seq<T>, k: nat)
    requires SubsequenceOf(r, s)
    requires k <= |r|
    ensures SubsequenceOf(r[..k], s)
    decreases |s|
  {
    if k == 0 {
    } else if r[0] == s[0] && SubsequenceOf(r[1..], s[1..]) {
      SubsequencePrefix(r[1..], s[1..], k - 1);
      assert r[..k][1..] == r[1..][..k - 1];
    } else {
      SubsequencePrefix(r, s[1..], k);
    }
  }
}
