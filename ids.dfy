/** A value that may be absent. */
module Wrappers {
  datatype Option<T> = None | Some(value: T)
}

/**
  Entry ids and the string keys of the click-count map. The screen keys
  its map by `String(id)` (a computed property name) and reads ids back
  with `parseInt(key)`; both are modelled here for integers, in decimal.
 */
module Ids {
  import opened Wrappers
  import Text

  /** JavaScript truthiness of an id: `undefined`, `null`, `NaN` (all `None`) and `0` are falsy. */
  predicate IsTruthyId(id: Option<int>)
  {
    id.Some? && id.value != 0
  }

  predicate IsDigit(c: char)
  {
    '0' <= c <= '9'
  }

  function DigitChar(d: nat): (c: char)
    requires d < 10
    ensures IsDigit(c)
  {
    ('0' as int + d) as char
  }

  function DigitValue(c: char): (d: nat)
    requires IsDigit(c)
    ensures d < 10
  {
    c as int - '0' as int
  }

  /** The decimal numeral of `n`, most significant digit first, without leading zeros. */
  function Digits(n: nat): (s: string)
    ensures |s| >= 1
    ensures forall i :: 0 <= i < |s| ==> IsDigit(s[i])
    decreases n
  {
    if n < 10 then [DigitChar(n)] else Digits(n / 10) + [DigitChar(n % 10)]
  }

  /** `String(n)` for an integer `n`: the key under which the click counts store an id. */
  function IdKey(n: int): (s: string)
    ensures |s| >= 1 && (s[0] == '-' || IsDigit(s[0]))
  {
    if n < 0 then "-" + Digits(-n) else Digits(n)
  }

  /** The value of a string of decimal digits. */
  function DigitsValue(s: string): nat
    requires forall i :: 0 <= i < |s| ==> IsDigit(s[i])
  {
    if s == [] then 0 else DigitsValue(s[..|s| - 1]) * 10 + DigitValue(s[|s| - 1])
  }

  /** The longest prefix of `s` made of decimal digits. */
  function DigitPrefix(s: string): (r: string)
    ensures |r| <= |s| && r == s[..|r|]
    ensures forall i :: 0 <= i < |r| ==> IsDigit(s[i])
    ensures |r| < |s| ==> !IsDigit(s[|r|])
  {
    if s != [] && IsDigit(s[0]) then [s[0]] + DigitPrefix(s[1..]) else []
  }

  /**
    `parseInt(s)` in base 10: leading white space is skipped, one sign is
    read, then the longest run of digits; no digits at all gives `NaN`,
    written `None`.
   */
  function ParseInt(s: string): (r: Option<int>)
  {
    var t := Text.TrimStart(s);
    var negative := t != [] && t[0] == '-';
    var body := if t != [] && (t[0] == '-' || t[0] == '+') then t[1..] else t;
    var digits := DigitPrefix(body);
    var magnitude: int := if digits == [] then 0 else DigitsValue(digits);
    if digits == [] then None
    else if negative then Some(-magnitude)
    else Some(magnitude)
  }

  lemma {:induction false} DigitsValueOfDigits(n: nat)
    ensures DigitsValue(Digits(n)) == n
    decreases n
  {
    if n >= 10 {
      DigitsValueOfDigits(n / 10);
      var s := Digits(n);
      assert s[..|s| - 1] == Digits(n / 10);
    }
  }

  lemma {:induction false} DigitPrefixOfDigits(s: string)
    requires forall i :: 0 <= i < |s| ==> IsDigit(s[i])
    ensures DigitPrefix(s) == s
  {
    if s != [] {
      DigitPrefixOfDigits(s[1..]);
    }
  }

  /** `parseInt(String(n)) === n`: reading a key back gives the id it was written for. */
  lemma ParseIdKey(n: int)
    ensures ParseInt(IdKey(n)) == Some(n)
  {
    var m := if n < 0 then -n else n;
    DigitPrefixOfDigits(Digits(m));
    DigitsValueOfDigits(m);
    var k := IdKey(n);
    assert !Text.IsWhitespace(k[0]);
    assert Text.TrimStart(k) == k;
    if n < 0 {
      assert k[1..] == Digits(m);
    }
  }

  /** `k` is `String(n)` for a truthy id `n`, which `parseInt(k)` reads back. */
  predicate IsIdKey(k: string)
  {
    var n := ParseInt(k);
    n.Some? && n.value != 0 && IdKey(n.value) == k
  }

  /** The key a click stores for a truthy id is an id key. */
  lemma IdKeyIsIdKey(n: int)
    requires n != 0
    ensures IsIdKey(IdKey(n))
  {
    ParseIdKey(n);
  }

  /** Distinct ids have distinct keys, so the click-count map never merges two ids. */
  lemma IdKeyInjective(a: int, b: int)
    requires IdKey(a) == IdKey(b)
    ensures a == b
  {
    ParseIdKey(a);
    ParseIdKey(b);
  }

  /** No id is stored under the key `"undefined"` that the popular list skips. */
  lemma IdKeyNotUndefined(n: int)
    ensures IdKey(n) != "undefined"
  {
    assert "undefined"[0] == 'u';
  }
}
