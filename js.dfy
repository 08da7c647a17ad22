/** JavaScript value semantics shared by the backend and the frontend models:
    optional values, JSON-compatible values and their truthiness, the rounding
    of `Math.ceil(n / d)`, and the decimal rendering of a non-negative number
    (`String(n)`, template literals, `toString()`). */
module Js {

  datatype Option<+T> = None | Some(value: T)

  /** A JSON-compatible JavaScript value as it crosses the REST API or the
      WebSocket. Numbers are integers; `Object` stands for any object or array. */
  datatype JsValue = Undefined | Null | Bool(b: bool) | Num(n: int) | Str(s: string) | Object

  /** JavaScript truthiness: `undefined`, `null`, `false`, `0` and `""` are falsy. */
  predicate Truthy(v: JsValue) {
    match v
    case Undefined => false
    case Null => false
    case Bool(b) => b
    case Num(n) => n != 0
    case Str(s) => s != ""
    case Object => true
  }

  /** The operand of `??` falls through exactly for `null` and `undefined`. */
  predicate Nullish(v: JsValue) {
    v.Undefined? || v.Null?
  }

  /** Property read `obj.key`: a missing key reads as `undefined`. */
  function Get(obj: map<string, JsValue>, key: string): JsValue {
    if key in obj then obj[key] else Undefined
  }

  function Min(a: int, b: int): int {
    if a <= b then a else b
  }

  function Max(a: int, b: int): int {
    if a <= b then b else a
  }

  /** `Math.ceil(n / d)` for a positive divisor: the least q with n <= q * d. */
  function CeilDiv(n: int, d: int): (q: int)
    requires d > 0
    ensures (q - 1) * d < n <= q * d
  {
    var m := -n;
    assert m == (m / d) * d + m % d;
    -(m / d)
  }

  predicate IsDigit(c: char) {
    '0' <= c <= '9'
  }

  predicate AllDigits(s: string) {
    forall i :: 0 <= i < |s| ==> IsDigit(s[i])
  }

  function DigitChar(d: nat): (c: char)
    requires d < 10
    ensures IsDigit(c) && (c as int) - ('0' as int) == d
  {
    (('0' as int) + d) as char
  }

  /** The decimal rendering of a non-negative integer, most significant digit first. */
  function NatToString(n: nat): (s: string)
    ensures |s| >= 1 && AllDigits(s)
    ensures s[0] == '0' ==> n == 0
  {
    if n < 10 then [DigitChar(n)] else NatToString(n / 10) + [DigitChar(n % 10)]
  }

  /** The number a string of decimal digits denotes (the inverse of NatToString). */
  function DigitsValue(s: string): nat
    requires AllDigits(s)
  {
    if s == [] then 0 else DigitsValue(s[..|s| - 1]) * 10 + ((s[|s| - 1] as int) - ('0' as int))
  }

  lemma {:induction false} NatToStringRoundTrip(n: nat)
    ensures DigitsValue(NatToString(n)) == n
  {
    if n >= 10 {
      var s := NatToString(n);
      NatToStringRoundTrip(n / 10);
      assert s[..|s| - 1] == NatToString(n / 10);
    }
  }

  lemma NatToStringInjective(a: nat, b: nat)
    requires NatToString(a) == NatToString(b)
    ensures a == b
  {
    NatToStringRoundTrip(a);
    NatToStringRoundTrip(b);
  }

  /** Every number from 1000 to 9999 is rendered with exactly four digits. */
  lemma FourDigits(n: nat)
    requires 1000 <= n <= 9999
    ensures |NatToString(n)| == 4
  {
    assert |NatToString(n / 1000)| == 1;
    assert |NatToString(n / 100)| == 2 by {
      assert (n / 100) / 10 == n / 1000;
    }
    assert |NatToString(n / 10)| == 3 by {
      assert (n / 10) / 10 == n / 100;
    }
  }
  /** `String(i)` for any integer: a minus sign before the digits of a negative number. */
  function IntToString(i: int): (s: string)
    ensures |s| >= 1
    ensures i >= 0 ==> s == NatToString(i)
    ensures i < 0 <==> s[0] == '-'
  {
    if i >= 0 then NatToString(i) else "-" + NatToString(-i)
  }

  lemma IntToStringInjective(a: int, b: int)
    requires IntToString(a) == IntToString(b)
    ensures a == b
  {
    if a < 0 && b < 0 {
      assert NatToString(-a) == IntToString(a)[1..];
      NatToStringInjective(-a, -b);
    } else if a >= 0 && b >= 0 {
      NatToStringInjective(a, b);
    }
  }

  /** JavaScript's `a % b` for a positive divisor: truncating, so the remainder takes
      the sign of `a`. */
  function JsRem(a: int, b: int): (r: int)
    requires b > 0
    ensures a >= 0 ==> r == a % b
    ensures -b < r < b
    ensures a < 0 ==> r <= 0
  {
    if a >= 0 then a % b else -((-a) % b)
  }

  /** `s.padStart(n, c)` with a one-character pad. */
  function PadStart(s: string, n: nat, c: char): (r: string)
    ensures |r| == Max(|s|, n)
    ensures r[|r| - |s|..] == s && forall i :: 0 <= i < |r| - |s| ==> r[i] == c
  {
    if |s| >= n then s else seq(n - |s|, _ => c) + s
  }

  /** Cancelling a common prefix. */
  lemma PrefixCancel<T>(p: seq<T>, a: seq<T>, b: seq<T>)
    requires p + a == p + b
    ensures a == b
  {
    assert a == (p + a)[|p|..];
    assert b == (p + b)[|p|..];
  }

  /** Cancelling a common suffix. */
  lemma SuffixCancel<T>(a: seq<T>, b: seq<T>, q: seq<T>)
    requires a + q == b + q
    ensures a == b
  {
    assert a == (a + q)[..|a|];
    assert b == (b + q)[..|b|];
  }

  /** `s.filter(keep)`: the elements that pass, in their order. */
  function Filter<T>(s: seq<T>, keep: T -> bool): (r: seq<T>)
    ensures |r| <= |s|
  {
    if s == [] then []
    else Filter(s[..|s| - 1], keep) + (if keep(s[|s| - 1]) then [s[|s| - 1]] else [])
  }

  /** The filter keeps exactly the elements that pass. */
  lemma {:induction false} FilterMember<T>(s: seq<T>, keep: T -> bool, x: T)
    ensures x in Filter(s, keep) <==> x in s && keep(x)
  {
    if s != [] {
      var front := s[..|s| - 1];
      FilterMember(front, keep, x);
      assert s == front + [s[|s| - 1]];
    }
  }

  lemma {:induction false} FilterAppend<T>(a: seq<T>, b: seq<T>, keep: T -> bool)
    ensures Filter(a + b, keep) == Filter(a, keep) + Filter(b, keep)
  {
    if b == [] {
      assert a + b == a;
    } else {
      var front := b[..|b| - 1];
      FilterAppend(a, front, keep);
      assert (a + b)[..|a + b| - 1] == a + front;
      assert (a + b)[|a + b| - 1] == b[|b| - 1];
    }
  }

  /** Filtering drops a single rejected element between two runs it keeps whole. */
  lemma FilterDropsOne<T>(a: seq<T>, x: T, b: seq<T>, keep: T -> bool)
    requires Filter(a, keep) == a && Filter(b, keep) == b && !keep(x)
    ensures Filter(a + ([x] + b), keep) == a + b
  {
    assert Filter([x], keep) == [] by {
      assert [x][..0] == [];
    }
    calc {
      Filter(a + ([x] + b), keep);
    == { FilterAppend(a, [x] + b, keep); }
      Filter(a, keep) + Filter([x] + b, keep);
    == { FilterAppend([x], b, keep); }
      a + ([] + b);
    }
    assert [] + b == b;
  }

  lemma {:induction false} FilterKeepsAll<T>(s: seq<T>, keep: T -> bool)
    requires forall i :: 0 <= i < |s| ==> keep(s[i])
    ensures Filter(s, keep) == s
  {
    if s != [] {
      FilterKeepsAll(s[..|s| - 1], keep);
    }
  }

  /** Filtering twice with the same test filters once. */
  lemma {:induction false} FilterIdempotent<T>(s: seq<T>, keep: T -> bool)
    ensures Filter(Filter(s, keep), keep) == Filter(s, keep)
  {
    var r := Filter(s, keep);
    forall i | 0 <= i < |r| ensures keep(r[i]) {
      FilterMember(s, keep, r[i]);
    }
    FilterKeepsAll(r, keep);
  }

  /** No two elements of `s` share a key. */
  ghost predicate KeysDistinct<T, K>(s: seq<T>, key: T -> K) {
    forall i, j :: 0 <= i < j < |s| ==> key(s[i]) != key(s[j])
  }

  /** A key that tells the elements apart still does after filtering. */
  lemma {:induction false} FilterKeepsInjective<T, K>(s: seq<T>, keep: T -> bool, key: T -> K)
    requires KeysDistinct(s, key)
    ensures KeysDistinct(Filter(s, keep), key)
  {
    if s != [] {
      var front := s[..|s| - 1];
      var last := s[|s| - 1];
      FilterKeepsInjective(front, keep, key);
      var rf := Filter(front, keep);
      assert Filter(s, keep) == rf + (if keep(last) then [last] else []);
      if keep(last) {
        forall i | 0 <= i < |rf|
          ensures key(rf[i]) != key(last)
        {
          FilterMember(front, keep, rf[i]);
          var j :| 0 <= j < |front| && front[j] == rf[i];
          assert s[j] == front[j];
        }
        AppendKeepsInjective(rf, last, key);
      } else {
        assert Filter(s, keep) == rf;
      }
    }
  }

  /** An element whose key differs from every key of an injectively keyed sequence
      keeps the keys distinct when appended. */
  lemma AppendKeepsInjective<T, K>(rf: seq<T>, last: T, key: T -> K)
    requires KeysDistinct(rf, key)
    requires forall i :: 0 <= i < |rf| ==> key(rf[i]) != key(last)
    ensures KeysDistinct(rf + [last], key)
  {
    var r := rf + [last];
    forall i, j | 0 <= i < j < |r|
      ensures key(r[i]) != key(r[j])
    {
      assert r[i] == rf[i];
      if j < |rf| {
        assert r[j] == rf[j];
      } else {
        assert r[j] == last;
      }
    }
  }
}
