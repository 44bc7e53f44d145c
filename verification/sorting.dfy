// Python's ordering of `str` values and its stable `list.sort(key=...)`.
module Sorting {

  /** Python's `a <= b` on strings: code point by code point, a proper prefix first. */
  predicate LexLe(a: string, b: string)
    decreases |a|
  {
    if |a| == 0 then true
    else if |b| == 0 then false
    else if a[0] < b[0] then true
    else if a[0] > b[0] then false
    else LexLe(a[1..], b[1..])
  }

  /** Python's `a < b` on strings. */
  predicate LexLt(a: string, b: string) {
    LexLe(a, b) && a != b
  }

  lemma {:induction false} LexLeRefl(a: string)
    ensures LexLe(a, a)
    decreases |a|
  {
    if |a| > 0 {
      LexLeRefl(a[1..]);
    }
  }

  lemma {:induction false} LexLeTotal(a: string, b: string)
    ensures LexLe(a, b) || LexLe(b, a)
    decreases |a|
  {
    if |a| > 0 && |b| > 0 && a[0] == b[0] {
      LexLeTotal(a[1..], b[1..]);
    }
  }

  lemma {:induction false} LexLeAntisymmetric(a: string, b: string)
    requires LexLe(a, b) && LexLe(b, a)
    ensures a == b
    decreases |a|
  {
    if |a| > 0 {
      LexLeAntisymmetric(a[1..], b[1..]);
      assert a == [a[0]] + a[1..] && b == [b[0]] + b[1..];
    }
  }

  lemma {:induction false} LexLeTransitive(a: string, b: string, c: string)
    requires LexLe(a, b) && LexLe(b, c)
    ensures LexLe(a, c)
    decreases |a|
  {
    if |a| > 0 && a[0] == b[0] && b[0] == c[0] {
      LexLeTransitive(a[1..], b[1..], c[1..]);
    }
  }

  /** Strings of equal length compare by their first difference. */
  lemma {:induction false} LexLeAppend(a: string, b: string, x: char, y: char)
    requires |a| == |b|
    ensures a != b ==> (LexLe(a + [x], b + [y]) <==> LexLe(a, b))
    ensures a == b ==> (LexLe(a + [x], b + [y]) <==> x <= y)
    decreases |a|
  {
    if |a| > 0 {
      assert (a + [x])[1..] == a[1..] + [x];
      assert (b + [y])[1..] == b[1..] + [y];
      LexLeAppend(a[1..], b[1..], x, y);
      if a[0] == b[0] && a[1..] != b[1..] {
        assert a != b;
      }
      if a[0] == b[0] && a[1..] == b[1..] {
        assert a == [a[0]] + a[1..] && b == [b[0]] + b[1..];
      }
    }
  }

  /**
   * Places `x` in front of the first element of `s` whose key is not below
   * `key(x)`: an element taken from earlier in the input goes before the
   * elements with an equal key.
   */
  function Insert<T>(x: T, s: seq<T>, key: T -> string): (r: seq<T>)
    ensures multiset(r) == multiset(s) + multiset{x}
    ensures |r| == |s| + 1
  {
    if |s| == 0 then [x]
    else if LexLe(key(x), key(s[0])) then [x] + s
    else
      assert s == [s[0]] + s[1..];
      [s[0]] + Insert(x, s[1..], key)
  }

  /** The result of Python's stable `xs.sort(key=key)`. */
  function SortBy<T>(xs: seq<T>, key: T -> string): (r: seq<T>)
    ensures multiset(r) == multiset(xs)
    ensures |r| == |xs|
  {
    if |xs| == 0 then []
    else
      assert xs == [xs[0]] + xs[1..];
      Insert(xs[0], SortBy(xs[1..], key), key)
  }

  /** `x` goes before `y` when ordered by `primary`, ties broken by `secondary`. */
  predicate Before<T>(primary: T -> string, secondary: T -> string, x: T, y: T) {
    LexLt(primary(x), primary(y)) || (primary(x) == primary(y) && LexLe(secondary(x), secondary(y)))
  }

  predicate SortedBy<T>(s: seq<T>, key: T -> string) {
    forall i, j :: 0 <= i < j < |s| ==> LexLe(key(s[i]), key(s[j]))
  }

  /** Ordered by `primary`, and by `secondary` within each run of equal `primary` keys. */
  predicate SortedByThen<T>(s: seq<T>, primary: T -> string, secondary: T -> string) {
    forall i, j :: 0 <= i < j < |s| ==> Before(primary, secondary, s[i], s[j])
  }

  /** Inserting at the front keeps the order when `x` belongs there. */
  lemma InsertAtFront<T>(x: T, s: seq<T>, primary: T -> string, secondary: T -> string)
    requires SortedByThen(s, primary, secondary)
    requires forall y :: y in s ==> LexLe(secondary(x), secondary(y))
    requires |s| > 0 && LexLe(primary(x), primary(s[0]))
    ensures SortedByThen([x] + s, primary, secondary)
  {
    var r := [x] + s;
    forall j | 0 < j < |r| ensures Before(primary, secondary, r[0], r[j]) {
      var y := s[j - 1];
      assert y in s;
      if j > 1 {
        assert Before(primary, secondary, s[0], y);
        LexLeRefl(primary(y));
        LexLeTransitive(primary(x), primary(s[0]), primary(y));
      }
    }
  }

  /** Passing over `s[0]` keeps the order when `s[0]` belongs in front of `x`. */
  lemma InsertPastHead<T>(x: T, s: seq<T>, rest: seq<T>, primary: T -> string, secondary: T -> string)
    requires SortedByThen(s, primary, secondary) && SortedByThen(rest, primary, secondary)
    requires |s| > 0 && !LexLe(primary(x), primary(s[0]))
    requires multiset(rest) == multiset(s[1..]) + multiset{x}
    ensures SortedByThen([s[0]] + rest, primary, secondary)
  {
    var r := [s[0]] + rest;
    LexLeTotal(primary(x), primary(s[0]));
    forall j | 0 < j < |r| ensures Before(primary, secondary, r[0], r[j]) {
      var z := rest[j - 1];
      assert z in multiset(rest);
      if z != x {
        assert z in s[1..];
        var k :| 0 <= k < |s[1..]| && s[1..][k] == z;
        assert s[k + 1] == z;
      }
    }
  }

  lemma {:induction false} InsertSortedByThen<T>(x: T, s: seq<T>, primary: T -> string, secondary: T -> string)
    requires SortedByThen(s, primary, secondary)
    requires forall y :: y in s ==> LexLe(secondary(x), secondary(y))
    ensures SortedByThen(Insert(x, s, primary), primary, secondary)
  {
    if |s| == 0 {
    } else if LexLe(primary(x), primary(s[0])) {
      InsertAtFront(x, s, primary, secondary);
    } else {
      assert forall y :: y in s[1..] ==> y in s;
      InsertSortedByThen(x, s[1..], primary, secondary);
      InsertPastHead(x, s, Insert(x, s[1..], primary), primary, secondary);
    }
  }

  /**
   * A stable sort by `primary` of a list already ordered by `secondary` leaves
   * it ordered by `primary`, then `secondary`.
   */
  lemma {:induction false} SortByStable<T>(xs: seq<T>, primary: T -> string, secondary: T -> string)
    requires SortedBy(xs, secondary)
    ensures SortedByThen(SortBy(xs, primary), primary, secondary)
  {
    if |xs| > 0 {
      var tail := SortBy(xs[1..], primary);
      SortByStable(xs[1..], primary, secondary);
      forall y | y in tail ensures LexLe(secondary(xs[0]), secondary(y)) {
        assert y in multiset(xs[1..]);
        var k :| 0 <= k < |xs[1..]| && xs[1..][k] == y;
        assert xs[k + 1] == y;
      }
      InsertSortedByThen(xs[0], tail, primary, secondary);
    }
  }

  function NoKey<T>(x: T): string { "" }

  /** `SortBy` sorts by its key. */
  lemma SortBySorted<T>(xs: seq<T>, key: T -> string)
    ensures SortedBy(SortBy(xs, key), key)
  {
    var r := SortBy(xs, key);
    SortByStable(xs, key, NoKey);
    forall i, j | 0 <= i < j < |r| ensures LexLe(key(r[i]), key(r[j])) {
      assert Before(key, NoKey, r[i], r[j]);
      if key(r[i]) == key(r[j]) {
        LexLeRefl(key(r[i]));
      }
    }
  }
}
