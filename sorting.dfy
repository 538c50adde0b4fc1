/**
  * Python's `sorted(data, key=..., reverse=...)` over string keys: a stable sort,
  * where strings compare lexicographically by character code (Python's `<=` on
  * `str`, which is not Dafny's prefix order on sequences).
  */
module Sorting {

  /** Python's `a <= b` on strings. */
  predicate LexLe(a: string, b: string) {
    if a == "" then true
    else if b == "" then false
    else if a[0] != b[0] then a[0] < b[0]
    else LexLe(a[1..], b[1..])
  }

  lemma {:induction false} LexLeReflexive(a: string)
    ensures LexLe(a, a)
    decreases |a|
  {
    if a != "" { LexLeReflexive(a[1..]); }
  }

  lemma {:induction false} LexLeTotal(a: string, b: string)
    ensures LexLe(a, b) || LexLe(b, a)
    decreases |a|
  {
    if a != "" && b != "" && a[0] == b[0] { LexLeTotal(a[1..], b[1..]); }
  }

  lemma {:induction false} LexLeAntisymmetric(a: string, b: string)
    requires LexLe(a, b) && LexLe(b, a)
    ensures a == b
    decreases |a|
  {
    if a != "" && b != "" {
      LexLeAntisymmetric(a[1..], b[1..]);
      assert a == [a[0]] + a[1..] && b == [b[0]] + b[1..];
    }
  }

  lemma {:induction false} LexLeTransitive(a: string, b: string, c: string)
    requires LexLe(a, b) && LexLe(b, c)
    ensures LexLe(a, c)
    decreases |a|
  {
    if a != "" && b != "" && c != "" && a[0] == b[0] && b[0] == c[0] {
      LexLeTransitive(a[1..], b[1..], c[1..]);
    }
  }

  /** `x` may stand before `y` in the output of the sort. */
  predicate InOrder<T>(x: T, y: T, key: T -> string, descending: bool) {
    if descending then LexLe(key(y), key(x)) else LexLe(key(x), key(y))
  }

  lemma InOrderTotal<T>(x: T, y: T, key: T -> string, descending: bool)
    ensures InOrder(x, y, key, descending) || InOrder(y, x, key, descending)
  {
    LexLeTotal(key(x), key(y));
  }

  lemma InOrderTransitive<T>(x: T, y: T, z: T, key: T -> string, descending: bool)
    requires InOrder(x, y, key, descending) && InOrder(y, z, key, descending)
    ensures InOrder(x, z, key, descending)
  {
    if descending { LexLeTransitive(key(z), key(y), key(x)); }
    else { LexLeTransitive(key(x), key(y), key(z)); }
  }

  lemma InOrderSameKey<T>(x: T, y: T, key: T -> string, descending: bool)
    requires key(x) == key(y)
    ensures InOrder(x, y, key, descending)
  {
    LexLeReflexive(key(x));
  }

  ghost predicate Sorted<T>(s: seq<T>, key: T -> string, descending: bool) {
    forall i, j :: 0 <= i < j < |s| ==> InOrder(s[i], s[j], key, descending)
  }

  /** The elements of `s` whose key is `k`, in their order in `s`. */
  function WithKey<T>(s: seq<T>, key: T -> string, k: string): seq<T> {
    if s == [] then []
    else (if key(s[0]) == k then [s[0]] else []) + WithKey(s[1..], key, k)
  }

  lemma {:induction false} WithKeyAppend<T>(a: seq<T>, b: seq<T>, key: T -> string, k: string)
    ensures WithKey(a + b, key, k) == WithKey(a, key, k) + WithKey(b, key, k)
    decreases |a|
  {
    if a != [] {
      assert (a + b)[0] == a[0];
      assert (a + b)[1..] == a[1..] + b;
      WithKeyAppend(a[1..], b, key, k);
    } else {
      assert a + b == b;
    }
  }

  /** Places `x` before the first element it may precede. */
  function Insert<T>(x: T, t: seq<T>, key: T -> string, descending: bool): (r: seq<T>)
    ensures multiset(r) == multiset([x] + t)
  {
    if t == [] || InOrder(x, t[0], key, descending) then [x] + t
    else
      assert t == [t[0]] + t[1..];
      [t[0]] + Insert(x, t[1..], key, descending)
  }

  lemma WithKeySingle<T>(y: T, key: T -> string, k: string)
    ensures WithKey([y], key, k) == if key(y) == k then [y] else []
  {
    assert [y][1..] == [];
  }

  /** Moving `x` past an element of another key leaves every key's subsequence alone. */
  lemma SwapOtherKey<T>(x: T, t0: T, tail: seq<T>, rest: seq<T>, key: T -> string, k: string)
    requires key(x) != key(t0)
    requires WithKey(rest, key, k) == WithKey([x] + tail, key, k)
    ensures WithKey([t0] + rest, key, k) == WithKey([x] + ([t0] + tail), key, k)
  {
    WithKeySingle(x, key, k);
    WithKeySingle(t0, key, k);
    calc {
      WithKey([t0] + rest, key, k);
      { WithKeyAppend([t0], rest, key, k); }
      WithKey([t0], key, k) + WithKey([x] + tail, key, k);
      { WithKeyAppend([x], tail, key, k); }
      WithKey([t0], key, k) + (WithKey([x], key, k) + WithKey(tail, key, k));
      WithKey([x], key, k) + (WithKey([t0], key, k) + WithKey(tail, key, k));
      { WithKeyAppend([t0], tail, key, k); }
      WithKey([x], key, k) + WithKey([t0] + tail, key, k);
      { WithKeyAppend([x], [t0] + tail, key, k); }
      WithKey([x] + ([t0] + tail), key, k);
    }
  }

  /** Inserting keeps the elements of each key in their order, `x` first. */
  lemma {:induction false} InsertStable<T>(x: T, t: seq<T>, key: T -> string, descending: bool, k: string)
    ensures WithKey(Insert(x, t, key, descending), key, k) == WithKey([x] + t, key, k)
    decreases |t|
  {
    if t != [] && !InOrder(x, t[0], key, descending) {
      if key(x) == key(t[0]) { InOrderSameKey(x, t[0], key, descending); }
      var tail := t[1..];
      assert t == [t[0]] + tail;
      InsertStable(x, tail, key, descending, k);
      SwapOtherKey(x, t[0], tail, Insert(x, tail, key, descending), key, k);
    }
  }

  /** The elements of an insertion are `x` and those of `t`. */
  lemma InsertMember<T>(x: T, t: seq<T>, key: T -> string, descending: bool, y: T)
    ensures y in Insert(x, t, key, descending) <==> y == x || y in t
  {
    var r := Insert(x, t, key, descending);
    assert y in r <==> y in multiset(r);
    assert y in [x] + t <==> y in multiset([x] + t);
  }

  /** The head of a sorted sequence may precede each of the other elements. */
  lemma SortedHead<T>(t: seq<T>, key: T -> string, descending: bool)
    requires Sorted(t, key, descending) && t != []
    ensures Sorted(t[1..], key, descending)
    ensures forall y :: y in t[1..] ==> InOrder(t[0], y, key, descending)
  {
    forall y | y in t[1..] ensures InOrder(t[0], y, key, descending) {
      var m :| 0 <= m < |t[1..]| && t[1..][m] == y;
      assert t[m + 1] == y;
    }
  }

  /** Inserting into a sorted sequence gives a sorted sequence. */
  lemma {:induction false} InsertSorted<T>(x: T, t: seq<T>, key: T -> string, descending: bool)
    requires Sorted(t, key, descending)
    ensures Sorted(Insert(x, t, key, descending), key, descending)
    decreases |t|
  {
    if t == [] {
      assert Insert(x, t, key, descending) == [x];
    } else {
      SortedHead(t, key, descending);
      assert t == [t[0]] + t[1..];
      if InOrder(x, t[0], key, descending) {
        forall y | y in t ensures InOrder(x, y, key, descending) {
          if y != t[0] { InOrderTransitive(x, t[0], y, key, descending); }
        }
        SortedCons(x, t, key, descending);
      } else {
        var rest := Insert(x, t[1..], key, descending);
        InsertSorted(x, t[1..], key, descending);
        InOrderTotal(x, t[0], key, descending);
        forall y | y in rest ensures InOrder(t[0], y, key, descending) {
          InsertMember(x, t[1..], key, descending, y);
        }
        SortedCons(t[0], rest, key, descending);
      }
    }
  }

  /** An element that may precede every element of a sorted sequence may head it. */
  lemma SortedCons<T>(h: T, s: seq<T>, key: T -> string, descending: bool)
    requires Sorted(s, key, descending)
    requires forall y :: y in s ==> InOrder(h, y, key, descending)
    ensures Sorted([h] + s, key, descending)
  {
    var r := [h] + s;
    forall i, j | 0 <= i < j < |r| ensures InOrder(r[i], r[j], key, descending) {
      assert r[j] == s[j - 1];
      if i > 0 { assert r[i] == s[i - 1]; } else { assert s[j - 1] in s; }
    }
  }

  /** Python's `sorted(s, key=key, reverse=descending)`. */
  function SortBy<T>(s: seq<T>, key: T -> string, descending: bool): (r: seq<T>)
    ensures Sorted(r, key, descending)
    ensures multiset(r) == multiset(s)
    ensures forall k :: WithKey(r, key, k) == WithKey(s, key, k)
  {
    if s == [] then []
    else
      var tail := SortBy(s[1..], key, descending);
      var r := Insert(s[0], tail, key, descending);
      assert s == [s[0]] + s[1..];
      InsertSorted(s[0], tail, key, descending);
      assert forall k :: WithKey(r, key, k) == WithKey(s, key, k) by {
        forall k ensures WithKey(r, key, k) == WithKey(s, key, k) {
          InsertStable(s[0], tail, key, descending, k);
          WithKeyAppend([s[0]], tail, key, k);
          WithKeyAppend([s[0]], s[1..], key, k);
        }
      }
      r
  }
}
