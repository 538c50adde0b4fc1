/**
  * The handful of Python string operations the scripts rely on, over ASCII:
  * `startswith`/`endswith`, `in`, `find`, `split(sep)`, `join`, `replace`,
  * `lower`/`upper`, the regex classes `\w`, `\d` and `\s`, and `int`/`str` on
  * decimal numerals.
  */
module Strings {
  import opened Wrappers

  predicate StartsWith(s: string, prefix: string) {
    |prefix| <= |s| && s[..|prefix|] == prefix
  }

  predicate EndsWith(s: string, suffix: string) {
    |suffix| <= |s| && s[|s| - |suffix|..] == suffix
  }

  /** `pat` occurs in `s` starting at index `j`. */
  predicate OccursAt(s: string, pat: string, j: nat) {
    j + |pat| <= |s| && s[j..j + |pat|] == pat
  }

  lemma OccursAtTail(s: string, pat: string, j: nat)
    requires |s| > 0
    ensures OccursAt(s[1..], pat, j) <==> OccursAt(s, pat, j + 1)
  {
    if j + |pat| <= |s[1..]| {
      assert s[1..][j..j + |pat|] == s[j + 1..j + 1 + |pat|];
    }
  }

  /** Python's `s.find(pat)`: the first index at which `pat` occurs. */
  function Find(s: string, pat: string): (r: Option<nat>)
    ensures r.Some? ==> r.value + |pat| <= |s|
    decreases |s|
  {
    if |s| < |pat| then None
    else if s[..|pat|] == pat then Some(0)
    else
      match Find(s[1..], pat)
      case None => None
      case Some(k) => Some(k + 1)
  }

  /** `Find` gives the first occurrence, or `None` when there is none. */
  lemma {:induction false} FindSpec(s: string, pat: string)
    ensures Find(s, pat).Some? ==> OccursAt(s, pat, Find(s, pat).value)
    ensures Find(s, pat).Some? ==> forall j: nat :: j < Find(s, pat).value ==> !OccursAt(s, pat, j)
    ensures Find(s, pat).None? ==> forall j: nat :: !OccursAt(s, pat, j)
    decreases |s|
  {
    if |s| >= |pat| && s[..|pat|] != pat {
      FindSpec(s[1..], pat);
      match Find(s[1..], pat)
      case None =>
        forall j: nat ensures !OccursAt(s, pat, j) {
          if j > 0 { OccursAtTail(s, pat, j - 1); }
        }
      case Some(k) =>
        OccursAtTail(s, pat, k);
        forall j: nat | j < k + 1 ensures !OccursAt(s, pat, j) {
          if j > 0 { OccursAtTail(s, pat, j - 1); }
        }
    }
  }

  /** Python's `pat in s`. */
  predicate Contains(s: string, pat: string) {
    Find(s, pat).Some?
  }

  /** Python's `s.split(sep)` for a non-empty separator. */
  function Split(s: string, sep: string): (parts: seq<string>)
    requires sep != ""
    ensures |parts| >= 1
    decreases |s|
  {
    match Find(s, sep)
    case None => [s]
    case Some(i) => [s[..i]] + Split(s[i + |sep|..], sep)
  }

  /** Python's `sep.join(parts)`. */
  function Join(parts: seq<string>, sep: string): string {
    if |parts| == 0 then ""
    else if |parts| == 1 then parts[0]
    else parts[0] + sep + Join(parts[1..], sep)
  }

  /** Without a separator, the split is the text alone. */
  lemma SplitNone(s: string, sep: string)
    requires sep != "" && Find(s, sep).None?
    ensures Split(s, sep) == [s]
  {
  }

  /** At a separator, the first piece is the text before it... */
  lemma SplitHead(s: string, sep: string, i: nat)
    requires sep != "" && Find(s, sep) == Some(i)
    ensures |Split(s, sep)| > 1 && Split(s, sep)[0] == s[..i]
  {
  }

  /** ...and the other pieces are the split of the text after it. */
  lemma SplitTail(s: string, sep: string, i: nat)
    requires sep != "" && Find(s, sep) == Some(i)
    ensures Split(s, sep)[1..] == Split(s[i + |sep|..], sep)
  {
  }

  /** Joining the pieces of a split with the same separator gives back the string. */
  lemma {:induction false} JoinSplit(s: string, sep: string)
    requires sep != ""
    ensures Join(Split(s, sep), sep) == s
    decreases |s|
  {
    if Find(s, sep).Some? {
      var i := Find(s, sep).value;
      SplitHead(s, sep, i);
      SplitTail(s, sep, i);
      var rest := s[i + |sep|..];
      var tail := Split(rest, sep);
      JoinSplit(rest, sep);
      var parts := Split(s, sep);
      assert parts[0] == s[..i] && parts[1..] == tail;
      assert Join(parts, sep) == s[..i] + sep + Join(tail, sep);
      FindSpec(s, sep);
      SliceJoin(s, i, i + |sep|);
    }
  }

  /** No piece of a split contains the separator. */
  lemma {:induction false} SplitPiecesFree(s: string, sep: string)
    requires sep != ""
    ensures forall k :: 0 <= k < |Split(s, sep)| ==> Find(Split(s, sep)[k], sep).None?
    decreases |s|
  {
    if Find(s, sep).Some? {
      var i := Find(s, sep).value;
      SplitHead(s, sep, i);
      SplitTail(s, sep, i);
      var rest := s[i + |sep|..];
      SplitPiecesFree(rest, sep);
      var head := s[..i];
      FindSpec(s, sep);
      FindSpec(head, sep);
      if Find(head, sep).Some? {
        var j := Find(head, sep).value;
        assert head[j..j + |sep|] == s[j..j + |sep|];
        assert OccursAt(s, sep, j);
        assert false;
      }
      var parts := Split(s, sep);
      forall k | 0 <= k < |parts| ensures Find(parts[k], sep).None? {
        if k > 0 { assert parts[k] == parts[1..][k - 1]; }
      }
    }
  }

  /** The first piece is the text before the first separator, the rest re-joined is the text after it. */
  lemma SplitAtFirst(s: string, sep: string, i: nat)
    requires sep != "" && Find(s, sep) == Some(i)
    ensures |Split(s, sep)| > 1
    ensures Split(s, sep)[0] == s[..i]
    ensures Join(Split(s, sep)[1..], sep) == s[i + |sep|..]
  {
    SplitHead(s, sep, i);
    SplitTail(s, sep, i);
    JoinSplit(s[i + |sep|..], sep);
  }

  /** The last piece of `s.split(sep)`, scanning left to right; `cur` is the piece
      being read. */
  function LastPieceFrom(s: string, sep: string, cur: string): string
    requires sep != ""
    decreases |s|
  {
    if s == [] then cur
    else if StartsWith(s, sep) then LastPieceFrom(s[|sep|..], sep, "")
    else LastPieceFrom(s[1..], sep, cur + [s[0]])
  }

  /** Without a separator, the scan reads the rest of the text into the current piece. */
  lemma {:induction false} LastPieceNoSep(s: string, sep: string, cur: string)
    requires sep != "" && Find(s, sep).None?
    ensures LastPieceFrom(s, sep, cur) == cur + s
    decreases |s|
  {
    if s == [] {
      assert cur + s == cur;
    } else {
      FindSkip(s, sep);
      LastPieceNoSep(s[1..], sep, cur + [s[0]]);
      assert s == [s[0]] + s[1..];
      AppendAssoc(cur, [s[0]], s[1..]);
    }
  }

  /** With a separator, the scan starts again after the first one. */
  lemma {:induction false} LastPieceAtSep(s: string, sep: string, cur: string)
    requires sep != "" && Find(s, sep).Some?
    ensures LastPieceFrom(s, sep, cur) == LastPieceFrom(s[Find(s, sep).value + |sep|..], sep, "")
    decreases |s|
  {
    assert s != [];
    if StartsWith(s, sep) {
      assert Find(s, sep) == Some(0);
      assert LastPieceFrom(s, sep, cur) == LastPieceFrom(s[|sep|..], sep, "");
    } else {
      FindSkip(s, sep);
      assert LastPieceFrom(s, sep, cur) == LastPieceFrom(s[1..], sep, cur + [s[0]]);
      LastPieceAtSep(s[1..], sep, cur + [s[0]]);
    }
  }

  /** Where `s` does not start with `sep`, its first occurrence is that of `s[1..]`, one further on. */
  lemma FindSkip(s: string, sep: string)
    requires s != [] && !StartsWith(s, sep)
    ensures Find(s, sep).None? <==> Find(s[1..], sep).None?
    ensures Find(s, sep).Some? ==> Find(s, sep).value == Find(s[1..], sep).value + 1
    ensures Find(s, sep).Some? ==> s[Find(s, sep).value + |sep|..] == s[1..][Find(s[1..], sep).value + |sep|..]
  {
    if |s| >= |sep| {
      assert s[..|sep|] != sep;
    }
  }

  /** The scan gives the last piece of `Split`. */
  lemma {:induction false} LastPieceOfSplit(s: string, sep: string)
    requires sep != ""
    ensures LastPieceFrom(s, sep, "") == Split(s, sep)[|Split(s, sep)| - 1]
    decreases |s|
  {
    if Find(s, sep).None? {
      LastPieceNoSep(s, sep, "");
      SplitNone(s, sep);
      assert "" + s == s;
    } else {
      var i := Find(s, sep).value;
      LastPieceAtSep(s, sep, "");
      SplitTail(s, sep, i);
      LastPieceOfSplit(s[i + |sep|..], sep);
      LastOfTail(Split(s, sep));
    }
  }

  lemma LastOfTail<T>(s: seq<T>)
    requires |s| > 1
    ensures s[|s| - 1] == s[1..][|s| - 2]
  {
  }

  /** Python's `s.replace(pat, rep)`: every non-overlapping occurrence, left to right. */
  function ReplaceAll(s: string, pat: string, rep: string): (r: string)
    ensures pat != "" && Find(s, pat).None? ==> r == s
    decreases |s|
  {
    if pat == "" then
      (if s == "" then rep else rep + [s[0]] + ReplaceAll(s[1..], pat, rep))
    else if |s| < |pat| then s
    else if s[..|pat|] == pat then rep + ReplaceAll(s[|pat|..], pat, rep)
    else [s[0]] + ReplaceAll(s[1..], pat, rep)
  }

  /** Replacement is left to right: text before the first occurrence stays, that
      occurrence becomes `rep`, and the replacement carries on after it. */
  lemma {:induction false} ReplaceAllAt(a: string, pat: string, rep: string, b: string)
    requires pat != ""
    requires forall j: nat :: j < |a| ==> !OccursAt(a + pat + b, pat, j)
    ensures ReplaceAll(a + pat + b, pat, rep) == a + rep + ReplaceAll(b, pat, rep)
    decreases |a|
  {
    var s := a + pat + b;
    if a == [] {
      assert s[..|pat|] == pat && s[|pat|..] == b;
    } else {
      var t := a[1..] + pat + b;
      assert s[0] == a[0] && s[1..] == t;
      assert s[..|pat|] != pat by {
        assert !OccursAt(s, pat, 0);
        assert s[0..|pat|] == s[..|pat|];
      }
      assert ReplaceAll(s, pat, rep) == [a[0]] + ReplaceAll(t, pat, rep);
      forall j: nat | j < |a[1..]| ensures !OccursAt(t, pat, j) {
        OccursAtTail(s, pat, j);
      }
      ReplaceAllAt(a[1..], pat, rep, b);
      var tail := ReplaceAll(b, pat, rep);
      assert a == [a[0]] + a[1..];
      AppendAssoc(a, rep, tail);
      AppendAssoc([a[0]], a[1..], rep + tail);
      AppendAssoc(a[1..], rep, tail);
    }
  }

  function CountChar(s: string, c: char): nat {
    if s == "" then 0 else (if s[0] == c then 1 else 0) + CountChar(s[1..], c)
  }

  lemma {:induction false} CountCharAppend(a: string, b: string, c: char)
    ensures CountChar(a + b, c) == CountChar(a, c) + CountChar(b, c)
    decreases |a|
  {
    if a != "" {
      assert (a + b)[0] == a[0];
      assert (a + b)[1..] == a[1..] + b;
      CountCharAppend(a[1..], b, c);
    } else {
      assert a + b == b;
    }
  }

  lemma {:induction false} CountCharAbsent(s: string, c: char)
    requires forall k :: 0 <= k < |s| ==> s[k] != c
    ensures CountChar(s, c) == 0
    decreases |s|
  {
    if s != "" { CountCharAbsent(s[1..], c); }
  }

  /** Splitting on one character gives one more piece than there are occurrences of it. */
  lemma {:induction false} SplitCount(s: string, c: char)
    ensures |Split(s, [c])| == CountChar(s, c) + 1
    decreases |s|
  {
    FindSpec(s, [c]);
    match Find(s, [c])
    case None =>
      forall k | 0 <= k < |s| ensures s[k] != c {
        assert !OccursAt(s, [c], k);
        assert s[k..k + 1] == [s[k]];
      }
      CountCharAbsent(s, c);
    case Some(i) =>
      var rest := s[i + 1..];
      SplitCount(rest, c);
      forall k | 0 <= k < i ensures s[..i][k] != c {
        assert !OccursAt(s, [c], k);
        assert s[k..k + 1] == [s[k]];
      }
      CountCharAbsent(s[..i], c);
      assert s == s[..i] + [c] + rest;
      CountCharAppend(s[..i] + [c], rest, c);
      CountCharAppend(s[..i], [c], c);
  }

  /** Regex `\w` over ASCII: `[A-Za-z0-9_]`. */
  predicate IsWordChar(c: char) {
    ('a' <= c <= 'z') || ('A' <= c <= 'Z') || ('0' <= c <= '9') || c == '_'
  }

  /** Regex `\d` over ASCII. */
  predicate IsDigit(c: char) {
    '0' <= c <= '9'
  }

  /** Regex `\s` over ASCII, as Python's `str` patterns read it. */
  predicate IsSpace(c: char) {
    c == ' ' || (9 <= c as int <= 13) || (28 <= c as int <= 31)
  }

  predicate IsUpper(c: char) {
    'A' <= c <= 'Z'
  }

  function LowerChar(c: char): (r: char)
    ensures IsUpper(c) ==> r as int == c as int + 32
    ensures !IsUpper(c) ==> r == c
  {
    if IsUpper(c) then (c as int + 32) as char else c
  }

  function UpperChar(c: char): (r: char)
    ensures 'a' <= c <= 'z' ==> r as int == c as int - 32
    ensures !('a' <= c <= 'z') ==> r == c
  {
    if 'a' <= c <= 'z' then (c as int - 32) as char else c
  }

  /** Python's `s.lower()` over ASCII. */
  function Lower(s: string): (r: string)
    ensures |r| == |s| && forall k :: 0 <= k < |s| ==> r[k] == LowerChar(s[k])
  {
    seq(|s|, k requires 0 <= k < |s| => LowerChar(s[k]))
  }

  /** `s[0].upper() + s[1:]`. */
  function Capitalize(s: string): (r: string)
    requires s != ""
    ensures |r| == |s| && r[0] == UpperChar(s[0]) && r[1..] == s[1..]
  {
    [UpperChar(s[0])] + s[1..]
  }

  /** Python's `c * n`. */
  function Repeat(c: char, n: nat): (r: string)
    ensures |r| == n && forall k :: 0 <= k < n ==> r[k] == c
  {
    if n == 0 then "" else [c] + Repeat(c, n - 1)
  }

  predicate AllDigits(s: string) {
    forall k :: 0 <= k < |s| ==> IsDigit(s[k])
  }

  /** Python's `int(s)` on a numeral of ASCII digits. */
  function DigitsValue(s: string): nat
    requires AllDigits(s)
  {
    if s == "" then 0
    else DigitsValue(s[..|s| - 1]) * 10 + (s[|s| - 1] as int - '0' as int)
  }

  /** Python's `str(n)` for a natural number. */
  function NatToString(n: nat): (r: string)
    ensures r != "" && AllDigits(r)
  {
    if n < 10 then [('0' as int + n) as char]
    else NatToString(n / 10) + [('0' as int + n % 10) as char]
  }

  /** Reading back a printed number gives the number. */
  lemma {:induction false} DigitsRoundTrip(n: nat)
    ensures DigitsValue(NatToString(n)) == n
  {
    if n >= 10 {
      DigitsRoundTrip(n / 10);
      var s := NatToString(n);
      assert s[..|s| - 1] == NatToString(n / 10);
    }
  }

  lemma SliceJoin<T>(s: seq<T>, i: nat, j: nat)
    requires i <= j <= |s|
    ensures s == s[..i] + s[i..j] + s[j..]
  {
  }

  lemma AppendAssoc<T>(a: seq<T>, b: seq<T>, c: seq<T>)
    ensures (a + b) + c == a + (b + c)
  {
  }

  predicate NoDuplicates<T(==)>(s: seq<T>) {
    forall i, j :: 0 <= i < j < |s| ==> s[i] != s[j]
  }

  /** A list without repeats holds each value at most once. */
  lemma {:induction false} NoDuplicatesCount<T>(s: seq<T>, x: T)
    requires NoDuplicates(s)
    ensures multiset(s)[x] <= 1
    decreases |s|
  {
    if s != [] {
      var rest := s[1..];
      assert s == [s[0]] + rest;
      assert multiset(s) == multiset([s[0]]) + multiset(rest);
      assert NoDuplicates(rest) by {
        forall i, j | 0 <= i < j < |rest| ensures rest[i] != rest[j] {
          assert rest[i] == s[i + 1] && rest[j] == s[j + 1];
        }
      }
      NoDuplicatesCount(rest, x);
      if s[0] == x {
        assert x !in rest by {
          forall k | 0 <= k < |rest| ensures rest[k] != x {
            assert rest[k] == s[k + 1];
          }
        }
      }
    }
  }

  /** A value at two positions is counted at least twice. */
  lemma RepeatCount<T>(s: seq<T>, i: nat, j: nat)
    requires i < j < |s| && s[i] == s[j]
    ensures multiset(s)[s[i]] >= 2
  {
    assert s == s[..j] + s[j..];
    assert multiset(s) == multiset(s[..j]) + multiset(s[j..]);
    assert s[..j][i] == s[i] && s[j..][0] == s[j];
  }

  /** Reordering a list without repeats leaves it without repeats. */
  lemma NoDuplicatesPermutation<T>(a: seq<T>, b: seq<T>)
    requires NoDuplicates(a) && multiset(a) == multiset(b)
    ensures NoDuplicates(b)
  {
    forall i, j | 0 <= i < j < |b| ensures b[i] != b[j] {
      NoDuplicatesCount(a, b[i]);
      if b[i] == b[j] {
        RepeatCount(b, i, j);
      }
    }
  }

  /** A prefix one element longer. */
  lemma TakeSnoc<T>(s: seq<T>, t: nat)
    requires t < |s|
    ensures s[..t + 1] == s[..t] + [s[t]]
  {
  }

  /** The contents of a text file holding `lines`, each ended by a newline. */
  function Text(lines: seq<string>): string {
    if lines == [] then "" else Text(lines[..|lines| - 1]) + lines[|lines| - 1] + "\n"
  }

  /** Writing two runs of lines one after the other writes their concatenation. */
  lemma {:induction false} TextAppend(a: seq<string>, b: seq<string>)
    ensures Text(a + b) == Text(a) + Text(b)
    decreases |b|
  {
    if b == [] {
      assert a + b == a;
    } else {
      var init := b[..|b| - 1];
      assert (a + b)[..|a + b| - 1] == a + init;
      TextAppend(a, init);
    }
  }

  /** The last index of `c` in `s` (`s.rfind(c)`). */
  function LastIndexOf(s: string, c: char): (r: Option<nat>)
    ensures r.Some? ==> r.value < |s| && s[r.value] == c
    ensures r.Some? ==> forall k :: r.value < k < |s| ==> s[k] != c
    ensures r.None? ==> forall k :: 0 <= k < |s| ==> s[k] != c
  {
    if s == [] then None
    else if s[|s| - 1] == c then Some(|s| - 1)
    else LastIndexOf(s[..|s| - 1], c)
  }

  /** An occurrence in the tail is an occurrence in the whole. */
  lemma FindCons(c: char, t: string, pat: string)
    requires Find(t, pat).Some?
    ensures Find([c] + t, pat).Some?
  {
    var s := [c] + t;
    FindSpec(t, pat);
    FindSpec(s, pat);
    assert s[1..] == t;
    OccursAtTail(s, pat, Find(t, pat).value);
  }

  /** Replacing an occurrence leaves the replacement in the result. */
  lemma {:induction false} ReplaceAllShowsRep(s: string, pat: string, rep: string)
    requires pat != "" && Find(s, pat).Some?
    ensures Find(ReplaceAll(s, pat, rep), rep).Some?
    decreases |s|
  {
    var r := ReplaceAll(s, pat, rep);
    if s[..|pat|] == pat {
      assert r[..|rep|] == rep;
    } else {
      FindSkip(s, pat);
      ReplaceAllShowsRep(s[1..], pat, rep);
      FindCons(s[0], ReplaceAll(s[1..], pat, rep), rep);
    }
  }

  /** Joining one more piece appends the separator and the piece. */
  lemma {:induction false} JoinSnoc(parts: seq<string>, sep: string, x: string)
    requires parts != []
    ensures Join(parts + [x], sep) == Join(parts, sep) + sep + x
    decreases |parts|
  {
    var q := parts + [x];
    assert q[0] == parts[0];
    if |parts| > 1 {
      assert q[1..] == parts[1..] + [x];
      JoinSnoc(parts[1..], sep, x);
    } else {
      assert q[1..] == [x];
    }
  }
}
