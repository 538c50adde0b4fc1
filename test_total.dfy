/**
  * `libcellml/calculate_test_total.py`: the lines of a captured CTest log are searched
  * for `^\d+: \[==========\] (\d+) tests from (\d+) test case[s]? ran.*`, and the first
  * captured number of every matching line is added to a total that starts at 0.
  */
module TestTotal {
  import opened Wrappers
  import opened Strings

  const Banner: string := ": [==========] "
  const TestsFrom: string := " tests from "
  const TestCase: string := " test case"

  /** The length of the run of ASCII digits at the front of `s`. */
  function DigitRun(s: string): (n: nat)
    ensures n <= |s|
    ensures forall k :: 0 <= k < n ==> IsDigit(s[k])
    ensures n < |s| ==> !IsDigit(s[n])
  {
    if s != [] && IsDigit(s[0]) then 1 + DigitRun(s[1..]) else 0
  }

  /** `\d+` followed by the literal `lit` at the front of `s`: the number and what follows
      the literal. As `lit` starts with a non-digit, the greedy run of digits is the only
      way to match. */
  function NumberThen(s: string, lit: string): Option<(nat, string)> {
    var n := DigitRun(s);
    if n > 0 && StartsWith(s[n..], lit) then
      assert AllDigits(s[..n]) by {
        forall k | 0 <= k < n ensures IsDigit(s[..n][k]) { assert s[..n][k] == s[k]; }
      }
      Some((DigitsValue(s[..n]), s[n + |lit|..]))
    else None
  }

  /** The search on one line: the value of the first group, or `None` without a match. */
  function MatchLine(line: string): Option<nat> {
    match NumberThen(line, Banner)
    case None => None
    case Some((_, afterBanner)) =>
      match NumberThen(afterBanner, TestsFrom)
      case None => None
      case Some((tests, afterTests)) =>
        match NumberThen(afterTests, TestCase)
        case None => None
        case Some((_, afterCase)) =>
          if StartsWith(afterCase, "s ran") || StartsWith(afterCase, " ran") then Some(tests) else None
  }

  /** A line the pattern is written to match: a job number, the test count, the test-case
      count, `case` or `cases`, and any text after `ran`. */
  function RanLine(job: string, tests: string, cases: string, plural: bool, tail: string): string {
    job + (Banner + (tests + (TestsFrom + (cases + (TestCase + ((if plural then "s ran" else " ran") + tail))))))
  }

  predicate Numeral(d: string) {
    d != [] && AllDigits(d)
  }

  lemma {:induction false} DigitRunOfNumeral(d: string, t: string)
    requires AllDigits(d) && (t == [] || !IsDigit(t[0]))
    ensures DigitRun(d + t) == |d|
    decreases |d|
  {
    if d != [] {
      assert (d + t)[1..] == d[1..] + t;
      DigitRunOfNumeral(d[1..], t);
    } else {
      assert d + t == t;
    }
  }

  /** A numeral followed by the literal is read back as its value. */
  lemma NumberThenNumeral(d: string, lit: string, rest: string)
    requires Numeral(d) && lit != [] && !IsDigit(lit[0])
    ensures NumberThen(d + (lit + rest), lit) == Some((DigitsValue(d), rest))
  {
    var s := d + (lit + rest);
    DigitRunOfNumeral(d, lit + rest);
    assert s[..|d|] == d;
    assert s[|d|..] == lit + rest;
    assert s[|d| + |lit|..] == rest;
  }

  /** Every such line matches, with the test count as the first group, for `case` and
      `cases` alike and whatever the test-case count. */
  lemma {:induction false} MatchRanLine(job: string, tests: string, cases: string, plural: bool, tail: string)
    requires Numeral(job) && Numeral(tests) && Numeral(cases)
    ensures MatchLine(RanLine(job, tests, cases, plural, tail)) == Some(DigitsValue(tests))
  {
    var ending := (if plural then "s ran" else " ran") + tail;
    var afterTests := cases + (TestCase + ending);
    var afterBanner := tests + (TestsFrom + afterTests);
    var line := RanLine(job, tests, cases, plural, tail);
    NumberThenNumeral(job, Banner, afterBanner);
    assert NumberThen(line, Banner) == Some((DigitsValue(job), afterBanner));
    NumberThenNumeral(tests, TestsFrom, afterTests);
    NumberThenNumeral(cases, TestCase, ending);
    if plural {
      assert StartsWith(ending, "s ran");
    } else {
      assert StartsWith(ending, " ran");
    }
  }

  /** The same for the numbers as `str` prints them. */
  lemma MatchPrintedLine(job: nat, tests: nat, cases: nat, plural: bool, tail: string)
    ensures MatchLine(RanLine(NatToString(job), NatToString(tests), NatToString(cases), plural, tail)) == Some(tests)
  {
    MatchRanLine(NatToString(job), NatToString(tests), NatToString(cases), plural, tail);
    DigitsRoundTrip(tests);
  }

  /** The pattern is anchored: a matching line starts with a job number and the banner. */
  lemma MatchAnchored(line: string)
    requires MatchLine(line).Some?
    ensures 0 < DigitRun(line) && StartsWith(line[DigitRun(line)..], Banner)
  {
  }

  /** The count one line contributes. */
  function LineCount(line: string): nat {
    match MatchLine(line)
    case Some(n) => n
    case None => 0
  }

  /** The total over the lines read so far. */
  function Total(lines: seq<string>): nat {
    if lines == [] then 0 else Total(lines[..|lines| - 1]) + LineCount(lines[|lines| - 1])
  }

  /** The total over a log is the sum of the totals over its parts. */
  lemma {:induction false} TotalAppend(a: seq<string>, b: seq<string>)
    ensures Total(a + b) == Total(a) + Total(b)
    decreases |b|
  {
    if b == [] {
      assert a + b == a;
    } else {
      var init := b[..|b| - 1];
      assert (a + b)[..|a + b| - 1] == a + init;
      assert (a + b)[|a + b| - 1] == b[|b| - 1];
      TotalAppend(a, init);
    }
  }

  /** Lines that do not match leave the total unchanged, wherever they stand. */
  lemma UnmatchedIgnored(a: seq<string>, line: string, b: seq<string>)
    requires MatchLine(line).None?
    ensures Total(a + [line] + b) == Total(a + b)
  {
    TotalAppend(a + [line], b);
    TotalAppend(a, [line]);
    TotalAppend(a, b);
    assert [line][..0] == [];
  }

  /** Every matching line's test count is part of the total. */
  lemma {:induction false} TotalCovers(lines: seq<string>, i: nat)
    requires i < |lines| && MatchLine(lines[i]).Some?
    ensures Total(lines) >= MatchLine(lines[i]).value
    decreases |lines|
  {
    if i < |lines| - 1 {
      TotalCovers(lines[..|lines| - 1], i);
    }
  }

  /** `main` after reading the file: the loop over the lines. */
  method SumTestCounts(lines: seq<string>) returns (tot: nat)
    ensures tot == Total(lines)
  {
    tot := 0;
    for i := 0 to |lines|
      invariant tot == Total(lines[..i])
    {
      TakeSnoc(lines, i);
      match MatchLine(lines[i]) {
        case Some(n) => tot := tot + n;
        case None =>
      }
    }
    assert lines[..|lines|] == lines;
  }
}
