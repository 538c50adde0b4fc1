/**
  * The lines `print_test_file` of `libcellml/extract_emscripten_helper.py` writes
  * to the tests file for one class: a Jest `describe` block holding a `toBe(true)`
  * test for each `need...` method, one setter/getter test per accessor pair, and
  * a skeleton test per method, or one `ByXXX` skeleton per overload.
  */
module EmscriptenTests {
  import opened Strings
  import opened EmscriptenExtract
  import opened EmscriptenClassify

  /** `BASIC_BOOLEAN_METHODS`: methods whose first four letters are one of these answer `true`. */
  const BooleanPrefix: string := "need"

  /** The value a pair test stores through the setter and expects back from the getter. */
  const Sentinel: string := "\"something\""

  function OverloadText(overload: bool): string {
    if overload then "ByXXX" else ""
  }

  function TestHeader(className: string, methodName: string, overloadText: string): string {
    "  test(\"Checking " + className + "." + methodName + overloadText + ".\", () => {"
  }

  /** `declare_class_variable`: the instance under test and a blank line. */
  function Instance(className: string): seq<string> {
    ["    const x = new libcellml." + className + "()", ""]
  }

  const Footer: string := "  });"

  function ExpectLine(call: string, expected: string): string {
    "    expect(x." + call + "()).toBe(" + expected + ")"
  }

  function SetLine(base: string): string
    requires base != ""
  {
    "    x." + SetterName(base) + "(" + Sentinel + ")"
  }

  function BooleanTest(className: string, m: string): seq<string> {
    [TestHeader(className, m, "")] + Instance(className) + [ExpectLine(m, "true"), Footer]
  }

  /** A name the pair test can take apart: Python fails on "set" and on the empty name. */
  predicate PairName(m: string) {
    m != "" && m != "set"
  }

  lemma PairBaseNonEmpty(m: string)
    requires PairName(m)
    ensures BaseName(m) != ""
  {
  }

  function StringPairTest(className: string, m: string): seq<string>
    requires PairName(m) && BaseName(m) != ""
  {
    [TestHeader(className, m, "")] + Instance(className)
      + [SetLine(BaseName(m)), ExpectLine(m, Sentinel), Footer]
  }

  function PairTest(className: string, m: string): seq<string>
    requires PairName(m)
  {
    var base := BaseName(m);
    if EndsWith(base, "String") then
      assert PairName(base);
      StringPairTest(className, base)
    else
      [TestHeader(className, base, "")] + Instance(className)
        + [SetLine(base), ExpectLine(m, Sentinel), Footer]
  }

  function SkeletonTest(className: string, m: string, overload: bool): seq<string> {
    [TestHeader(className, m, OverloadText(overload))] + Instance(className)
      + [ExpectLine(m + OverloadText(overload), "\"\""), Footer]
  }

  /** The accessor a pair test reads back through: the base name when it ends in
      `String`, otherwise the method name the pair was met under. */
  function PairGetter(m: string): string
    requires PairName(m)
  {
    if EndsWith(BaseName(m), "String") then BaseName(m) else m
  }

  /** `print_test`: the `need` prefix wins over pairing, pairing over the skeleton. Every
      test declares an instance and closes; a pair test stores the sentinel through the
      setter of the getter's base name and expects it back from that getter. */
  function TestFor(className: string, m: string, overload: bool, isPair: bool): (r: seq<string>)
    requires isPair ==> PairName(m)
    ensures 5 <= |r| <= 6 && r[1..3] == Instance(className) && r[|r| - 1] == Footer
    ensures StartsWith(m, BooleanPrefix) ==>
      |r| == 5 && r[0] == TestHeader(className, m, "") && r[3] == ExpectLine(m, "true")
    ensures !StartsWith(m, BooleanPrefix) && isPair ==>
      var g := PairGetter(m);
      PairName(g) && BaseName(g) != "" &&
      |r| == 6 && r[0] == TestHeader(className, BaseName(m), "") &&
      r[3] == SetLine(BaseName(g)) && r[4] == ExpectLine(g, Sentinel)
    ensures !StartsWith(m, BooleanPrefix) && !isPair ==>
      |r| == 5 && r[0] == TestHeader(className, m, OverloadText(overload)) &&
      r[3] == ExpectLine(m + OverloadText(overload), "\"\"")
  {
    if m[..if |m| < 4 then |m| else 4] == BooleanPrefix then
      assert StartsWith(m, BooleanPrefix);
      LinesShape(TestHeader(className, m, ""), Instance(className), [ExpectLine(m, "true"), Footer]);
      BooleanTest(className, m)
    else if isPair then
      PairBaseNonEmpty(m);
      var base := BaseName(m);
      if EndsWith(base, "String") then
        assert PairName(base) && BaseName(base) != "";
        LinesShape(TestHeader(className, base, ""), Instance(className),
          [SetLine(BaseName(base)), ExpectLine(base, Sentinel), Footer]);
        PairTest(className, m)
      else
        LinesShape(TestHeader(className, base, ""), Instance(className),
          [SetLine(base), ExpectLine(m, Sentinel), Footer]);
        PairTest(className, m)
    else
      LinesShape(TestHeader(className, m, OverloadText(overload)), Instance(className),
        [ExpectLine(m + OverloadText(overload), "\"\""), Footer]);
      SkeletonTest(className, m, overload)
  }

  /** Where the lines of a test stand: a header, the instance, then the rest. */
  lemma LinesShape<T>(header: T, instance: seq<T>, rest: seq<T>)
    requires |instance| == 2 && 2 <= |rest| <= 3
    ensures var r := [header] + instance + rest;
      |r| == 3 + |rest| && r[0] == header && r[1..3] == instance && r[3] == rest[0] &&
      (|rest| == 3 ==> r[4] == rest[1]) && r[|r| - 1] == rest[|rest| - 1]
  {
  }

  /** A getter met before its setter: the test calls the setter that `BaseName` pairs
      with it and reads the value back through the getter itself. */
  lemma GetterFirstPairRoundTrip(className: string, m: string)
    requires m != "" && !IsUpper(m[0]) && !StartsWith(m, "set") && !StartsWith(m, BooleanPrefix)
    requires !EndsWith(m, "String")
    ensures var r := TestFor(className, m, false, true);
      r[3] == "    x." + SetterName(m) + "(" + Sentinel + ")" && r[4] == ExpectLine(m, Sentinel)
    ensures BaseName(SetterName(m)) == m
  {
    SetterRoundTrip(m);
  }

  /** A setter met before its getter (and whose base does not end in `String`): the
      expectation reads back through the setter's own name, not the getter's. */
  lemma SetterFirstPairReadsSetter(className: string, base: string)
    requires base != "" && !IsUpper(base[0]) && !StartsWith(base, "set") && !EndsWith(base, "String")
    ensures var m := SetterName(base);
      !StartsWith(m, BooleanPrefix) &&
      TestFor(className, m, false, true)[0] == TestHeader(className, base, "") &&
      TestFor(className, m, false, true)[4] == ExpectLine(m, Sentinel)
  {
    SetterRoundTrip(base);
    var m := SetterName(base);
    assert m[0] == 's';
  }

  /** Python's `block * n` on a list of lines. */
  function RepeatLines(block: seq<string>, n: nat): (r: seq<string>)
    ensures |r| == n * |block|
  {
    if n == 0 then [] else RepeatLines(block, n - 1) + block
  }

  lemma {:induction false} RepeatLinesAt(block: seq<string>, n: nat, t: nat, q: nat)
    requires t < n && q < |block|
    ensures t * |block| + q < n * |block|
    ensures RepeatLines(block, n)[t * |block| + q] == block[q]
    decreases n
  {
    if t < n - 1 {
      RepeatLinesAt(block, n - 1, t, q);
    } else {
      assert t * |block| == (n - 1) * |block|;
    }
  }

  /** What a key needs for the tests file to be written without an exception: every
      method name may go through `convert_to_base_method_name`, and the name of each
      pair member has a first letter to capitalise. */
  predicate TestableKeys(keys: seq<string>, methods: map<string, seq<Signature>>) {
    NamesOk(keys) &&
    (forall k :: k in keys ==> k in methods) &&
    (forall k :: k in keys ==> CountBase(keys, BaseOf(k)) == 2 ==> LastName(k) != "")
  }

  /** The i-th key belongs to an accessor pair. */
  predicate IsPairKey(keys: seq<string>, i: nat)
    requires NamesOk(keys) && i < |keys|
  {
    CountBase(keys, BaseOf(keys[i])) == 2
  }

  /** The i-th key is the second member of its pair: an earlier key already gave the pair's test. */
  predicate Skipped(keys: seq<string>, i: nat)
    requires NamesOk(keys) && i < |keys|
  {
    IsPairKey(keys, i) && exists j :: 0 <= j < i && BaseOf(keys[j]) == BaseOf(keys[i])
  }

  /** The tests written for the i-th key. */
  function KeyTests(className: string, keys: seq<string>, methods: map<string, seq<Signature>>, i: nat): seq<string>
    requires TestableKeys(keys, methods) && i < |keys|
  {
    if Skipped(keys, i) then []
    else
      var name := LastName(keys[i]);
      var sigs := methods[keys[i]];
      if |sigs| == 1 then TestFor(className, name, false, IsPairKey(keys, i))
      else RepeatLines(TestFor(className, name, true, false), |sigs|)
  }

  /** The tests written for the first `n` keys. */
  function TestsUpTo(className: string, keys: seq<string>, methods: map<string, seq<Signature>>, n: nat): seq<string>
    requires TestableKeys(keys, methods) && n <= |keys|
  {
    if n == 0 then [] else TestsUpTo(className, keys, methods, n - 1) + KeyTests(className, keys, methods, n - 1)
  }

  function TestPrelude(className: string): seq<string> {
    [ "", "",
      "const libCellMLModule = require('libcellml.js/libcellml.common')",
      "let libcellml = null", "",
      "describe(\"" + className + " tests\", () => {",
      "  beforeAll(async () => {",
      "    libcellml = await libCellMLModule();",
      "  });" ]
  }

  const TestClose: string := "})"

  /** Everything `print_test_file` appends for one class. */
  function TestFileLines(data: ClassData): seq<string>
    requires TestableKeys(data.keys, data.methods)
  {
    var cls := ClassName(data.name);
    TestPrelude(cls) + TestsUpTo(cls, data.keys, data.methods, |data.keys|) + [TestClose]
  }

  lemma {:induction false} CountBaseAtLeast(keys: seq<string>, b: string, idx: set<nat>)
    requires NamesOk(keys)
    requires forall x :: x in idx ==> x < |keys| && BaseOf(keys[x]) == b
    ensures CountBase(keys, b) >= |idx|
    decreases |keys|
  {
    if keys == [] {
      assert idx == {};
    } else {
      var n := |keys|;
      var init := keys[..n - 1];
      assert NamesOk(init) by {
        forall k | k in init ensures k in keys { }
      }
      var rest := idx - {n - 1};
      forall x | x in rest ensures x < |init| && BaseOf(init[x]) == b {
        assert init[x] == keys[x];
      }
      CountBaseAtLeast(init, b, rest);
      if n - 1 in idx {
        assert idx == rest + {n - 1};
      } else {
        assert idx == rest;
      }
    }
  }

  /** Of the two keys of an accessor pair, the first gives the pair's test and the second none. */
  lemma PairTestedOnce(className: string, keys: seq<string>, methods: map<string, seq<Signature>>, i: nat, j: nat)
    requires TestableKeys(keys, methods) && i < j < |keys|
    requires BaseOf(keys[i]) == BaseOf(keys[j]) && IsPairKey(keys, i) && methods[keys[i]] != []
    ensures !Skipped(keys, i) && Skipped(keys, j)
    ensures KeyTests(className, keys, methods, j) == []
    ensures KeyTests(className, keys, methods, i) != []
  {
    FirstOfPair(keys, i, j);
    assert IsPairKey(keys, j);
    assert Skipped(keys, j);
    var tests := KeyTests(className, keys, methods, i);
    if |methods[keys[i]]| == 1 {
      assert |tests| >= 5;
    } else {
      assert tests == RepeatLines(TestFor(className, LastName(keys[i]), true, false), |methods[keys[i]]|);
      RepeatLinesAt(TestFor(className, LastName(keys[i]), true, false), |methods[keys[i]]|, 0, 0);
    }
  }

  /** A base name shared by two keys is shared by no third, so the first of the two has no
      earlier key of that base. */
  lemma FirstOfPair(keys: seq<string>, i: nat, j: nat)
    requires NamesOk(keys) && i < j < |keys|
    requires BaseOf(keys[i]) == BaseOf(keys[j]) && IsPairKey(keys, i)
    ensures !Skipped(keys, i)
  {
    var b := BaseOf(keys[i]);
    if exists k :: 0 <= k < i && BaseOf(keys[k]) == b {
      var k :| 0 <= k < i && BaseOf(keys[k]) == b;
      CountBaseAtLeast(keys, b, {k, i, j});
      assert false;
    }
  }

  /** A key with n > 1 overloads that is not skipped gets n skeleton tests named `<method>ByXXX`. */
  lemma OverloadTests(className: string, keys: seq<string>, methods: map<string, seq<Signature>>, i: nat, t: nat)
    requires TestableKeys(keys, methods) && i < |keys| && !Skipped(keys, i)
    requires |methods[keys[i]]| > 1 && !StartsWith(LastName(keys[i]), BooleanPrefix) && t < |methods[keys[i]]|
    ensures |KeyTests(className, keys, methods, i)| == 5 * |methods[keys[i]]|
    ensures KeyTests(className, keys, methods, i)[5 * t] == TestHeader(className, LastName(keys[i]), "ByXXX")
    ensures KeyTests(className, keys, methods, i)[5 * t + 3] == ExpectLine(LastName(keys[i]) + "ByXXX", "\"\"")
  {
    var block := TestFor(className, LastName(keys[i]), true, false);
    var n := |methods[keys[i]]|;
    RepeatLinesAt(block, n, t, 0);
    RepeatLinesAt(block, n, t, 3);
  }
}
