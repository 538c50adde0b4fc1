/**
  * The driver of `libcellml/extract_emscripten_helper.py`: the two output files
  * `wrapping.txt` and `tests.txt` as the fields of one object, the emitters that
  * append to them class by class, and the closing namespace pass over the
  * bindings file.
  */
module EmscriptenHelper {
  import opened Strings
  import opened EmscriptenExtract
  import opened EmscriptenClassify
  import opened EmscriptenBindings
  import opened EmscriptenTests
  import opened EmscriptenRewrite

  /** A class record the script gets through without an exception. */
  predicate Processable(c: ClassRecord) {
    Emittable(Extracted(c))
  }

  predicate Emittable(d: ClassData) {
    Bindable(d.keys, d.methods) && TestableKeys(d.keys, d.methods)
  }

  /** Every class of the run is processable. */
  predicate AllProcessable(classes: seq<ClassRecord>) {
    classes == [] || (AllProcessable(classes[..|classes| - 1]) && Processable(classes[|classes| - 1]))
  }

  lemma {:induction false} AllProcessableAt(classes: seq<ClassRecord>, i: nat)
    requires AllProcessable(classes) && i < |classes|
    ensures Processable(classes[i]) && AllProcessable(classes[..i])
    decreases |classes|
  {
    if i < |classes| - 1 {
      var init := classes[..|classes| - 1];
      AllProcessableAt(init, i);
      assert init[..i] == classes[..i];
    } else {
      assert classes[..i] == classes[..|classes| - 1];
    }
  }

  /** The bindings lines of the classes, in order. */
  function AllBindingLines(classes: seq<ClassRecord>): seq<string>
    requires AllProcessable(classes)
  {
    if classes == [] then []
    else AllBindingLines(classes[..|classes| - 1]) + ClassBindingLines(Extracted(classes[|classes| - 1]))
  }

  /** The test lines of the classes, in order. */
  function AllTestLines(classes: seq<ClassRecord>): seq<string>
    requires AllProcessable(classes)
  {
    if classes == [] then []
    else AllTestLines(classes[..|classes| - 1]) + TestFileLines(Extracted(classes[|classes| - 1]))
  }

  /** Processing one more class keeps the run processable. */
  lemma AllProcessableSnoc(done: seq<ClassRecord>, c: ClassRecord)
    requires AllProcessable(done) && Processable(c)
    ensures AllProcessable(done + [c])
  {
    var p := done + [c];
    assert p[..|p| - 1] == done;
  }

  /** Processing one more class appends its bindings to the bindings file. */
  lemma AllBindingLinesSnoc(done: seq<ClassRecord>, c: ClassRecord)
    requires AllProcessable(done + [c]) && AllProcessable(done) && Processable(c)
    ensures AllBindingLines(done + [c]) == AllBindingLines(done) + ClassBindingLines(Extracted(c))
  {
    var p := done + [c];
    assert p[..|p| - 1] == done;
  }

  /** Processing one more class appends its tests to the tests file. */
  lemma AllTestLinesSnoc(done: seq<ClassRecord>, c: ClassRecord)
    requires AllProcessable(done + [c]) && AllProcessable(done) && Processable(c)
    ensures AllTestLines(done + [c]) == AllTestLines(done) + TestFileLines(Extracted(c))
  {
    var p := done + [c];
    assert p[..|p| - 1] == done;
  }

  /** The `visited` list after the first `i` keys: the base name of each pair key, in the
      order its first member was met. */
  function VisitedUpTo(keys: seq<string>, i: nat): seq<string>
    requires NamesOk(keys) && i <= |keys|
  {
    if i == 0 then []
    else
      var v := VisitedUpTo(keys, i - 1);
      var b := BaseOf(keys[i - 1]);
      if IsPairKey(keys, i - 1) && b !in v then v + [b] else v
  }

  /** Some key among the first `i` has base name `b`. */
  predicate SeenBase(keys: seq<string>, i: nat, b: string)
    requires NamesOk(keys) && i <= |keys|
  {
    exists j :: 0 <= j < i && BaseOf(keys[j]) == b
  }

  lemma SeenBaseStep(keys: seq<string>, i: nat, b: string)
    requires NamesOk(keys) && 0 < i <= |keys|
    ensures SeenBase(keys, i, b) <==> SeenBase(keys, i - 1, b) || BaseOf(keys[i - 1]) == b
  {
    if SeenBase(keys, i, b) && BaseOf(keys[i - 1]) != b {
      var j :| 0 <= j < i && BaseOf(keys[j]) == b;
      assert j < i - 1;
    }
    if BaseOf(keys[i - 1]) == b {
      assert 0 <= i - 1 < i && BaseOf(keys[i - 1]) == b;
    }
  }

  /** A base name is visited after `i` keys exactly when it names a pair one of whose
      members is among them. */
  lemma {:induction false} VisitedUpToSpec(keys: seq<string>, i: nat, b: string)
    requires NamesOk(keys) && i <= |keys|
    ensures b in VisitedUpTo(keys, i) <==> CountBase(keys, b) == 2 && SeenBase(keys, i, b)
  {
    if i > 0 {
      VisitedUpToSpec(keys, i - 1, b);
      SeenBaseStep(keys, i, b);
      var v := VisitedUpTo(keys, i - 1);
      var c := BaseOf(keys[i - 1]);
      if c == b && IsPairKey(keys, i - 1) && c !in v {
        assert VisitedUpTo(keys, i) == v + [c];
      }
    }
  }

  /** Checking `visited` is checking whether the key is the second of its pair. */
  lemma VisitedSkipped(keys: seq<string>, i: nat)
    requires NamesOk(keys) && i < |keys|
    ensures BaseOf(keys[i]) in VisitedUpTo(keys, i) <==> Skipped(keys, i)
  {
    VisitedUpToSpec(keys, i, BaseOf(keys[i]));
    assert SeenBase(keys, i, BaseOf(keys[i])) <==> exists j :: 0 <= j < i && BaseOf(keys[j]) == BaseOf(keys[i]);
  }

  /** One `for name in NAMES` loop of `add_namespace_to_class`. */
  method SubAll(content: string, names: seq<string>, prefix: string) returns (r: string)
    requires forall k :: 0 <= k < |names| ==> WordEdged(names[k])
    ensures r == SubEach(content, names, prefix)
  {
    r := content;
    for i := 0 to |names|
      invariant SubEach(r, names[i..], prefix) == SubEach(content, names, prefix)
    {
      assert names[i..][1..] == names[i + 1..];
      r := SubWord(r, names[i], prefix + names[i]);
    }
  }

  /** The three `for name in NAMES` loops of `add_namespace_to_class`, list after list. */
  method QualifyText(content: string) returns (r: string)
    ensures r == Qualify(content)
  {
    ListsWordEdged();
    ghost var c := content;
    r := SubAll(content, NamespaceNames, NamespacePrefix);
    ghost var c1 := r;
    r := SubAll(r, UnitsNames, UnitsPrefix);
    ghost var c2 := r;
    r := SubAll(r, VariableNames, VariablePrefix);
    QualifyIs(c, c1, c2, r);
  }

  class Artifacts {
    /** The contents of `wrapping.txt`. */
    var wrapping: string
    /** The contents of `tests.txt`. */
    var tests: string
    /** The lines written to each file so far. */
    ghost var wrappingLines: seq<string>
    ghost var testLines: seq<string>

    /** Each file holds its lines, each ended by a newline (every write of the script ends in one). */
    ghost predicate Valid()
      reads this
    {
      wrapping == Text(wrappingLines) && tests == Text(testLines)
    }

    /** Both files truncated. */
    constructor ()
      ensures Valid() && wrappingLines == [] && testLines == []
    {
      wrapping := "";
      tests := "";
      wrappingLines := [];
      testLines := [];
    }

    /** One `write` to the bindings file. */
    method WriteWrapping(chunk: seq<string>)
      requires Valid()
      modifies this
      ensures Valid() && wrappingLines == old(wrappingLines) + chunk && testLines == old(testLines)
      ensures wrapping == old(wrapping) + Text(chunk)
    {
      TextAppend(wrappingLines, chunk);
      wrapping := wrapping + Text(chunk);
      wrappingLines := wrappingLines + chunk;
    }

    /** One `write` to the tests file. */
    method WriteTests(chunk: seq<string>)
      requires Valid()
      modifies this
      ensures Valid() && testLines == old(testLines) + chunk && wrappingLines == old(wrappingLines)
      ensures tests == old(tests) + Text(chunk)
    {
      TextAppend(testLines, chunk);
      tests := tests + Text(chunk);
      testLines := testLines + chunk;
    }

    /** The include preamble of `print_class`. */
    method PrintPreamble(cls: string)
      requires Valid()
      modifies this
      ensures Valid() && wrappingLines == old(wrappingLines) + Preamble(cls) && testLines == old(testLines)
    {
      var lower := Lower(cls);
      WriteWrapping(["", "# include <emscripten/bind.h>", ""]);
      WriteWrapping(["# include \"libcellml/" + lower + ".h\"", "", "using namespace emscripten;", "",
        "EMSCRIPTEN_BINDINGS(libcellml_" + lower + ")", "{"]);
      AppendAssoc(old(wrappingLines), ["", "# include <emscripten/bind.h>", ""],
        ["# include \"libcellml/" + lower + ".h\"", "", "using namespace emscripten;", "",
         "EMSCRIPTEN_BINDINGS(libcellml_" + lower + ")", "{"]);
    }

    /** One enum: its `enum_` line, a `.value` line per value, and the closing lines. */
    method PrintEnum(fullName: string, e: EnumRecord)
      requires Valid()
      modifies this
      ensures Valid() && wrappingLines == old(wrappingLines) + EnumBlock(fullName, e) && testLines == old(testLines)
    {
      ghost var start := wrappingLines;
      ghost var values := seq(|e.values|, q requires 0 <= q < |e.values| => ValueLine(fullName, e, e.values[q]));
      WriteWrapping([EnumHeader(fullName, e)]);
      var j := 0;
      while j < |e.values|
        invariant 0 <= j <= |e.values| && Valid()
        invariant wrappingLines == start + ([EnumHeader(fullName, e)] + values[..j])
        invariant testLines == old(testLines)
      {
        var line := ValueLine(fullName, e, e.values[j]);
        WriteWrapping([line]);
        AppendAssoc(start, [EnumHeader(fullName, e)] + values[..j], [line]);
        AppendAssoc([EnumHeader(fullName, e)], values[..j], [line]);
        TakeSnoc(values, j);
        j := j + 1;
      }
      assert values[..|e.values|] == values;
      WriteWrapping(["    ;", ""]);
      AppendAssoc(start, [EnumHeader(fullName, e)] + values, ["    ;", ""]);
    }

    /** The enum loop of `print_class`. */
    method PrintEnums(fullName: string, enums: seq<EnumRecord>)
      requires Valid()
      modifies this
      ensures Valid() && wrappingLines == old(wrappingLines) + EnumBlocks(fullName, enums) && testLines == old(testLines)
    {
      ghost var start := wrappingLines;
      var i := 0;
      while i < |enums|
        invariant 0 <= i <= |enums| && Valid()
        invariant wrappingLines == start + EnumBlocks(fullName, enums[..i])
        invariant testLines == old(testLines)
      {
        PrintEnum(fullName, enums[i]);
        AppendAssoc(start, EnumBlocks(fullName, enums[..i]), EnumBlock(fullName, enums[i]));
        assert enums[..i + 1][..i] == enums[..i];
        i := i + 1;
      }
      assert enums[..|enums|] == enums;
    }

    /** The `select_overload` line of the t-th overload of a key. */
    method PrintOverload(key: string, sigs: seq<Signature>, t: nat, ghost start: seq<string>)
      requires Valid() && OverloadsNamed(sigs) && |sigs| > 1 && t < |sigs|
      requires wrappingLines == start + KeyBindings(key, sigs)[..t]
      modifies this
      ensures Valid() && wrappingLines == start + KeyBindings(key, sigs)[..t + 1] && testLines == old(testLines)
    {
      ghost var lines := KeyBindings(key, sigs);
      KeyBindingsAt(key, sigs, t);
      WriteWrapping([OverloadBinding(key, sigs[t])]);
      AppendAssoc(start, lines[..t], [lines[t]]);
      TakeSnoc(lines, t);
    }

    /** The `.function` lines of one key: one by address, or one `select_overload` per overload. */
    method PrintKey(key: string, sigs: seq<Signature>)
      requires Valid() && OverloadsNamed(sigs)
      modifies this
      ensures Valid() && wrappingLines == old(wrappingLines) + KeyBindings(key, sigs) && testLines == old(testLines)
    {
      if |sigs| == 1 {
        WriteWrapping([SingleBinding(key)]);
      } else {
        ghost var start := wrappingLines;
        var t := 0;
        while t < |sigs|
          invariant 0 <= t <= |sigs| && Valid()
          invariant wrappingLines == start + KeyBindings(key, sigs)[..t]
          invariant testLines == old(testLines)
        {
          PrintOverload(key, sigs, t, start);
          t := t + 1;
        }
        assert |KeyBindings(key, sigs)| == |sigs|;
        assert KeyBindings(key, sigs)[..|sigs|] == KeyBindings(key, sigs);
      }
    }

    /** One pass of the method loop of `print_class`. */
    method PrintMethod(keys: seq<string>, methods: map<string, seq<Signature>>, k: nat, ghost start: seq<string>)
      requires Valid() && Bindable(keys, methods) && k < |keys|
      requires wrappingLines == start + BindingsUpTo(keys, methods, k)
      modifies this
      ensures Valid() && wrappingLines == start + BindingsUpTo(keys, methods, k + 1)
      ensures testLines == old(testLines)
    {
      var key := keys[k];
      PrintKey(key, methods[key]);
      AppendAssoc(start, BindingsUpTo(keys, methods, k), KeyBindings(key, methods[key]));
    }

    /** The method loop of `print_class`. */
    method PrintMethods(keys: seq<string>, methods: map<string, seq<Signature>>)
      requires Valid() && Bindable(keys, methods)
      modifies this
      ensures Valid() && wrappingLines == old(wrappingLines) + BindingsUpTo(keys, methods, |keys|)
      ensures testLines == old(testLines)
    {
      ghost var start := wrappingLines;
      var k := 0;
      while k < |keys|
        invariant 0 <= k <= |keys| && Valid()
        invariant wrappingLines == start + BindingsUpTo(keys, methods, k)
        invariant testLines == old(testLines)
      {
        PrintMethod(keys, methods, k, start);
        k := k + 1;
      }
    }

    /** One pass of the warnings loop of `print_class`. */
    method PrintWarning(cls: string, warnings: seq<string>, w: nat, printHeader: bool, ghost start: seq<string>)
      returns (printHeader': bool)
      requires Valid() && w < |warnings| && (printHeader <==> w == 0)
      requires wrappingLines == start + WarningBlock(cls, warnings[..w])
      modifies this
      ensures Valid() && !printHeader' && wrappingLines == start + WarningBlock(cls, warnings[..w + 1])
      ensures testLines == old(testLines)
    {
      ghost var before := WarningBlock(cls, warnings[..w]);
      WarningBlockSnoc(cls, warnings, w);
      if printHeader {
        assert warnings[..w] == [];
        WriteWrapping(["", WarningsHeaderPrefix + cls]);
        before := ["", WarningsHeaderPrefix + cls];
      }
      printHeader' := false;
      WriteWrapping([" - " + warnings[w]]);
      AppendAssoc(start, before, [" - " + warnings[w]]);
    }

    /** The warnings loop of `print_class`: the header before the first warning only. */
    method PrintWarnings(cls: string, warnings: seq<string>)
      requires Valid()
      modifies this
      ensures Valid() && wrappingLines == old(wrappingLines) + WarningBlock(cls, warnings)
      ensures testLines == old(testLines)
    {
      ghost var start := wrappingLines;
      var printHeader := true;
      var w := 0;
      while w < |warnings|
        invariant 0 <= w <= |warnings| && Valid()
        invariant printHeader <==> w == 0
        invariant wrappingLines == start + WarningBlock(cls, warnings[..w])
        invariant testLines == old(testLines)
      {
        printHeader := PrintWarning(cls, warnings, w, printHeader, start);
        w := w + 1;
      }
      assert warnings[..|warnings|] == warnings;
    }

    /** `print_class`: appends the preamble, the enum blocks, the class block and the warnings. */
    method PrintClass(data: ClassData)
      requires Valid() && Bindable(data.keys, data.methods)
      modifies this
      ensures Valid() && wrappingLines == old(wrappingLines) + ClassBindingLines(data)
      ensures testLines == old(testLines)
    {
      ghost var start := wrappingLines;
      var cls := ClassName(data.name);
      PrintPreamble(cls);
      ghost var written := Preamble(cls);
      PrintEnums(data.name, data.enums);
      AppendAssoc(start, written, EnumBlocks(data.name, data.enums));
      written := written + EnumBlocks(data.name, data.enums);
      WriteWrapping([ClassHeader(data.name)]);
      AppendAssoc(start, written, [ClassHeader(data.name)]);
      written := written + [ClassHeader(data.name)];
      PrintMethods(data.keys, data.methods);
      AppendAssoc(start, written, BindingsUpTo(data.keys, data.methods, |data.keys|));
      written := written + BindingsUpTo(data.keys, data.methods, |data.keys|);
      WriteWrapping(["    ;", "}"]);
      AppendAssoc(start, written, ["    ;", "}"]);
      written := written + ["    ;", "}"];
      PrintWarnings(cls, data.warnings);
      AppendAssoc(start, written, WarningBlock(cls, data.warnings));
      written := written + WarningBlock(cls, data.warnings);
      assert written == ClassBindingLines(data);
    }

    /** The tests of one key that is not skipped: one test, or one `ByXXX` skeleton per overload. */
    method PrintKeyTests(cls: string, name: string, count: nat, isPair: bool)
      requires Valid() && (isPair ==> PairName(name))
      modifies this
      ensures Valid() && wrappingLines == old(wrappingLines)
      ensures testLines == old(testLines)
        + (if count == 1 then TestFor(cls, name, false, isPair) else RepeatLines(TestFor(cls, name, true, false), count))
    {
      if count == 1 {
        WriteTests(TestFor(cls, name, false, isPair));
      } else {
        WriteTestsRepeated(TestFor(cls, name, true, false), count);
      }
    }

    /** The loop writing one skeleton test per overload. */
    method WriteTestsRepeated(block: seq<string>, count: nat)
      requires Valid()
      modifies this
      ensures Valid() && wrappingLines == old(wrappingLines)
      ensures testLines == old(testLines) + RepeatLines(block, count)
    {
      ghost var start := testLines;
      var t := 0;
      while t < count
        invariant 0 <= t <= count && Valid()
        invariant testLines == start + RepeatLines(block, t)
        invariant wrappingLines == old(wrappingLines)
      {
        WriteTests(block);
        AppendAssoc(start, RepeatLines(block, t), block);
        t := t + 1;
      }
    }

    /** The opening lines of `print_test_file`: the module import and the `describe` and
        `beforeAll` openers. */
    method PrintTestPrelude(cls: string)
      requires Valid()
      modifies this
      ensures Valid() && testLines == old(testLines) + TestPrelude(cls) && wrappingLines == old(wrappingLines)
    {
      WriteTests(["", "", "const libCellMLModule = require('libcellml.js/libcellml.common')", "let libcellml = null", ""]);
      WriteTests(["describe(\"" + cls + " tests\", () => {",
        "  beforeAll(async () => {", "    libcellml = await libCellMLModule();", "  });"]);
      AppendAssoc(old(testLines), ["", "", "const libCellMLModule = require('libcellml.js/libcellml.common')", "let libcellml = null", ""],
        ["describe(\"" + cls + " tests\", () => {", "  beforeAll(async () => {", "    libcellml = await libCellMLModule();", "  });"]);
    }

    /** One pass of the key loop of `print_test_file`: nothing for a key whose pair was
        visited, otherwise its tests, marking a pair's base name as visited. */
    method PrintTestsOfKey(cls: string, keys: seq<string>, methods: map<string, seq<Signature>>,
                           pairs: map<string, nat>, i: nat, visited: seq<string>, ghost start: seq<string>)
      returns (visited': seq<string>)
      requires Valid() && TestableKeys(keys, methods) && i < |keys|
      requires forall b :: b in pairs <==> CountBase(keys, b) == 2
      requires visited == VisitedUpTo(keys, i)
      requires testLines == start + TestsUpTo(cls, keys, methods, i)
      modifies this
      ensures Valid() && testLines == start + TestsUpTo(cls, keys, methods, i + 1)
      ensures wrappingLines == old(wrappingLines)
      ensures visited' == VisitedUpTo(keys, i + 1)
    {
      var key := keys[i];
      var name := LastName(key);
      var base := BaseName(name);
      VisitedSkipped(keys, i);
      visited' := visited;
      if base !in visited {
        var isPair := base in pairs;
        if isPair {
          visited' := visited + [base];
        }
        PrintKeyTests(cls, name, |methods[key]|, isPair);
      }
      AppendAssoc(start, TestsUpTo(cls, keys, methods, i), KeyTests(cls, keys, methods, i));
    }

    /** The key loop of `print_test_file`. */
    method PrintKeysTests(cls: string, keys: seq<string>, methods: map<string, seq<Signature>>)
      requires Valid() && TestableKeys(keys, methods)
      modifies this
      ensures Valid() && testLines == old(testLines) + TestsUpTo(cls, keys, methods, |keys|)
      ensures wrappingLines == old(wrappingLines)
    {
      ghost var start := testLines;
      var pairs := DeterminePairs(keys);
      var visited: seq<string> := [];
      var i := 0;
      while i < |keys|
        invariant 0 <= i <= |keys| && Valid()
        invariant testLines == start + TestsUpTo(cls, keys, methods, i)
        invariant wrappingLines == old(wrappingLines)
        invariant visited == VisitedUpTo(keys, i)
      {
        visited := PrintTestsOfKey(cls, keys, methods, pairs, i, visited, start);
        i := i + 1;
      }
    }

    /** `print_test_file`: the prelude, the tests of each key (the second key of an accessor
        pair skipped through `visited`), and the closing line. */
    method PrintTestFile(data: ClassData)
      requires Valid() && TestableKeys(data.keys, data.methods)
      modifies this
      ensures Valid() && testLines == old(testLines) + TestFileLines(data)
      ensures wrappingLines == old(wrappingLines)
    {
      ghost var start := testLines;
      var cls := ClassName(data.name);
      PrintTestPrelude(cls);
      PrintKeysTests(cls, data.keys, data.methods);
      ghost var body := TestsUpTo(cls, data.keys, data.methods, |data.keys|);
      AppendAssoc(start, TestPrelude(cls), body);
      WriteTests([TestClose]);
      AppendAssoc(start, TestPrelude(cls) + body, [TestClose]);
    }

    /** The record loop, then `print_class` and `print_test_file`, for one class. */
    method ProcessClass(c: ClassRecord)
      requires Valid() && Processable(c)
      modifies this
      ensures Valid()
      ensures wrappingLines == old(wrappingLines) + ClassBindingLines(Extracted(c))
      ensures testLines == old(testLines) + TestFileLines(Extracted(c))
    {
      var data := Extract(c);
      PrintClass(data);
      PrintTestFile(data);
    }

    /** `add_namespace_to_class`: `re.sub` of each listed name, list after list, over the
        whole bindings file. */
    method AddNamespaceToClass()
      modifies this
      ensures wrapping == Qualify(old(wrapping))
      ensures tests == old(tests) && testLines == old(testLines)
    {
      wrapping := QualifyText(wrapping);
    }

    /** One pass of the class loop of `main`. */
    method ProcessNext(classes: seq<ClassRecord>, i: nat)
      requires Valid() && AllProcessable(classes) && i < |classes| && AllProcessable(classes[..i])
      requires wrappingLines == AllBindingLines(classes[..i]) && testLines == AllTestLines(classes[..i])
      modifies this
      ensures Valid() && AllProcessable(classes[..i + 1])
      ensures wrappingLines == AllBindingLines(classes[..i + 1]) && testLines == AllTestLines(classes[..i + 1])
    {
      AllProcessableAt(classes, i);
      ProcessClass(classes[i]);
      TakeSnoc(classes, i);
      AllProcessableSnoc(classes[..i], classes[i]);
      AllBindingLinesSnoc(classes[..i], classes[i]);
      AllTestLinesSnoc(classes[..i], classes[i]);
    }

    /** The class loop of `main`: truncate both files, then process each class. */
    method ProcessAll(classes: seq<ClassRecord>)
      requires AllProcessable(classes)
      modifies this
      ensures Valid()
      ensures wrappingLines == AllBindingLines(classes) && testLines == AllTestLines(classes)
    {
      wrapping := "";
      tests := "";
      wrappingLines := [];
      testLines := [];
      var i := 0;
      assert classes[..0] == [];
      while i < |classes|
        invariant 0 <= i <= |classes| && Valid() && AllProcessable(classes[..i])
        invariant wrappingLines == AllBindingLines(classes[..i])
        invariant testLines == AllTestLines(classes[..i])
      {
        ProcessNext(classes, i);
        i := i + 1;
      }
      assert classes[..|classes|] == classes;
    }

    /** `main` over the class records of the selected files: process each class, then
        qualify the names in the bindings file. */
    method Run(classes: seq<ClassRecord>)
      requires AllProcessable(classes)
      modifies this
      ensures wrapping == Qualify(Text(AllBindingLines(classes)))
      ensures tests == Text(AllTestLines(classes))
    {
      ProcessAll(classes);
      AddNamespaceToClass();
    }
  }
}
