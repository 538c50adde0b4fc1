/**
  * The lines `print_class` of `libcellml/extract_emscripten_helper.py` writes to
  * the bindings file for one class: the include preamble, one `enum_` block per
  * enum, the `class_` block with one `.function` line per method or overload,
  * and the optional warnings block.
  */
module EmscriptenBindings {
  import opened Strings
  import opened EmscriptenExtract
  import opened EmscriptenClassify

  /** `PARAM_NAME_MAP`: parameter names shown under another name in overload names. */
  const ParamNameMap: map<string, string> := map["oldUnits" := "units", "variable1" := "variable"]

  /** `PARAM_NAME_MAP.get(name, name)`. */
  function PublicParamName(name: string): (r: string)
    ensures name == "oldUnits" ==> r == "units"
    ensures name == "variable1" ==> r == "variable"
    ensures name != "oldUnits" && name != "variable1" ==> r == name
    ensures r == "" <==> name == ""
  {
    if name in ParamNameMap then ParamNameMap[name] else name
  }

  /** When a method is overloaded, each overload with parameters names its first
      parameter (Python indexes `first_param_name[0]`). */
  predicate OverloadsNamed(sigs: seq<Signature>) {
    |sigs| > 1 ==> forall j :: 0 <= j < |sigs| && |sigs[j].params| > 0 ==> sigs[j].params[0].name != ""
  }

  /** Every key has its overloads, and they can be named. */
  predicate Bindable(keys: seq<string>, methods: map<string, seq<Signature>>) {
    forall k :: k in keys ==> k in methods && OverloadsNamed(methods[k])
  }

  /** The `By...` discriminator of one overload. */
  function OverloadSuffix(sig: Signature): string
    requires |sig.params| > 0 ==> sig.params[0].name != ""
  {
    if |sig.params| > 0 then Capitalize(PublicParamName(sig.params[0].name)) else "XXX"
  }

  function ParamTypes(params: seq<Param>): seq<string> {
    seq(|params|, i requires 0 <= i < |params| => params[i].paramType)
  }

  function SingleBinding(key: string): string {
    "        .function(\"" + LastName(key) + "\", &" + key + ")"
  }

  function OverloadBinding(key: string, sig: Signature): string
    requires |sig.params| > 0 ==> sig.params[0].name != ""
  {
    "        .function(\"" + LastName(key) + "By" + OverloadSuffix(sig) + "\", select_overload<"
      + sig.returnType + "(" + Join(ParamTypes(sig.params), ", ") + ")"
      + (if sig.isConst then " const" else "") + ">(&" + key + "))"
  }

  /** The binding lines of one method key. */
  function KeyBindings(key: string, sigs: seq<Signature>): seq<string>
    requires OverloadsNamed(sigs)
  {
    if |sigs| == 1 then [SingleBinding(key)]
    else seq(|sigs|, j requires 0 <= j < |sigs| => OverloadBinding(key, sigs[j]))
  }

  lemma KeyBindingsLength(key: string, sigs: seq<Signature>)
    requires OverloadsNamed(sigs)
    ensures |KeyBindings(key, sigs)| == |sigs|
  {
  }

  lemma KeyBindingsAt(key: string, sigs: seq<Signature>, t: nat)
    requires OverloadsNamed(sigs) && |sigs| > 1 && t < |sigs|
    ensures |KeyBindings(key, sigs)| == |sigs|
    ensures KeyBindings(key, sigs)[t] == OverloadBinding(key, sigs[t])
  {
  }

  /** The binding lines of the first `n` keys. */
  function BindingsUpTo(keys: seq<string>, methods: map<string, seq<Signature>>, n: nat): seq<string>
    requires Bindable(keys, methods) && n <= |keys|
  {
    if n == 0 then []
    else BindingsUpTo(keys, methods, n - 1) + KeyBindings(keys[n - 1], methods[keys[n - 1]])
  }

  /** Number of signatures of the first `n` keys. */
  function SignatureCount(keys: seq<string>, methods: map<string, seq<Signature>>, n: nat): nat
    requires (forall k :: k in keys ==> k in methods) && n <= |keys|
  {
    if n == 0 then 0 else SignatureCount(keys, methods, n - 1) + |methods[keys[n - 1]]|
  }

  /** One binding line per signature: a plain key gives one, a key with n overloads n. */
  lemma {:induction false} BindingLinePerSignature(keys: seq<string>, methods: map<string, seq<Signature>>, n: nat)
    requires Bindable(keys, methods) && n <= |keys|
    ensures |BindingsUpTo(keys, methods, n)| == SignatureCount(keys, methods, n)
  {
    if n > 0 {
      BindingLinePerSignature(keys, methods, n - 1);
      var key := keys[n - 1];
      KeyBindingsLength(key, methods[key]);
      var prev := BindingsUpTo(keys, methods, n - 1);
      var kb := KeyBindings(key, methods[key]);
      assert BindingsUpTo(keys, methods, n) == prev + kb;
      assert SignatureCount(keys, methods, n) == SignatureCount(keys, methods, n - 1) + |methods[key]|;
    }
  }

  /** Without overloads, the class block binds each method once by address, in key order. */
  lemma {:induction false} PlainMethodsInKeyOrder(keys: seq<string>, methods: map<string, seq<Signature>>, n: nat)
    requires Bindable(keys, methods) && n <= |keys|
    requires forall k :: k in keys ==> |methods[k]| == 1
    ensures BindingsUpTo(keys, methods, n) == seq(n, i requires 0 <= i < n => SingleBinding(keys[i]))
  {
    if n > 0 { PlainMethodsInKeyOrder(keys, methods, n - 1); }
  }

  /** The j-th line of an overloaded key binds `<name>By<Discriminator>` and selects the
      overload by its return type, its parameter types joined by ", " and its constness. */
  lemma OverloadLines(key: string, sigs: seq<Signature>, j: nat)
    requires |sigs| > 1 && j < |sigs|
    requires forall i :: 0 <= i < |sigs| && |sigs[i].params| > 0 ==> sigs[i].params[0].name != ""
    ensures |KeyBindings(key, sigs)| == |sigs|
    ensures var suffix := if |sigs[j].params| > 0 then Capitalize(PublicParamName(sigs[j].params[0].name)) else "XXX";
      KeyBindings(key, sigs)[j] ==
        "        .function(\"" + LastName(key) + "By" + suffix + "\", select_overload<"
        + sigs[j].returnType + "(" + Join(ParamTypes(sigs[j].params), ", ") + ")"
        + (if sigs[j].isConst then " const" else "") + ">(&" + key + "))"
  {
  }

  function EnumHeader(fullName: string, e: EnumRecord): string {
    "    enum_<" + fullName + "::" + e.name + ">(\"" + e.name + "\")"
  }

  function ValueLine(fullName: string, e: EnumRecord, v: string): string {
    "        .value(\"" + v + "\", " + fullName + "::" + e.name + "::" + v + ")"
  }

  function EnumBlock(fullName: string, e: EnumRecord): seq<string> {
    [EnumHeader(fullName, e)]
      + seq(|e.values|, j requires 0 <= j < |e.values| => ValueLine(fullName, e, e.values[j]))
      + ["    ;", ""]
  }

  function EnumBlocks(fullName: string, es: seq<EnumRecord>): seq<string> {
    if es == [] then []
    else EnumBlocks(fullName, es[..|es| - 1]) + EnumBlock(fullName, es[|es| - 1])
  }

  function CountLine(lines: seq<string>, line: string): nat {
    if lines == [] then 0
    else CountLine(lines[..|lines| - 1], line) + (if lines[|lines| - 1] == line then 1 else 0)
  }

  lemma {:induction false} CountLineAppend(a: seq<string>, b: seq<string>, line: string)
    ensures CountLine(a + b, line) == CountLine(a, line) + CountLine(b, line)
    decreases |b|
  {
    if b == [] {
      assert a + b == a;
    } else {
      assert (a + b)[..|a + b| - 1] == a + b[..|b| - 1];
      CountLineAppend(a, b[..|b| - 1], line);
    }
  }

  /** Where the block of the i-th enum starts: each earlier enum took its header,
      its value lines, the closing `;` and a blank line. */
  function EnumOffset(es: seq<EnumRecord>, i: nat): nat
    requires i <= |es|
  {
    if i == 0 then 0 else EnumOffset(es, i - 1) + |es[i - 1].values| + 3
  }

  lemma {:induction false} EnumBlocksLength(fullName: string, es: seq<EnumRecord>)
    ensures |EnumBlocks(fullName, es)| == EnumOffset(es, |es|)
    decreases |es|
  {
    if es != [] {
      var init := es[..|es| - 1];
      EnumBlocksLength(fullName, init);
      OffsetPrefix(es, init, |init|);
    }
  }

  /** The i-th enum's `enum_` line stands at the i-th block offset: one header per enum, in input order. */
  lemma {:induction false} EnumHeaderAt(fullName: string, es: seq<EnumRecord>, i: nat)
    requires i < |es|
    ensures EnumOffset(es, i) < |EnumBlocks(fullName, es)|
    ensures EnumBlocks(fullName, es)[EnumOffset(es, i)] == EnumHeader(fullName, es[i])
    decreases |es|
  {
    var init := es[..|es| - 1];
    EnumBlocksLength(fullName, init);
    OffsetPrefix(es, init, if i < |init| then i else |init|);
    if i < |init| {
      EnumHeaderAt(fullName, init, i);
      assert init[i] == es[i];
    }
  }

  /** The j-th value of the i-th enum follows its header as the (j+1)-th line of its block. */
  lemma {:induction false} EnumValueAt(fullName: string, es: seq<EnumRecord>, i: nat, j: nat)
    requires i < |es| && j < |es[i].values|
    ensures EnumOffset(es, i) + 1 + j < |EnumBlocks(fullName, es)|
    ensures EnumBlocks(fullName, es)[EnumOffset(es, i) + 1 + j] == ValueLine(fullName, es[i], es[i].values[j])
    decreases |es|
  {
    var init := es[..|es| - 1];
    EnumBlocksLength(fullName, init);
    OffsetPrefix(es, init, if i < |init| then i else |init|);
    if i < |init| {
      EnumValueAt(fullName, init, i, j);
      assert init[i] == es[i];
    }
  }

  lemma {:induction false} OffsetPrefix(es: seq<EnumRecord>, init: seq<EnumRecord>, i: nat)
    requires |init| <= |es| && init == es[..|init|] && i <= |init|
    ensures EnumOffset(init, i) == EnumOffset(es, i)
  {
    if i > 0 {
      OffsetPrefix(es, init, i - 1);
      assert init[i - 1] == es[i - 1];
    }
  }

  const WarningsHeaderPrefix: string := "Warnings: "

  function WarningLines(ws: seq<string>): seq<string> {
    seq(|ws|, i requires 0 <= i < |ws| => " - " + ws[i])
  }

  lemma WarningLinesSnoc(ws: seq<string>, w: nat)
    requires w < |ws|
    ensures WarningLines(ws[..w + 1]) == WarningLines(ws[..w]) + [" - " + ws[w]]
  {
    assert WarningLines(ws[..w + 1])[w] == " - " + ws[w];
  }

  /** The trailing warnings block: a header and one line per warning, only when there are any. */
  function WarningBlock(className: string, ws: seq<string>): seq<string> {
    if ws == [] then [] else ["", WarningsHeaderPrefix + className] + WarningLines(ws)
  }

  /** One more warning: the header first if it is the first, then its line. */
  lemma WarningBlockSnoc(className: string, ws: seq<string>, w: nat)
    requires w < |ws|
    ensures WarningBlock(className, ws[..w + 1])
      == (if w == 0 then ["", WarningsHeaderPrefix + className] else WarningBlock(className, ws[..w])) + [" - " + ws[w]]
  {
    WarningLinesSnoc(ws, w);
    if w == 0 {
      assert ws[..w] == [];
    } else {
      AppendAssoc(["", WarningsHeaderPrefix + className], WarningLines(ws[..w]), [" - " + ws[w]]);
    }
  }

  /** The `Warnings:` header appears once exactly when the class has warnings, and the
      warnings follow it one per line in order. */
  lemma WarningHeaderOnce(className: string, ws: seq<string>)
    ensures CountLine(WarningBlock(className, ws), WarningsHeaderPrefix + className) == if ws == [] then 0 else 1
    ensures ws != [] ==> forall i :: 0 <= i < |ws| ==> WarningBlock(className, ws)[i + 2] == " - " + ws[i]
  {
    if ws != [] {
      var h := WarningsHeaderPrefix + className;
      assert h[0] == 'W';
      WarningLinesNotHeader(ws, h, |ws|);
      assert WarningLines(ws)[..|ws|] == WarningLines(ws);
      CountLineAppend(["", h], WarningLines(ws), h);
      assert ["", h][..1] == [""];
      assert [""][..0] == [];
      assert CountLine([""], h) == 0;
      assert CountLine(["", h], h) == 1;
    }
  }

  lemma {:induction false} WarningLinesNotHeader(ws: seq<string>, h: string, n: nat)
    requires n <= |ws| && |h| > 0 && h[0] == 'W'
    ensures CountLine(WarningLines(ws)[..n], h) == 0
  {
    if n > 0 {
      assert WarningLines(ws)[..n][..n - 1] == WarningLines(ws)[..n - 1];
      WarningLinesNotHeader(ws, h, n - 1);
      assert WarningLines(ws)[n - 1][0] == ' ';
    }
  }

  function Preamble(className: string): seq<string> {
    [ "",
      "# include <emscripten/bind.h>", "",
      "# include \"libcellml/" + Lower(className) + ".h\"", "",
      "using namespace emscripten;", "",
      "EMSCRIPTEN_BINDINGS(libcellml_" + Lower(className) + ")", "{" ]
  }

  function ClassHeader(fullName: string): string {
    "    class_<" + fullName + ">(\"" + ClassName(fullName) + "\")"
  }

  /** Everything `print_class` appends for one class. */
  function ClassBindingLines(data: ClassData): seq<string>
    requires Bindable(data.keys, data.methods)
  {
    Preamble(ClassName(data.name))
      + EnumBlocks(data.name, data.enums)
      + [ClassHeader(data.name)]
      + BindingsUpTo(data.keys, data.methods, |data.keys|)
      + ["    ;", "}"]
      + WarningBlock(ClassName(data.name), data.warnings)
  }
}
