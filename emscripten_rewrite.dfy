/**
  * The final pass of `libcellml/extract_emscripten_helper.py` over the bindings
  * text: `re.sub(r'\bNAME\b', PREFIX + NAME, content)` for each listed name, with
  * `\b` read over the ASCII word characters `[A-Za-z0-9_]`.
  */
module EmscriptenRewrite {
  import opened Strings

  /** `NAMES_REQUIRING_NAMESPACE`, qualified with `libcellml::`. */
  const NamespaceNames: seq<string> := ["UnitsPtr", "VariablePtr", "ResetPtr", "ComponentPtr", "VariablePairPtr",
    "ModelPtr", "AnalyserExternalVariablePtr", "ImportSourcePtr", "AnyItem", "CellmlElementType", "UnitPtr"]
  const NamespacePrefix: string := "libcellml::"

  /** `NAMES_REQUIRING_UNITS_QUALIFICATION`, qualified with `libcellml::Units::`. */
  const UnitsNames: seq<string> := ["Prefix", "StandardUnit"]
  const UnitsPrefix: string := "libcellml::Units::"

  /** `NAMES_REQUIRING_VARIABLE_QUALIFICATION`, qualified with `libcellml::Variable::`. */
  const VariableNames: seq<string> := ["InterfaceType"]
  const VariablePrefix: string := "libcellml::Variable::"

  /** A name whose first and last characters are word characters, so that `\b` on
      either side of it means "no word character adjoins it" (all listed names are). */
  predicate WordEdged(name: string) {
    name != [] && IsWordChar(name[0]) && IsWordChar(name[|name| - 1])
  }

  /** A name made of word characters only. */
  predicate WordName(name: string) {
    name != [] && forall k :: 0 <= k < |name| ==> IsWordChar(name[k])
  }

  lemma OccursWordChars(s: string, name: string, p: nat)
    requires WordName(name) && OccursAt(s, name, p)
    ensures forall k :: p <= k < p + |name| ==> IsWordChar(s[k])
  {
    forall k | p <= k < p + |name| ensures IsWordChar(s[k]) {
      assert s[k] == s[p..p + |name|][k - p];
    }
  }

  /** The word boundary before position `p`; `afterWord` says whether the text
      already consumed before `c` ended in a word character. */
  predicate BoundaryBefore(c: string, p: nat, afterWord: bool)
    requires p <= |c|
  {
    if p == 0 then !afterWord else !IsWordChar(c[p - 1])
  }

  /** `\bNAME\b` matches at position `p`. */
  predicate WholeWordAt(c: string, name: string, p: nat, afterWord: bool) {
    OccursAt(c, name, p) && BoundaryBefore(c, p, afterWord) &&
    (p + |name| == |c| || !IsWordChar(c[p + |name|]))
  }

  /** `re.sub` scanning `c` left to right, replacing each whole-word `name` by `repl`;
      a replaced match is skipped over, and the scan resumes after its last (word) character. */
  function SubWordFrom(c: string, name: string, repl: string, afterWord: bool): string
    requires WordEdged(name)
    decreases |c|
  {
    if c == [] then []
    else if WholeWordAt(c, name, 0, afterWord) then repl + SubWordFrom(c[|name|..], name, repl, true)
    else [c[0]] + SubWordFrom(c[1..], name, repl, IsWordChar(c[0]))
  }

  function SubWord(c: string, name: string, repl: string): string
    requires WordEdged(name)
  {
    SubWordFrom(c, name, repl, false)
  }

  /** Text in which every occurrence of the name's first letter is glued to a preceding
      word character has no whole-word match, and is left as it is. */
  lemma {:induction false} GluedUnchanged(c: string, name: string, repl: string, afterWord: bool)
    requires WordEdged(name)
    requires forall p :: 0 <= p < |c| && c[p] == name[0] ==> !BoundaryBefore(c, p, afterWord)
    ensures SubWordFrom(c, name, repl, afterWord) == c
    decreases |c|
  {
    if c != [] {
      assert !WholeWordAt(c, name, 0, afterWord) by {
        if c[0] == name[0] { assert !BoundaryBefore(c, 0, afterWord); }
        else if |name| <= |c| { assert c[0..|name|][0] == c[0]; }
      }
      var t := c[1..];
      forall p | 0 <= p < |t| && t[p] == name[0] ensures !BoundaryBefore(t, p, IsWordChar(c[0])) {
        assert !BoundaryBefore(c, p + 1, afterWord);
      }
      GluedUnchanged(t, name, repl, IsWordChar(c[0]));
      assert c == [c[0]] + t;
    }
  }

  /** Whether `name` matches at the front does not depend on what follows a
      non-word character. */
  lemma MatchBeforeNonWord(a: string, b: string, name: string, afterWord: bool)
    requires WordName(name) && a != [] && !IsWordChar(a[|a| - 1])
    ensures WholeWordAt(a + b, name, 0, afterWord) == WholeWordAt(a, name, 0, afterWord)
    ensures WholeWordAt(a, name, 0, afterWord) ==> |name| < |a| && (a + b)[|name|..] == a[|name|..] + b
  {
    var c := a + b;
    assert c[|a| - 1] == a[|a| - 1];
    if OccursAt(c, name, 0) {
      // The match cannot reach the last, non-word, character of `a`.
      OccursWordChars(c, name, 0);
      assert c[..|name|] == a[..|name|] && c[|name|] == a[|name|];
    }
    if OccursAt(a, name, 0) {
      OccursWordChars(a, name, 0);
      assert c[..|name|] == a[..|name|] && c[|name|] == a[|name|];
      assert c[|name|..] == a[|name|..] + b;
    }
  }

  /** A whole-word match never spans a non-word character, so the text before one may be
      rewritten on its own. */
  lemma {:induction false} SubWordAppend(a: string, b: string, name: string, repl: string, afterWord: bool)
    requires WordName(name) && a != [] && !IsWordChar(a[|a| - 1])
    ensures SubWordFrom(a + b, name, repl, afterWord) == SubWordFrom(a, name, repl, afterWord) + SubWordFrom(b, name, repl, false)
    decreases |a|
  {
    var c := a + b;
    var tail := SubWordFrom(b, name, repl, false);
    MatchBeforeNonWord(a, b, name, afterWord);
    if WholeWordAt(a, name, 0, afterWord) {
      var t := a[|name|..];
      assert c[|name|..] == t + b;
      assert t[|t| - 1] == a[|a| - 1];
      SubWordAppend(t, b, name, repl, true);
      var rest := SubWordFrom(t, name, repl, true);
      assert SubWordFrom(c, name, repl, afterWord) == repl + (rest + tail);
      assert SubWordFrom(a, name, repl, afterWord) == repl + rest;
      AppendAssoc(repl, rest, tail);
    } else if |a| == 1 {
      assert c[0] == a[0] && c[1..] == b;
      assert SubWordFrom(c, name, repl, afterWord) == [a[0]] + tail;
      assert SubWordFrom(a, name, repl, afterWord) == [a[0]] + SubWordFrom(a[1..], name, repl, IsWordChar(a[0]));
      assert a[1..] == [];
    } else {
      var t := a[1..];
      assert c[0] == a[0] && c[1..] == t + b;
      assert t[|t| - 1] == a[|a| - 1];
      SubWordAppend(t, b, name, repl, IsWordChar(a[0]));
      var rest := SubWordFrom(t, name, repl, IsWordChar(a[0]));
      assert SubWordFrom(c, name, repl, afterWord) == [a[0]] + (rest + tail);
      assert SubWordFrom(a, name, repl, afterWord) == [a[0]] + rest;
      AppendAssoc([a[0]], rest, tail);
    }
  }

  /** The name alone is replaced. */
  lemma SubWordWhole(name: string, repl: string, afterWord: bool)
    requires WordName(name) && !afterWord
    ensures SubWordFrom(name, name, repl, afterWord) == repl
  {
    assert WholeWordAt(name, name, 0, afterWord);
    assert name[|name|..] == [];
  }

  /** `re.sub` for each name of a list in turn, each qualified by `prefix`. */
  function SubEach(c: string, names: seq<string>, prefix: string): string
    requires forall k :: 0 <= k < |names| ==> WordEdged(names[k])
    decreases |names|
  {
    if names == [] then c
    else SubEach(SubWord(c, names[0], prefix + names[0]), names[1..], prefix)
  }

  lemma ListsWordEdged()
    ensures forall k :: 0 <= k < |NamespaceNames| ==> WordEdged(NamespaceNames[k])
    ensures forall k :: 0 <= k < |UnitsNames| ==> WordEdged(UnitsNames[k])
    ensures forall k :: 0 <= k < |VariableNames| ==> WordEdged(VariableNames[k])
  {
  }

  /** `add_namespace_to_class`: the namespace list, then the Units list, then the Variable list. */
  function Qualify(content: string): string {
    ListsWordEdged();
    SubEach(SubEach(SubEach(content, NamespaceNames, NamespacePrefix), UnitsNames, UnitsPrefix),
      VariableNames, VariablePrefix)
  }

  /** `Qualify` is the three passes, one list after the other. */
  lemma QualifyIs(c: string, c1: string, c2: string, c3: string)
    requires forall k :: 0 <= k < |NamespaceNames| ==> WordEdged(NamespaceNames[k])
    requires forall k :: 0 <= k < |UnitsNames| ==> WordEdged(UnitsNames[k])
    requires forall k :: 0 <= k < |VariableNames| ==> WordEdged(VariableNames[k])
    requires c1 == SubEach(c, NamespaceNames, NamespacePrefix)
    requires c2 == SubEach(c1, UnitsNames, UnitsPrefix)
    requires c3 == SubEach(c2, VariableNames, VariablePrefix)
    ensures c3 == Qualify(c)
  {
  }

  lemma {:induction false} SubEachSplit(c: string, names: seq<string>, n: nat, prefix: string)
    requires forall k :: 0 <= k < |names| ==> WordEdged(names[k])
    requires n <= |names|
    ensures SubEach(c, names, prefix) == SubEach(SubEach(c, names[..n], prefix), names[n..], prefix)
    decreases n
  {
    if n > 0 {
      SubEachSplit(SubWord(c, names[0], prefix + names[0]), names[1..], n - 1, prefix);
      assert names[1..][..n - 1] == names[..n][1..];
      assert names[1..][n - 1..] == names[n..];
    } else {
      assert names[..0] == [];
    }
  }

  /** Names none of whose first letters begins a word in `c` leave it alone. */
  lemma {:induction false} SubEachGlued(c: string, names: seq<string>, prefix: string)
    requires forall k :: 0 <= k < |names| ==> WordEdged(names[k])
    requires forall k, p :: 0 <= k < |names| && 0 <= p < |c| && names[k] != [] && c[p] == names[k][0] ==> !BoundaryBefore(c, p, false)
    ensures SubEach(c, names, prefix) == c
    decreases |names|
  {
    if names != [] {
      GluedUnchanged(c, names[0], prefix + names[0], false);
      SubEachGlued(c, names[1..], prefix);
    }
  }

  /** A listed name glued to a word, as in `setInterfaceType`, is kept. */
  lemma SetterNameKept()
    ensures SubWord("setInterfaceType", "InterfaceType", VariablePrefix + "InterfaceType") == "setInterfaceType"
  {
    var c := "setInterfaceType";
    assert forall p :: 0 <= p < |c| && c[p] == 'I' ==> p == 3;
    GluedUnchanged(c, "InterfaceType", VariablePrefix + "InterfaceType", false);
  }

  /** The same for an overload discriminator such as `ByStandardUnit`. */
  lemma DiscriminatorKept()
    ensures SubWord("ByStandardUnit", "StandardUnit", UnitsPrefix + "StandardUnit") == "ByStandardUnit"
  {
    var c := "ByStandardUnit";
    assert forall p :: 0 <= p < |c| && c[p] == 'S' ==> p == 2;
    GluedUnchanged(c, "StandardUnit", UnitsPrefix + "StandardUnit", false);
  }

  /** A name after `::` is still a whole word: the pass qualifies a qualified name again,
      so it is not idempotent. */
  lemma QualifiedAgain()
    ensures SubWord("ModelPtr", "ModelPtr", NamespacePrefix + "ModelPtr") == NamespacePrefix + "ModelPtr"
    ensures SubWord(NamespacePrefix + "ModelPtr", "ModelPtr", NamespacePrefix + "ModelPtr")
      == NamespacePrefix + NamespacePrefix + "ModelPtr"
  {
    var name := "ModelPtr";
    var repl := NamespacePrefix + name;
    assert WordName(name);
    SubWordWhole(name, repl, false);
    assert forall p :: 0 <= p < |NamespacePrefix| ==> NamespacePrefix[p] != 'M';
    GluedUnchanged(NamespacePrefix, name, repl, false);
    SubWordAppend(NamespacePrefix, name, name, repl, false);
  }
}
