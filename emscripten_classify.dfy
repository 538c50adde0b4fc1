/**
  * The naming heuristics of `libcellml/extract_emscripten_helper.py`: the base
  * name that relates a setter to its getter, and the accessor pairs of a class.
  */
module EmscriptenClassify {
  import opened Strings

  /** `key.split('::').pop()`: the unqualified method name. */
  function LastName(key: string): string {
    LastPieceFrom(key, "::", "")
  }

  /** The unqualified name is the last piece of the split on `::`. */
  lemma LastNameIsLastPiece(key: string)
    ensures LastName(key) == Split(key, "::")[|Split(key, "::")| - 1]
  {
    LastPieceOfSplit(key, "::");
  }

  /** `full_class_name.split('::').pop()`: the class name without its namespace. */
  function ClassName(fullName: string): string {
    LastName(fullName)
  }

  /** `convert_to_base_method_name`: `setName` gives `name`, other names are kept.
      Python raises IndexError on exactly "set", hence the precondition. */
  function BaseName(name: string): (r: string)
    requires name != "set"
    ensures !StartsWith(name, "set") ==> r == name
    ensures StartsWith(name, "set") ==> |name| >= 4 && |r| == |name| - 3 && r[0] == LowerChar(name[3]) && r[1..] == name[4..]
  {
    if StartsWith(name, "set") then [LowerChar(name[3])] + name[4..] else name
  }

  /** The setter the pair test calls for a base name: `set{b[0].upper()}{b[1:]}`. */
  function SetterName(base: string): string
    requires base != ""
  {
    "set" + Capitalize(base)
  }

  /** A base name that does not start with a capital is recovered from its setter. */
  lemma SetterRoundTrip(base: string)
    requires base != "" && !IsUpper(base[0])
    ensures BaseName(SetterName(base)) == base
  {
    var s := SetterName(base);
    assert StartsWith(s, "set") && s[3] == UpperChar(base[0]) && s[4..] == base[1..];
    assert LowerChar(UpperChar(base[0])) == base[0];
    assert base == [base[0]] + base[1..];
  }

  /** Every key's method name can be given to BaseName. */
  predicate NamesOk(keys: seq<string>) {
    forall k :: k in keys ==> LastName(k) != "set"
  }

  function BaseOf(key: string): string
    requires LastName(key) != "set"
  {
    BaseName(LastName(key))
  }

  /** Number of keys (not overloads) whose method has base name `b`. */
  function CountBase(keys: seq<string>, b: string): nat
    requires NamesOk(keys)
  {
    if keys == [] then 0
    else CountBase(keys[..|keys| - 1], b) + (if BaseOf(keys[|keys| - 1]) == b then 1 else 0)
  }

  /** `determine_set_get_pairs`: the base names shared by exactly two keys, each mapped to 2. */
  method DeterminePairs(keys: seq<string>) returns (pairs: map<string, nat>)
    requires NamesOk(keys)
    ensures forall b :: b in pairs <==> CountBase(keys, b) == 2
    ensures forall b :: b in pairs ==> pairs[b] == 2
  {
    var counts: map<string, nat> := map[];
    var i := 0;
    while i < |keys|
      invariant 0 <= i <= |keys|
      invariant forall b :: b in counts <==> CountBase(keys[..i], b) > 0
      invariant forall b :: b in counts ==> counts[b] == CountBase(keys[..i], b)
    {
      assert keys[..i + 1][..i] == keys[..i];
      var name := LastName(keys[i]);
      var base := BaseName(name);
      if base in counts {
        counts := counts[base := counts[base] + 1];
      } else {
        counts := counts[base := 1];
      }
      i := i + 1;
    }
    assert keys[..|keys|] == keys;
    pairs := map b | b in counts && counts[b] == 2 :: counts[b];
  }
}
