/**
  * The record side of `libcellml/extract_emscripten_helper.py`: the Doxygen
  * records of one class, already parsed, and the class data the extractor
  * builds from them (enums, an insertion-ordered method map from the qualified
  * method name to its overloads, and warnings).
  */
module EmscriptenExtract {
  import opened Wrappers
  import opened Strings

  /** Briefs that mark special members which should have been made `@private`. */
  const IgnoredBriefPrefixes: seq<string> := ["Move constructor", "Destructor", "Copy constructor", "Assignment operator"]

  const NoBriefWarning: string := "Non standard brief description!!! "
  const PrivateWarning: string := "Function not marked with Doxygen directive @private: "

  datatype Param = Param(paramType: string, name: string)

  /** One `memberdef kind='function'`: the text of its brief `para` (None when it has none),
      its `definition`, `argsstring`, the text of its `type` and its `param`s. */
  datatype FuncRecord = FuncRecord(
    brief: Option<string>,
    definition: string,
    argsString: string,
    returnType: string,
    params: seq<Param>)

  datatype EnumRecord = EnumRecord(name: string, values: seq<string>)

  /** One `compounddef kind='class'`: its compound name, public enums and public functions. */
  datatype ClassRecord = ClassRecord(name: string, enums: seq<EnumRecord>, functions: seq<FuncRecord>)

  /** One overload of a method, as stored in the method map. */
  datatype Signature = Signature(name: string, returnType: string, params: seq<Param>, isConst: bool)

  /** The extracted class: `methods` is a map whose iteration order is `keys`. */
  datatype ClassData = ClassData(
    name: string,
    enums: seq<EnumRecord>,
    keys: seq<string>,
    methods: map<string, seq<Signature>>,
    warnings: seq<string>)

  /** `keys` lists the map's domain once each, and no key is without an overload. */
  ghost predicate OrderedMap(keys: seq<string>, methods: map<string, seq<Signature>>) {
    NoDuplicates(keys) &&
    (forall k :: k in methods <==> k in keys) &&
    (forall k :: k in methods ==> methods[k] != [])
  }

  predicate IgnoredBrief(brief: string) {
    exists t :: t in IgnoredBriefPrefixes && StartsWith(brief, t)
  }

  /** What the extractor does with one function record. */
  datatype Verdict = Warn(message: string) | Keep(key: string, sig: Signature) | Drop

  /** Second `' '`-separated token of a definition such as `void libcellml::Model::setName`. */
  function MethodKey(definition: string): Option<string> {
    var parts := Split(definition, " ");
    if |parts| > 1 then Some(parts[1]) else None
  }

  /** The key is the text after the first space, up to the next space or the end. */
  lemma MethodKeyIsSecondToken(definition: string)
    ensures MethodKey(definition).Some? <==> Find(definition, " ").Some?
    ensures MethodKey(definition).Some? ==>
      var i := Find(definition, " ").value;
      var key := MethodKey(definition).value;
      StartsWith(definition[i + 1..], key) && Find(key, " ").None? &&
      (i + 1 + |key| == |definition| || definition[i + 1 + |key|] == ' ')
  {
    var parts := Split(definition, " ");
    match Find(definition, " ")
    case None =>
    case Some(i) =>
      SplitAtFirst(definition, " ", i);
      SplitPiecesFree(definition, " ");
      assert Find(parts[1], " ").None?;
      var after := parts[1..];
      assert after[0] == parts[1];
      if |after| == 1 {
        assert Join(after, " ") == parts[1];
      } else {
        assert Join(after, " ") == parts[1] + " " + Join(after[1..], " ");
      }
  }

  /** The extraction rules for one record: a missing brief and a special-member brief
      give a warning and no method; a definition without a space is dropped; anything
      else is kept under its second token, const iff the argument string ends in " const". */
  function Judge(f: FuncRecord): (v: Verdict)
    ensures f.brief.None? ==> v == Warn(NoBriefWarning + f.definition)
    ensures f.brief.Some? && IgnoredBrief(f.brief.value) ==> v == Warn(PrivateWarning + f.definition)
    ensures v.Warn? ==> f.brief.None? || IgnoredBrief(f.brief.value)
    ensures v.Drop? <==> f.brief.Some? && !IgnoredBrief(f.brief.value) && Find(f.definition, " ").None?
    ensures v.Keep? ==> Some(v.key) == MethodKey(f.definition) && v.sig.name == v.key
    ensures v.Keep? ==> v.sig.returnType == f.returnType && v.sig.params == f.params
    ensures v.Keep? ==> (v.sig.isConst <==> EndsWith(f.argsString, " const"))
  {
    MethodKeyIsSecondToken(f.definition);
    match f.brief
    case None => Warn(NoBriefWarning + f.definition)
    case Some(d) =>
      if IgnoredBrief(d) then Warn(PrivateWarning + f.definition)
      else
        match MethodKey(f.definition)
        case None => Drop
        case Some(key) => Keep(key, Signature(key, f.returnType, f.params, EndsWith(f.argsString, " const")))
  }

  /** The warnings of the records, in record order. */
  function WarningsOf(fs: seq<FuncRecord>): seq<string> {
    if fs == [] then []
    else
      var v := Judge(fs[|fs| - 1]);
      WarningsOf(fs[..|fs| - 1]) + (if v.Warn? then [v.message] else [])
  }

  /** The keys of the kept records, in record order, with repetitions. */
  function KeysOf(fs: seq<FuncRecord>): seq<string> {
    if fs == [] then []
    else
      var v := Judge(fs[|fs| - 1]);
      KeysOf(fs[..|fs| - 1]) + (if v.Keep? then [v.key] else [])
  }

  /** The signatures of the kept records whose key is `k`, in record order. */
  function SignaturesFor(fs: seq<FuncRecord>, k: string): seq<Signature> {
    if fs == [] then []
    else
      var v := Judge(fs[|fs| - 1]);
      SignaturesFor(fs[..|fs| - 1], k) + (if v.Keep? && v.key == k then [v.sig] else [])
  }

  lemma {:induction false} SignaturesForNonEmpty(fs: seq<FuncRecord>, k: string)
    ensures SignaturesFor(fs, k) != [] <==> k in KeysOf(fs)
    decreases |fs|
  {
    if fs != [] { SignaturesForNonEmpty(fs[..|fs| - 1], k); }
  }

  /** Index of the first occurrence of `k` in `ks`. */
  function FirstIndex(ks: seq<string>, k: string): (r: nat)
    requires k in ks
    ensures r < |ks| && ks[r] == k && forall j :: 0 <= j < r ==> ks[j] != k
  {
    if ks[0] == k then 0 else 1 + FirstIndex(ks[1..], k)
  }

  /** The distinct elements of `ks` in order of first appearance: the key order of a
      Python dict filled by inserting `ks` one after another. */
  function FirstSeen(ks: seq<string>): seq<string> {
    if ks == [] then []
    else
      var init := ks[..|ks| - 1];
      var last := ks[|ks| - 1];
      if last in init then FirstSeen(init) else FirstSeen(init) + [last]
  }

  /** `FirstSeen` holds each key of `ks` exactly once. */
  lemma {:induction false} FirstSeenSpec(ks: seq<string>)
    ensures NoDuplicates(FirstSeen(ks))
    ensures forall k :: k in FirstSeen(ks) <==> k in ks
    decreases |ks|
  {
    if ks != [] {
      var init := ks[..|ks| - 1];
      var last := ks[|ks| - 1];
      FirstSeenSpec(init);
      assert ks == init + [last];
      var prev := FirstSeen(init);
      if last !in init {
        var r := prev + [last];
        forall i, j | 0 <= i < j < |r| ensures r[i] != r[j] {
          assert r[i] == prev[i];
          if j < |prev| { assert r[j] == prev[j]; } else { assert prev[i] in prev; }
        }
      }
    }
  }

  /** `FirstSeen` lists the keys in the order of their first occurrence. */
  lemma {:induction false} FirstSeenOrder(ks: seq<string>)
    ensures forall i, j :: 0 <= i < j < |FirstSeen(ks)| ==>
      FirstSeen(ks)[i] in ks && FirstSeen(ks)[j] in ks && FirstIndex(ks, FirstSeen(ks)[i]) < FirstIndex(ks, FirstSeen(ks)[j])
    decreases |ks|
  {
    if ks != [] {
      var init := ks[..|ks| - 1];
      var last := ks[|ks| - 1];
      var prev := FirstSeen(init);
      var r := FirstSeen(ks);
      FirstSeenOrder(init);
      FirstSeenSpec(init);
      FirstSeenSpec(ks);
      assert ks == init + [last];
      assert ks[..|init|] == init;
      forall i | 0 <= i < |prev| ensures prev[i] in init && FirstIndex(ks, prev[i]) == FirstIndex(init, prev[i]) {
        assert prev[i] in prev;
        FirstIndexPrefix(init, ks, prev[i]);
      }
      if last in init {
        assert r == prev;
        forall i, j | 0 <= i < j < |r| ensures r[i] in ks && r[j] in ks && FirstIndex(ks, r[i]) < FirstIndex(ks, r[j]) {
          assert r[i] in r && r[j] in r;
          assert FirstIndex(init, prev[i]) < FirstIndex(init, prev[j]);
        }
      } else {
        assert r == prev + [last];
        assert FirstIndex(ks, last) == |init|;
        forall i, j | 0 <= i < j < |r| ensures r[i] in ks && r[j] in ks && FirstIndex(ks, r[i]) < FirstIndex(ks, r[j]) {
          assert r[i] in r && r[j] in r;
          assert r[i] == prev[i];
          if j < |prev| {
            assert r[j] == prev[j];
            assert FirstIndex(init, prev[i]) < FirstIndex(init, prev[j]);
          } else {
            assert FirstIndex(init, prev[i]) < |init|;
          }
        }
      }
    } else {
      assert FirstSeen(ks) == [];
    }
  }

  lemma {:induction false} FirstIndexPrefix(init: seq<string>, ks: seq<string>, k: string)
    requires k in init && |init| <= |ks| && ks[..|init|] == init
    ensures k in ks && FirstIndex(ks, k) == FirstIndex(init, k)
    decreases |init|
  {
    assert ks[0] == init[0];
    if init[0] != k {
      assert ks[1..][..|init| - 1] == init[1..];
      FirstIndexPrefix(init[1..], ks[1..], k);
    }
  }

  /** The class data the extractor should produce from a class record. */
  ghost predicate ExtractedFrom(data: ClassData, c: ClassRecord) {
    data.name == c.name &&
    data.enums == c.enums &&
    data.keys == FirstSeen(KeysOf(c.functions)) &&
    (forall k :: k in data.methods <==> k in data.keys) &&
    (forall k :: k in data.methods ==> data.methods[k] == SignaturesFor(c.functions, k)) &&
    data.warnings == WarningsOf(c.functions)
  }

  /** The class data itself: what `ExtractedFrom` describes, as a value. */
  function Extracted(c: ClassRecord): ClassData {
    var keys := FirstSeen(KeysOf(c.functions));
    ClassData(c.name, c.enums, keys, map k | k in keys :: SignaturesFor(c.functions, k), WarningsOf(c.functions))
  }

  /** A class record determines its class data. */
  lemma ExtractedUnique(data: ClassData, c: ClassRecord)
    requires ExtractedFrom(data, c)
    ensures data == Extracted(c)
  {
    assert data.methods == Extracted(c).methods;
  }

  /** Any extracted data is an ordered map with one entry per kept key. */
  lemma ExtractedIsOrderedMap(data: ClassData, c: ClassRecord)
    requires ExtractedFrom(data, c)
    ensures OrderedMap(data.keys, data.methods)
  {
    FirstSeenSpec(KeysOf(c.functions));
    forall k | k in data.methods ensures data.methods[k] != [] {
      SignaturesForNonEmpty(c.functions, k);
    }
  }

  /** How the record-order views grow by one record. */
  lemma ExtendByOne(fs: seq<FuncRecord>, i: nat)
    requires i < |fs|
    ensures var v := Judge(fs[i]);
      && WarningsOf(fs[..i + 1]) == WarningsOf(fs[..i]) + (if v.Warn? then [v.message] else [])
      && KeysOf(fs[..i + 1]) == KeysOf(fs[..i]) + (if v.Keep? then [v.key] else [])
      && forall k :: SignaturesFor(fs[..i + 1], k) ==
           SignaturesFor(fs[..i], k) + (if v.Keep? && v.key == k then [v.sig] else [])
  {
    assert fs[..i + 1][..i] == fs[..i];
  }

  /** Inserting one more key into a dict: an unseen key goes to the end. */
  lemma FirstSeenSnoc(ks: seq<string>, k: string)
    ensures FirstSeen(ks + [k]) == if k in ks then FirstSeen(ks) else FirstSeen(ks) + [k]
  {
    assert (ks + [k])[..|ks|] == ks;
  }

  /** The state of the record loop after the records `fs`. */
  ghost predicate Built(fs: seq<FuncRecord>, keys: seq<string>, methods: map<string, seq<Signature>>, warnings: seq<string>) {
    keys == FirstSeen(KeysOf(fs)) &&
    (forall k :: k in methods <==> k in keys) &&
    (forall k :: k in methods ==> methods[k] == SignaturesFor(fs, k)) &&
    warnings == WarningsOf(fs)
  }

  lemma WarnStep(fs: seq<FuncRecord>, i: nat, keys: seq<string>, methods: map<string, seq<Signature>>, warnings: seq<string>)
    requires i < |fs| && Built(fs[..i], keys, methods, warnings) && Judge(fs[i]).Warn?
    ensures Built(fs[..i + 1], keys, methods, warnings + [Judge(fs[i]).message])
  {
    ExtendByOne(fs, i);
    assert KeysOf(fs[..i + 1]) == KeysOf(fs[..i]);
    forall k ensures SignaturesFor(fs[..i + 1], k) == SignaturesFor(fs[..i], k) {}
  }

  lemma DropStep(fs: seq<FuncRecord>, i: nat, keys: seq<string>, methods: map<string, seq<Signature>>, warnings: seq<string>)
    requires i < |fs| && Built(fs[..i], keys, methods, warnings) && Judge(fs[i]).Drop?
    ensures Built(fs[..i + 1], keys, methods, warnings)
  {
    ExtendByOne(fs, i);
    assert KeysOf(fs[..i + 1]) == KeysOf(fs[..i]);
    assert WarningsOf(fs[..i + 1]) == WarningsOf(fs[..i]);
    forall k ensures SignaturesFor(fs[..i + 1], k) == SignaturesFor(fs[..i], k) {}
  }

  /** What one kept record adds to the three accumulations. */
  ghost predicate KeptOne(before: seq<FuncRecord>, after: seq<FuncRecord>, key: string, sig: Signature) {
    && WarningsOf(after) == WarningsOf(before)
    && KeysOf(after) == KeysOf(before) + [key]
    && SignaturesFor(after, key) == SignaturesFor(before, key) + [sig]
    && forall k | k != key :: SignaturesFor(after, k) == SignaturesFor(before, k)
  }

  lemma ExtendKeep(fs: seq<FuncRecord>, i: nat, key: string, sig: Signature)
    requires i < |fs| && Judge(fs[i]) == Keep(key, sig)
    ensures KeptOne(fs[..i], fs[..i + 1], key, sig)
  {
    ExtendByOne(fs, i);
  }

  /** A kept record whose key is already in the map appends its signature to that key. */
  lemma KeepExisting(before: seq<FuncRecord>, after: seq<FuncRecord>, keys: seq<string>,
                     methods: map<string, seq<Signature>>, warnings: seq<string>, key: string, sig: Signature)
    requires Built(before, keys, methods, warnings) && KeptOne(before, after, key, sig)
    requires key in methods
    ensures Built(after, keys, methods[key := methods[key] + [sig]], warnings)
  {
    FirstSeenSnoc(KeysOf(before), key);
    FirstSeenSpec(KeysOf(before));
    ExistingKeySignatures(before, after, methods, key, sig);
  }

  /** The signatures of a key seen before. */
  lemma ExistingKeySignatures(before: seq<FuncRecord>, after: seq<FuncRecord>, methods: map<string, seq<Signature>>,
                              key: string, sig: Signature)
    requires KeptOne(before, after, key, sig) && key in methods
    requires forall k :: k in methods ==> methods[k] == SignaturesFor(before, k)
    ensures forall k :: k in methods[key := methods[key] + [sig]] ==>
      methods[key := methods[key] + [sig]][k] == SignaturesFor(after, k)
  {
    var m := methods[key := methods[key] + [sig]];
    forall k | k in m ensures m[k] == SignaturesFor(after, k) {
      if k != key {
        assert SignaturesFor(after, k) == SignaturesFor(before, k);
      }
    }
  }

  /** The signatures of a key seen for the first time. */
  lemma NewKeySignatures(before: seq<FuncRecord>, after: seq<FuncRecord>, methods: map<string, seq<Signature>>,
                         key: string, sig: Signature)
    requires KeptOne(before, after, key, sig) && key !in KeysOf(before)
    requires forall k :: k in methods ==> methods[k] == SignaturesFor(before, k)
    ensures forall k :: k in methods[key := [sig]] ==> methods[key := [sig]][k] == SignaturesFor(after, k)
  {
    SignaturesForNonEmpty(before, key);
    var m := methods[key := [sig]];
    forall k | k in m ensures m[k] == SignaturesFor(after, k) {
      if k != key {
        assert SignaturesFor(after, k) == SignaturesFor(before, k);
      }
    }
  }

  /** A kept record with a new key adds the key at the end, with one signature. */
  lemma KeepNew(before: seq<FuncRecord>, after: seq<FuncRecord>, keys: seq<string>,
                methods: map<string, seq<Signature>>, warnings: seq<string>, key: string, sig: Signature)
    requires Built(before, keys, methods, warnings) && KeptOne(before, after, key, sig)
    requires key !in methods
    ensures Built(after, keys + [key], methods[key := [sig]], warnings)
  {
    FirstSeenSnoc(KeysOf(before), key);
    FirstSeenSpec(KeysOf(before));
    NewKeySignatures(before, after, methods, key, sig);
  }

  /** One pass of the record loop: the record `fs[i]` is warned about, kept under its key, or dropped. */
  method ExtractStep(fs: seq<FuncRecord>, i: nat, keys: seq<string>, methods: map<string, seq<Signature>>,
                     warnings: seq<string>)
    returns (keys': seq<string>, methods': map<string, seq<Signature>>, warnings': seq<string>)
    requires i < |fs| && Built(fs[..i], keys, methods, warnings)
    ensures Built(fs[..i + 1], keys', methods', warnings')
  {
    keys', methods', warnings' := keys, methods, warnings;
    var f := fs[i];
    if f.brief.None? {
      WarnStep(fs, i, keys, methods, warnings);
      warnings' := warnings + [NoBriefWarning + f.definition];
    } else if IgnoredBrief(f.brief.value) {
      WarnStep(fs, i, keys, methods, warnings);
      warnings' := warnings + [PrivateWarning + f.definition];
    } else {
      var parts := Split(f.definition, " ");
      if |parts| > 1 {
        var key := parts[1];
        var sig := Signature(key, f.returnType, f.params, EndsWith(f.argsString, " const"));
        ExtendKeep(fs, i, key, sig);
        if key in methods {
          KeepExisting(fs[..i], fs[..i + 1], keys, methods, warnings, key, sig);
          methods' := methods[key := methods[key] + [sig]];
        } else {
          KeepNew(fs[..i], fs[..i + 1], keys, methods, warnings, key, sig);
          keys' := keys + [key];
          methods' := methods[key := [sig]];
        }
      } else {
        DropStep(fs, i, keys, methods, warnings);
      }
    }
  }

  /** The record loop of `print_out_near_emscripten_format`. */
  method Extract(c: ClassRecord) returns (data: ClassData)
    ensures ExtractedFrom(data, c) && OrderedMap(data.keys, data.methods)
    ensures data == Extracted(c)
  {
    var fs := c.functions;
    var keys: seq<string> := [];
    var methods: map<string, seq<Signature>> := map[];
    var warnings: seq<string> := [];
    var i := 0;
    while i < |fs|
      invariant 0 <= i <= |fs|
      invariant Built(fs[..i], keys, methods, warnings)
    {
      keys, methods, warnings := ExtractStep(fs, i, keys, methods, warnings);
      i := i + 1;
    }
    assert fs[..|fs|] == fs;
    data := ClassData(c.name, c.enums, keys, methods, warnings);
    ExtractedIsOrderedMap(data, c);
    ExtractedUnique(data, c);
  }
}
