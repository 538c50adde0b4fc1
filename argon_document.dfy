/**
  * `opencmiss/generate_argon_document.py`: the directories of a data set are searched for
  * `.EXNODE` and `.EXELEM` files, and an Argon document's region tree is built from them.
  * Each directory with node files gives a record; the record's path (its first node
  * file without the common path) is walked component by component from the root region,
  * reusing or creating child regions; the region reached gets a fresh surface scene,
  * the record's files as model sources, and a material chosen from the path.
  */
module Argon {
  import opened Wrappers
  import opened Strings

  const NodeSuffix: string := ".EXNODE"
  const ElemSuffix: string := ".EXELEM"
  const SkipRegions: seq<string> := ["maxilla"]
  const DefaultMaterial: string := "black"

  /** One step of `os.walk`: a directory and the names of its files. */
  datatype Directory = Directory(root: string, files: seq<string>)

  /** `{'node_files': ..., 'elem_files': ...}`. */
  datatype Record = Record(nodeFiles: seq<string>, elemFiles: seq<string>)

  /** A region's `Scene`: the empty one of a new region (no graphics), or the single
      surface graphics of `SCENE_GRAPHICS` with its material. */
  datatype Scene = EmptyScene | Graphics(material: string)

  /** A model source; its `Type` is always `FILE`. */
  datatype Source = Source(fileName: string, regionName: string)

  /** A region of the tree; `children` are indices into the tree's list of regions and
      `model` is the `Model` entry's `Sources`, absent until the first source. */
  datatype Region = Region(name: string, children: seq<nat>, scene: Scene, model: Option<seq<Source>>)

  // ---------------------------------------------------------------------------
  // Finding the data files

  /** `os.path.join(root, file)`. */
  function PathJoin(root: string, file: string): string {
    if StartsWith(file, "/") then file
    else if root == "" || EndsWith(root, "/") then root + file
    else root + "/" + file
  }

  lemma EndsWithAppend(x: string, file: string, suffix: string)
    requires EndsWith(file, suffix)
    ensures EndsWith(x + file, suffix)
  {
    assert (x + file)[|x + file| - |suffix|..] == file[|file| - |suffix|..];
  }

  /** A joined path keeps the file's suffix. */
  lemma PathJoinSuffix(root: string, file: string, suffix: string)
    requires EndsWith(file, suffix)
    ensures EndsWith(PathJoin(root, file), suffix)
  {
    if !StartsWith(file, "/") {
      if root == "" || EndsWith(root, "/") {
        EndsWithAppend(root, file, suffix);
      } else {
        EndsWithAppend(root + "/", file, suffix);
      }
    }
  }

  /** The paths of the files of `root` whose names end in `suffix`, in order. */
  function Filter(root: string, files: seq<string>, suffix: string): seq<string> {
    if files == [] then []
    else
      var f := files[|files| - 1];
      Filter(root, files[..|files| - 1], suffix) + (if EndsWith(f, suffix) then [PathJoin(root, f)] else [])
  }

  /** The filter keeps exactly the files with the suffix, case included. */
  lemma {:induction false} FilterSpec(root: string, files: seq<string>, suffix: string, x: string)
    ensures x in Filter(root, files, suffix) <==> exists f :: f in files && EndsWith(f, suffix) && x == PathJoin(root, f)
    ensures x in Filter(root, files, suffix) ==> EndsWith(x, suffix)
    decreases |files|
  {
    if files != [] {
      var init := files[..|files| - 1];
      var f := files[|files| - 1];
      FilterSpec(root, init, suffix, x);
      assert files == init + [f];
      if EndsWith(f, suffix) {
        PathJoinSuffix(root, f, suffix);
      }
      if exists g :: g in files && EndsWith(g, suffix) && x == PathJoin(root, g) {
        var g :| g in files && EndsWith(g, suffix) && x == PathJoin(root, g);
        if g != f {
          assert g in init;
        }
      }
    }
  }

  /** The records `main` collects from the walk: one per directory with a node file. */
  function DataFiles(walk: seq<Directory>): seq<Record> {
    if walk == [] then []
    else
      var d := walk[|walk| - 1];
      var nodes := Filter(d.root, d.files, NodeSuffix);
      DataFiles(walk[..|walk| - 1]) + (if nodes != [] then [Record(nodes, Filter(d.root, d.files, ElemSuffix))] else [])
  }

  /** A record as the walk gives it: some node files, and every file with its suffix. */
  predicate WellFormed(r: Record) {
    r.nodeFiles != [] &&
    (forall x :: x in r.nodeFiles ==> EndsWith(x, NodeSuffix)) &&
    (forall x :: x in r.elemFiles ==> EndsWith(x, ElemSuffix))
  }

  lemma {:induction false} DataFilesWellFormed(walk: seq<Directory>)
    ensures forall r :: r in DataFiles(walk) ==> WellFormed(r)
    decreases |walk|
  {
    if walk != [] {
      var d := walk[|walk| - 1];
      DataFilesWellFormed(walk[..|walk| - 1]);
      forall x | x in Filter(d.root, d.files, NodeSuffix) ensures EndsWith(x, NodeSuffix) {
        FilterSpec(d.root, d.files, NodeSuffix, x);
      }
      forall x | x in Filter(d.root, d.files, ElemSuffix) ensures EndsWith(x, ElemSuffix) {
        FilterSpec(d.root, d.files, ElemSuffix, x);
      }
    }
  }

  lemma {:induction false} DataFilesAppend(a: seq<Directory>, b: seq<Directory>)
    ensures DataFiles(a + b) == DataFiles(a) + DataFiles(b)
    decreases |b|
  {
    if b == [] {
      assert a + b == a;
    } else {
      var init := b[..|b| - 1];
      assert (a + b)[..|a + b| - 1] == a + init;
      assert (a + b)[|a + b| - 1] == b[|b| - 1];
      DataFilesAppend(a, init);
    }
  }

  /** A directory without a node file gives no record, wherever it stands in the walk. */
  lemma NoNodeFileNoRecord(a: seq<Directory>, d: Directory, b: seq<Directory>)
    requires forall f :: f in d.files ==> !EndsWith(f, NodeSuffix)
    ensures DataFiles(a + [d] + b) == DataFiles(a + b)
  {
    var nodes := Filter(d.root, d.files, NodeSuffix);
    if nodes != [] {
      FilterSpec(d.root, d.files, NodeSuffix, nodes[0]);
      assert false;
    }
    DataFilesAppend(a + [d], b);
    DataFilesAppend(a, [d]);
    DataFilesAppend(a, b);
    assert [d][..0] == [];
  }

  /** One more directory of the walk adds its record, if it has one. */
  lemma DataFilesSnoc(walk: seq<Directory>, i: nat)
    requires i < |walk|
    ensures DataFiles(walk[..i + 1]) == DataFiles(walk[..i]) +
      (if Filter(walk[i].root, walk[i].files, NodeSuffix) != []
       then [Record(Filter(walk[i].root, walk[i].files, NodeSuffix), Filter(walk[i].root, walk[i].files, ElemSuffix))]
       else [])
  {
    assert walk[..i + 1][..i] == walk[..i];
  }

  /** The loop over one directory's files. */
  method ClassifyFiles(d: Directory) returns (nodes: seq<string>, elems: seq<string>)
    ensures nodes == Filter(d.root, d.files, NodeSuffix)
    ensures elems == Filter(d.root, d.files, ElemSuffix)
  {
    nodes := [];
    elems := [];
    for i := 0 to |d.files|
      invariant nodes == Filter(d.root, d.files[..i], NodeSuffix)
      invariant elems == Filter(d.root, d.files[..i], ElemSuffix)
    {
      TakeSnoc(d.files, i);
      var file := d.files[i];
      if EndsWith(file, NodeSuffix) {
        nodes := nodes + [PathJoin(d.root, file)];
      }
      if EndsWith(file, ElemSuffix) {
        elems := elems + [PathJoin(d.root, file)];
      }
    }
    assert d.files[..|d.files|] == d.files;
  }

  /** The loop over the walk that fills `data_files`. */
  method ClassifyDirectories(walk: seq<Directory>) returns (dataFiles: seq<Record>)
    ensures dataFiles == DataFiles(walk)
  {
    dataFiles := [];
    for i := 0 to |walk|
      invariant dataFiles == DataFiles(walk[..i])
    {
      var nodes, elems := ClassifyFiles(walk[i]);
      DataFilesSnoc(walk, i);
      if |nodes| > 0 {
        dataFiles := dataFiles + [Record(nodes, elems)];
      }
    }
    assert walk[..|walk|] == walk;
  }

  // ---------------------------------------------------------------------------
  // Paths and materials

  function StripTrailingSlashes(h: string): string {
    if h != [] && h[|h| - 1] == '/' then StripTrailingSlashes(h[..|h| - 1]) else h
  }

  predicate AllSlashes(h: string) {
    forall k :: 0 <= k < |h| ==> h[k] == '/'
  }

  /** `os.path.dirname`: up to the last `/`, without trailing slashes unless there is
      nothing else. */
  function Dirname(p: string): string {
    match LastIndexOf(p, '/')
    case None => ""
    case Some(k) =>
      var head := p[..k + 1];
      if AllSlashes(head) then head else StripTrailingSlashes(head)
  }

  /** The directory of a path with a single slash before its last component is the text
      before that slash. */
  lemma DirnameOfPath(p: string, k: nat)
    requires LastIndexOf(p, '/') == Some(k) && k > 0 && p[k - 1] != '/'
    ensures Dirname(p) == p[..k]
  {
    var head := p[..k + 1];
    assert head[k - 1] != '/';
    assert head[|head| - 1] == '/';
    assert head[..k] == p[..k];
    assert StripTrailingSlashes(head) == StripTrailingSlashes(p[..k]);
  }

  /** The material the checks in `main` leave: later checks win, so `SKIN` comes before
      `LIGAMENT`, `LIGAMENT` before `BONE`, and `BONE` before `MUSCLES` and `NECK`. */
  function Material(regionPath: string): string {
    if Contains(regionPath, "SKIN") then "brown"
    else if Contains(regionPath, "LIGAMENT") then "white"
    else if Contains(regionPath, "BONE") then "bone"
    else if Contains(regionPath, "MUSCLES") || Contains(regionPath, "NECK") then "muscle"
    else DefaultMaterial
  }

  /** The four checks in their order, each overwriting the material. */
  method ChooseMaterial(regionPath: string) returns (material: string)
    ensures material == Material(regionPath)
  {
    material := DefaultMaterial;
    if Contains(regionPath, "MUSCLES") || Contains(regionPath, "NECK") {
      material := "muscle";
    }
    if Contains(regionPath, "BONE") {
      material := "bone";
    }
    if Contains(regionPath, "LIGAMENT") {
      material := "white";
    }
    if Contains(regionPath, "SKIN") {
      material := "brown";
    }
  }

  // ---------------------------------------------------------------------------
  // The region tree

  function NameOf(rs: seq<Region>, c: nat): string {
    if c < |rs| then rs[c].name else ""
  }

  /** `child_region_names`: the names of the regions `cs`, in order. */
  function Names(rs: seq<Region>, cs: seq<nat>): (r: seq<string>)
    ensures |r| == |cs| && forall k :: 0 <= k < |cs| ==> r[k] == NameOf(rs, cs[k])
  {
    seq(|cs|, k requires 0 <= k < |cs| => NameOf(rs, cs[k]))
  }

  /** `s.index(x)`, or `None` where it would raise. */
  function IndexOf(s: seq<string>, x: string): (r: Option<nat>)
    ensures r.Some? ==> r.value < |s| && s[r.value] == x && forall i :: 0 <= i < r.value ==> s[i] != x
    ensures r.None? ==> x !in s
  {
    if s == [] then None
    else if s[0] == x then Some(0)
    else
      match IndexOf(s[1..], x)
      case None => None
      case Some(i) => Some(i + 1)
  }

  /** A name added at the end of a list without it is found there. */
  lemma IndexOfSnoc(s: seq<string>, x: string)
    requires x !in s
    ensures IndexOf(s + [x], x) == Some(|s|)
  {
    var r := IndexOf(s + [x], x);
    assert (s + [x])[|s|] == x;
  }

  lemma NoDuplicatesSnoc(s: seq<string>, x: string)
    requires NoDuplicates(s) && x !in s
    ensures NoDuplicates(s + [x])
  {
    var t := s + [x];
    forall i, j | 0 <= i < j < |t| ensures t[i] != t[j] {
      assert t[i] == s[i];
      if j < |s| {
        assert t[j] == s[j];
      }
    }
  }

  /** The child of region `r` named `name`. */
  function ChildNamed(rs: seq<Region>, r: nat, name: string): Option<nat>
    requires r < |rs|
  {
    match IndexOf(Names(rs, rs[r].children), name)
    case None => None
    case Some(j) => Some(rs[r].children[j])
  }

  ghost predicate ChildrenAfter(rs: seq<Region>) {
    forall r, k :: 0 <= r < |rs| && 0 <= k < |rs[r].children| ==> r < rs[r].children[k] < |rs|
  }

  ghost predicate SiblingsDistinct(rs: seq<Region>) {
    forall r :: 0 <= r < |rs| ==> NoDuplicates(Names(rs, rs[r].children))
  }

  /** Region 0 is the root; a child comes after its parent; siblings have distinct names. */
  ghost predicate ValidArena(rs: seq<Region>) {
    |rs| > 0 && ChildrenAfter(rs) && SiblingsDistinct(rs)
  }

  /** The region reached from `from` by following the children named by `path`. */
  ghost function Reach(rs: seq<Region>, from: nat, path: seq<string>): (r: Option<nat>)
    requires ValidArena(rs) && from < |rs|
    ensures r.Some? ==> r.value < |rs|
    decreases |path|
  {
    if path == [] then Some(from)
    else
      match ChildNamed(rs, from, path[0])
      case None => None
      case Some(c) => Reach(rs, c, path[1..])
  }

  function NewRegion(name: string): Region {
    Region(name, [], EmptyScene, None)
  }

  /** The tree after appending a fresh child named `name` to `parent`. */
  function Grow(rs: seq<Region>, parent: nat, name: string): seq<Region>
    requires parent < |rs|
  {
    rs[parent := rs[parent].(children := rs[parent].children + [|rs|])] + [NewRegion(name)]
  }

  lemma GrowShape(rs: seq<Region>, parent: nat, name: string)
    requires parent < |rs|
    ensures |Grow(rs, parent, name)| == |rs| + 1
    ensures Grow(rs, parent, name)[|rs|] == NewRegion(name)
    ensures Grow(rs, parent, name)[parent].children == rs[parent].children + [|rs|]
    ensures forall c :: 0 <= c < |rs| ==>
      Grow(rs, parent, name)[c] == (if c == parent then rs[c].(children := rs[c].children + [|rs|]) else rs[c])
  {
  }

  /** Names of old regions do not change as the tree grows. */
  lemma GrowNamesKept(rs: seq<Region>, parent: nat, name: string, cs: seq<nat>)
    requires parent < |rs|
    requires forall k :: 0 <= k < |cs| ==> cs[k] < |rs|
    ensures Names(Grow(rs, parent, name), cs) == Names(rs, cs)
  {
    GrowShape(rs, parent, name);
    var a := Names(Grow(rs, parent, name), cs);
    var b := Names(rs, cs);
    forall k | 0 <= k < |cs| ensures a[k] == b[k] {
      assert Grow(rs, parent, name)[cs[k]].name == rs[cs[k]].name;
    }
    assert a == b;
  }

  /** The parent's list of names gains the new name at its end. */
  lemma GrowParentNames(rs: seq<Region>, parent: nat, name: string)
    requires ValidArena(rs) && parent < |rs|
    ensures Names(Grow(rs, parent, name), Grow(rs, parent, name)[parent].children)
      == Names(rs, rs[parent].children) + [name]
  {
    var rs' := Grow(rs, parent, name);
    var cs := rs[parent].children;
    GrowShape(rs, parent, name);
    GrowNamesKept(rs, parent, name, cs);
    var a := Names(rs', cs + [|rs|]);
    var b := Names(rs, cs) + [name];
    forall k | 0 <= k < |a| ensures a[k] == b[k] {
      if k < |cs| {
        assert (cs + [|rs|])[k] == cs[k];
        assert a[k] == Names(rs', cs)[k];
      }
    }
    assert a == b;
  }

  /** Growing keeps the tree valid, and the new region is the child found by its name. */
  lemma GrowValid(rs: seq<Region>, parent: nat, name: string)
    requires ValidArena(rs) && parent < |rs| && name !in Names(rs, rs[parent].children)
    ensures ValidArena(Grow(rs, parent, name))
    ensures Names(Grow(rs, parent, name), Grow(rs, parent, name)[parent].children)
      == Names(rs, rs[parent].children) + [name]
    ensures ChildNamed(Grow(rs, parent, name), parent, name) == Some(|rs|)
  {
    var rs' := Grow(rs, parent, name);
    var cs := rs[parent].children;
    GrowShape(rs, parent, name);
    GrowParentNames(rs, parent, name);
    forall r, k | 0 <= r < |rs'| && 0 <= k < |rs'[r].children| ensures r < rs'[r].children[k] < |rs'| {
      if r == parent && k < |cs| {
        assert rs'[r].children[k] == cs[k];
      } else if r != parent && r < |rs| {
        assert rs'[r] == rs[r];
      }
    }
    forall r | 0 <= r < |rs'| ensures NoDuplicates(Names(rs', rs'[r].children)) {
      if r == parent {
        NoDuplicatesSnoc(Names(rs, cs), name);
      } else if r < |rs| {
        assert rs'[r] == rs[r];
        GrowNamesKept(rs, parent, name, rs[r].children);
      }
    }
    IndexOfSnoc(Names(rs, cs), name);
  }

  /** Regions keep their name, scene and sources; the regions added are new and empty. */
  ghost predicate KeepsContents(before: seq<Region>, after: seq<Region>) {
    |before| <= |after| &&
    (forall i :: 0 <= i < |before| ==>
      after[i].name == before[i].name && after[i].scene == before[i].scene && after[i].model == before[i].model) &&
    (forall i :: |before| <= i < |after| ==> after[i].scene == EmptyScene && after[i].model == None)
  }

  /** The tree with region `i` given a scene and sources. */
  function Decorate(rs: seq<Region>, i: nat, scene: Scene, model: Option<seq<Source>>): seq<Region>
    requires i < |rs|
  {
    rs[i := rs[i].(scene := scene, model := model)]
  }

  /** Decorating a region twice keeps only the second decoration. */
  lemma DecorateTwice(rs: seq<Region>, i: nat, scene: Scene, model: Option<seq<Source>>,
                      scene': Scene, model': Option<seq<Source>>)
    requires i < |rs|
    ensures Decorate(Decorate(rs, i, scene, model), i, scene', model') == Decorate(rs, i, scene', model')
  {
  }

  lemma DecorateNames(rs: seq<Region>, i: nat, scene: Scene, model: Option<seq<Source>>, cs: seq<nat>)
    requires i < |rs|
    ensures Names(Decorate(rs, i, scene, model), cs) == Names(rs, cs)
  {
    var a := Names(Decorate(rs, i, scene, model), cs);
    var b := Names(rs, cs);
    forall k | 0 <= k < |cs| ensures a[k] == b[k] {
    }
    assert a == b;
  }

  lemma {:induction false} DecorateReach(rs: seq<Region>, i: nat, scene: Scene, model: Option<seq<Source>>, from: nat, path: seq<string>)
    requires ValidArena(rs) && i < |rs| && from < |rs|
    ensures ValidArena(Decorate(rs, i, scene, model))
    ensures Reach(Decorate(rs, i, scene, model), from, path) == Reach(rs, from, path)
    decreases |path|
  {
    var rs' := Decorate(rs, i, scene, model);
    forall r | 0 <= r < |rs'| ensures Names(rs', rs'[r].children) == Names(rs, rs[r].children) {
      DecorateNames(rs, i, scene, model, rs[r].children);
    }
    assert ValidArena(rs');
    if path != [] {
      DecorateNames(rs, i, scene, model, rs[from].children);
      match ChildNamed(rs, from, path[0])
      case None =>
      case Some(c) => DecorateReach(rs, i, scene, model, c, path[1..]);
    }
  }

  /** The tree only grew from `before` to `after`: every region keeps its name, and its
      list of children is a prefix of its new one. */
  ghost predicate Extends(before: seq<Region>, after: seq<Region>) {
    |before| <= |after| &&
    forall i :: 0 <= i < |before| ==> after[i].name == before[i].name && before[i].children <= after[i].children
  }

  lemma ExtendsTransitive(a: seq<Region>, b: seq<Region>, c: seq<Region>)
    requires Extends(a, b) && Extends(b, c)
    ensures Extends(a, c)
  {
    forall i | 0 <= i < |a| ensures a[i].children <= c[i].children {
      assert a[i].children == b[i].children[..|a[i].children|];
    }
  }

  lemma GrowExtends(rs: seq<Region>, parent: nat, name: string)
    requires parent < |rs|
    ensures Extends(rs, Grow(rs, parent, name))
  {
    GrowShape(rs, parent, name);
  }

  /** `s.index(m)` does not change when names are added after the first `m`. */
  lemma IndexOfAppendKept(s: seq<string>, t: seq<string>, m: string)
    requires m in s
    ensures IndexOf(s + t, m) == IndexOf(s, m)
  {
    var j := IndexOf(s, m).value;
    assert (s + t)[j] == m;
  }

  lemma NamesAppend(rs: seq<Region>, a: seq<nat>, b: seq<nat>)
    ensures Names(rs, a + b) == Names(rs, a) + Names(rs, b)
  {
    var x := Names(rs, a + b);
    var y := Names(rs, a) + Names(rs, b);
    forall k | 0 <= k < |x| ensures x[k] == y[k] {
      if k < |a| {
        assert (a + b)[k] == a[k];
      } else {
        assert (a + b)[k] == b[k - |a|];
      }
    }
    assert x == y;
  }

  lemma ExtendsNames(before: seq<Region>, after: seq<Region>, cs: seq<nat>)
    requires Extends(before, after)
    requires forall k :: 0 <= k < |cs| ==> cs[k] < |before|
    ensures Names(after, cs) == Names(before, cs)
  {
    var x := Names(after, cs);
    var y := Names(before, cs);
    forall k | 0 <= k < |cs| ensures x[k] == y[k] {
      assert after[cs[k]].name == before[cs[k]].name;
    }
    assert x == y;
  }

  /** A child found before is still the child found once the tree has grown. */
  lemma ExtendsKeepsChild(before: seq<Region>, after: seq<Region>, r: nat, m: string)
    requires ValidArena(before) && Extends(before, after) && r < |before|
    requires ChildNamed(before, r, m).Some?
    ensures ChildNamed(after, r, m) == ChildNamed(before, r, m)
  {
    var cs := before[r].children;
    var all := after[r].children;
    var extra := all[|cs|..];
    assert all == cs + extra;
    NamesAppend(after, cs, extra);
    ExtendsNames(before, after, cs);
    IndexOfAppendKept(Names(before, cs), Names(after, extra), m);
    var j := IndexOf(Names(before, cs), m).value;
    assert all[j] == cs[j];
  }

  /** A path that led somewhere still leads to the same region once the tree has grown. */
  lemma {:induction false} ExtendsKeepsReach(before: seq<Region>, after: seq<Region>, from: nat, path: seq<string>)
    requires ValidArena(before) && ValidArena(after) && Extends(before, after)
    requires from < |before| && Reach(before, from, path).Some?
    ensures Reach(after, from, path) == Reach(before, from, path)
    decreases |path|
  {
    if path != [] {
      ExtendsKeepsChild(before, after, from, path[0]);
      var c := ChildNamed(before, from, path[0]).value;
      ExtendsKeepsReach(before, after, c, path[1..]);
    }
  }

  /** One step of the walk down (the body of the loop over `region_parts`): the tree
      and the child of `parent` named `name`, appended first when there is none. */
  function FindOrCreate(rs: seq<Region>, parent: nat, name: string): (r: (seq<Region>, nat))
    requires ValidArena(rs) && parent < |rs|
    ensures ValidArena(r.0) && |rs| <= |r.0| && r.1 < |r.0|
    ensures ChildNamed(r.0, parent, name) == Some(r.1)
  {
    match ChildNamed(rs, parent, name)
    case Some(c) => (rs, c)
    case None => GrowValid(rs, parent, name); (Grow(rs, parent, name), |rs|)
  }

  /** The walk down `names` from `base`: the tree it leaves and the region it reaches. */
  function DescendFrom(rs: seq<Region>, base: nat, names: seq<string>): (r: (seq<Region>, nat))
    requires ValidArena(rs) && base < |rs|
    ensures ValidArena(r.0) && |rs| <= |r.0| && r.1 < |r.0|
    decreases |names|
  {
    if names == [] then (rs, base)
    else
      var step := FindOrCreate(rs, base, names[0]);
      DescendFrom(step.0, step.1, names[1..])
  }

  /** The walk only adds fresh, empty regions below existing ones. */
  lemma {:induction false} DescendExtends(rs: seq<Region>, base: nat, names: seq<string>)
    requires ValidArena(rs) && base < |rs|
    ensures Extends(rs, DescendFrom(rs, base, names).0)
    ensures KeepsContents(rs, DescendFrom(rs, base, names).0)
    decreases |names|
  {
    if names != [] {
      var step := FindOrCreate(rs, base, names[0]);
      if ChildNamed(rs, base, names[0]).None? {
        GrowExtends(rs, base, names[0]);
        GrowShape(rs, base, names[0]);
      }
      DescendExtends(step.0, step.1, names[1..]);
      ExtendsTransitive(rs, step.0, DescendFrom(rs, base, names).0);
    }
  }

  /** The region the walk reaches is the one `names` leads to from `base` in the tree it
      leaves. */
  lemma {:induction false} DescendReaches(rs: seq<Region>, base: nat, names: seq<string>)
    requires ValidArena(rs) && base < |rs|
    ensures Reach(DescendFrom(rs, base, names).0, base, names) == Some(DescendFrom(rs, base, names).1)
    decreases |names|
  {
    if names != [] {
      var step := FindOrCreate(rs, base, names[0]);
      var r := DescendFrom(rs, base, names);
      DescendReaches(step.0, step.1, names[1..]);
      DescendExtends(step.0, step.1, names[1..]);
      ExtendsKeepsChild(step.0, r.0, base, names[0]);
    }
  }

  /** Each part lower-cased, as the walk down the tree uses them. */
  function LowerAll(parts: seq<string>): (r: seq<string>)
    ensures |r| == |parts| && forall k :: 0 <= k < |parts| ==> r[k] == Lower(parts[k])
  {
    seq(|parts|, k requires 0 <= k < |parts| => Lower(parts[k]))
  }

  function Reversed<T>(s: seq<T>): (r: seq<T>)
    ensures |r| == |s|
  {
    if s == [] then [] else [s[|s| - 1]] + Reversed(s[..|s| - 1])
  }

  lemma {:induction false} ReversedElements<T>(s: seq<T>)
    ensures forall k :: 0 <= k < |s| ==> Reversed(s)[k] == s[|s| - 1 - k]
    decreases |s|
  {
    if s != [] {
      ReversedElements(s[..|s| - 1]);
    }
  }

  /** The sources of `files`, in order, all with the same region name. */
  function SourcesOf(files: seq<string>, regionName: string): seq<Source> {
    if files == [] then [] else SourcesOf(files[..|files| - 1], regionName) + [Source(files[|files| - 1], regionName)]
  }

  predicate IsNodeSource(s: Source) {
    EndsWith(s.fileName, NodeSuffix)
  }

  predicate IsElemSource(s: Source) {
    EndsWith(s.fileName, ElemSuffix)
  }

  predicate AllNodes(srcs: seq<Source>) {
    forall k :: 0 <= k < |srcs| ==> IsNodeSource(srcs[k])
  }

  predicate AllElems(srcs: seq<Source>) {
    forall k :: 0 <= k < |srcs| ==> IsElemSource(srcs[k])
  }

  /** Every source is a node or an element file, and no element file comes before a
      node file. */
  predicate NodesFirst(srcs: seq<Source>) {
    (forall k :: 0 <= k < |srcs| ==> IsNodeSource(srcs[k]) || IsElemSource(srcs[k])) &&
    (forall i, j :: 0 <= i < j < |srcs| && IsNodeSource(srcs[j]) ==> IsNodeSource(srcs[i]))
  }

  ghost predicate SourcesOrdered(rs: seq<Region>) {
    forall i :: 0 <= i < |rs| && rs[i].model.Some? ==> NodesFirst(rs[i].model.value)
  }

  lemma KeepsSourcesOrdered(before: seq<Region>, after: seq<Region>)
    requires SourcesOrdered(before) && KeepsContents(before, after)
    ensures SourcesOrdered(after)
  {
  }

  /** An element file is never a node file. */
  lemma SuffixesExclusive(f: string)
    ensures EndsWith(f, ElemSuffix) ==> !EndsWith(f, NodeSuffix)
  {
    assert NodeSuffix[4] != ElemSuffix[4];
  }

  lemma {:induction false} SourcesOfKind(files: seq<string>, regionName: string, suffix: string)
    requires forall x :: x in files ==> EndsWith(x, suffix)
    ensures forall k :: 0 <= k < |SourcesOf(files, regionName)| ==> EndsWith(SourcesOf(files, regionName)[k].fileName, suffix)
    ensures |SourcesOf(files, regionName)| == |files|
    decreases |files|
  {
    if files != [] {
      var init := files[..|files| - 1];
      forall x | x in init ensures EndsWith(x, suffix) { assert x in files; }
      SourcesOfKind(init, regionName, suffix);
    }
  }

  lemma ReversedAllNodes(s: seq<Source>)
    requires AllNodes(s)
    ensures AllNodes(Reversed(s))
  {
    ReversedElements(s);
  }

  lemma PrependNodes(nodes: seq<Source>, s: seq<Source>)
    requires AllNodes(nodes) && NodesFirst(s)
    ensures NodesFirst(nodes + s)
  {
    var all := nodes + s;
    forall k | 0 <= k < |all| ensures IsNodeSource(all[k]) || IsElemSource(all[k]) {
      if k >= |nodes| {
        assert all[k] == s[k - |nodes|];
      }
    }
    forall i, j | 0 <= i < j < |all| ensures IsNodeSource(all[j]) ==> IsNodeSource(all[i]) {
      if i >= |nodes| {
        assert all[i] == s[i - |nodes|] && all[j] == s[j - |nodes|];
      }
    }
  }

  lemma AppendElems(s: seq<Source>, elems: seq<Source>)
    requires NodesFirst(s) && AllElems(elems)
    ensures NodesFirst(s + elems)
  {
    var all := s + elems;
    forall k | 0 <= k < |all| ensures IsNodeSource(all[k]) || IsElemSource(all[k]) {
      if k >= |s| {
        assert all[k] == elems[k - |s|];
      }
    }
    forall i, j | 0 <= i < j < |all| ensures IsNodeSource(all[j]) ==> IsNodeSource(all[i]) {
      if j < |s| {
        assert all[i] == s[i] && all[j] == s[j];
      } else {
        assert all[j] == elems[j - |s|];
        SuffixesExclusive(all[j].fileName);
      }
    }
  }

  /** Node sources put in front, reversed, and element sources put at the back keep
      every node source before every element source. */
  lemma AddSourcesOrdered(nodes: seq<Source>, mid: seq<Source>, elems: seq<Source>)
    requires AllNodes(nodes) && AllElems(elems) && NodesFirst(mid)
    ensures NodesFirst(Reversed(nodes) + mid + elems)
  {
    ReversedAllNodes(nodes);
    PrependNodes(Reversed(nodes), mid);
    AppendElems(Reversed(nodes) + mid, elems);
  }

  /** The path of a record below the common path. */
  function RegionPath(record: Record, commonPath: string): string
    requires record.nodeFiles != []
  {
    ReplaceAll(record.nodeFiles[0], commonPath, "")
  }

  /** `region_parts`: the path split on `/`, without its first piece. */
  function RegionParts(record: Record, commonPath: string): seq<string>
    requires record.nodeFiles != []
  {
    Split(RegionPath(record, commonPath), "/")[1..]
  }

  /** The directories walked down from the root: all parts but the file name. */
  function Descent(parts: seq<string>): seq<string> {
    if |parts| > 0 then parts[..|parts| - 1] else []
  }

  predicate Skipped(parts: seq<string>)
    requires |parts| >= 2
  {
    Lower(parts[|parts| - 2]) in SkipRegions
  }

  /** The sources a record adds to the region at `regionPath`, around those it has. */
  function NewSources(record: Record, regionPath: string, existing: Option<seq<Source>>): seq<Source> {
    var regionName := Lower(Dirname(regionPath));
    Reversed(SourcesOf(record.nodeFiles, regionName))
      + (if existing.Some? then existing.value else [])
      + SourcesOf(record.elemFiles, regionName)
  }

  /** `root_region` and everything below it. */
  class RegionTree {
    var regions: seq<Region>

    ghost predicate Valid()
      reads this
    {
      ValidArena(regions)
    }

    /** A copy of `EMPTY_REGION`; the root has no name. */
    constructor()
      ensures Valid() && SourcesOrdered(regions)
      ensures regions == [NewRegion("")]
    {
      regions := [NewRegion("")];
    }

    /** The body of the loop over `region_parts`: the child of `parent` named `name`,
        appended first when there is none. */
    method FindOrCreateChild(parent: nat, name: string) returns (child: nat)
      requires Valid() && parent < |regions|
      modifies this
      ensures Valid()
      ensures (regions, child) == FindOrCreate(old(regions), parent, name)
    {
      var children := regions[parent].children;
      var names: seq<string> := [];
      for k := 0 to |children|
        invariant names == Names(regions, children[..k])
      {
        names := names + [regions[children[k]].name];
        assert names == Names(regions, children[..k + 1]);
      }
      assert children[..|children|] == children;
      if name !in names {
        GrowValid(regions, parent, name);
        regions := Grow(regions, parent, name);
        names := names + [name];
      }
      var j := IndexOf(names, name).value;
      child := regions[parent].children[j];
    }

    /** Walking down `parts`, each lower-cased, from the root. */
    method Descend(parts: seq<string>) returns (base: nat)
      requires Valid()
      modifies this
      ensures Valid()
      ensures (regions, base) == DescendFrom(old(regions), 0, LowerAll(parts))
    {
      ghost var names := LowerAll(parts);
      base := 0;
      for i := 0 to |parts|
        invariant Valid() && base < |regions|
        invariant DescendFrom(regions, base, names[i..]) == DescendFrom(old(regions), 0, names)
      {
        assert names[i..][0] == Lower(parts[i]) && names[i..][1..] == names[i + 1..];
        var current := Lower(parts[i]);
        base := FindOrCreateChild(base, current);
      }
    }

    /** The loop that inserts each node source at the front. */
    static method PrependNodeSources(sources: seq<Source>, files: seq<string>, regionName: string)
      returns (r: seq<Source>)
      ensures r == Reversed(SourcesOf(files, regionName)) + sources
    {
      r := sources;
      for i := 0 to |files|
        invariant r == Reversed(SourcesOf(files[..i], regionName)) + sources
      {
        assert files[..i + 1][..i] == files[..i];
        r := [Source(files[i], regionName)] + r;
      }
      assert files[..|files|] == files;
    }

    /** The loop that appends each element source. */
    static method AppendElemSources(sources: seq<Source>, files: seq<string>, regionName: string)
      returns (r: seq<Source>)
      ensures r == sources + SourcesOf(files, regionName)
    {
      r := sources;
      for i := 0 to |files|
        invariant r == sources + SourcesOf(files[..i], regionName)
      {
        assert files[..i + 1][..i] == files[..i];
        r := r + [Source(files[i], regionName)];
      }
      assert files[..|files|] == files;
    }

    /** The sources and material of a region a record is not skipped for. */
    method FillRegion(base: nat, record: Record, regionPath: string)
      requires Valid() && SourcesOrdered(regions) && base < |regions| && WellFormed(record)
      modifies this
      ensures Valid() && SourcesOrdered(regions)
      ensures regions == Decorate(old(regions), base, Graphics(Material(regionPath)),
        Some(NewSources(record, regionPath, old(regions)[base].model)))
    {
      var regionName := Lower(Dirname(regionPath));
      var sources := if regions[base].model.Some? then regions[base].model.value else [];
      ghost var mid := sources;
      sources := PrependNodeSources(sources, record.nodeFiles, regionName);
      sources := AppendElemSources(sources, record.elemFiles, regionName);
      SourcesOfKind(record.nodeFiles, regionName, NodeSuffix);
      SourcesOfKind(record.elemFiles, regionName, ElemSuffix);
      AddSourcesOrdered(SourcesOf(record.nodeFiles, regionName), mid, SourcesOf(record.elemFiles, regionName));
      var material := ChooseMaterial(regionPath);
      DecorateReach(regions, base, Graphics(material), Some(sources), 0, []);
      regions := Decorate(regions, base, Graphics(material), Some(sources));
    }

    /** One pass of the loop over `data_files`; `ok` is false where `region_parts[-2]`
        raises. */
    method AddRecord(record: Record, commonPath: string) returns (ok: bool, base: nat)
      requires Valid() && WellFormed(record) && SourcesOrdered(regions)
      modifies this
      ensures Valid() && SourcesOrdered(regions)
      ensures ok <==> |RegionParts(record, commonPath)| >= 2
      ensures (regions, base) == AddSpec(old(regions), record, commonPath)
    {
      var regionPath := ReplaceAll(record.nodeFiles[0], commonPath, "");
      var regionParts := Split(regionPath, "/")[1..];
      assert regionPath == RegionPath(record, commonPath) && regionParts == RegionParts(record, commonPath);
      ghost var start := regions;
      AddSpecOrdered(start, record, commonPath);
      base := Descend(Descent(regionParts));
      ghost var grown := regions;
      DescendExtends(start, 0, LowerAll(Descent(regionParts)));
      KeepsSourcesOrdered(start, regions);
      DecorateReach(regions, base, Graphics(DefaultMaterial), regions[base].model, 0, []);
      regions := Decorate(regions, base, Graphics(DefaultMaterial), regions[base].model);
      if |regionParts| < 2 {
        return false, base;
      }
      if Lower(regionParts[|regionParts| - 2]) in SkipRegions {
        assert Skipped(RegionParts(record, commonPath));
        return true, base;
      }
      ghost var reset := regions;
      assert reset[base].model == grown[base].model;
      FillRegion(base, record, regionPath);
      DecorateTwice(grown, base, Graphics(DefaultMaterial), grown[base].model,
        Graphics(Material(regionPath)), Some(NewSources(record, regionPath, grown[base].model)));
      ok := true;
    }

    /** The loop over `data_files`, up to the first record that raises. */
    method AddRecords(records: seq<Record>, commonPath: string) returns (ok: bool)
      requires Valid() && SourcesOrdered(regions)
      requires forall k :: 0 <= k < |records| ==> WellFormed(records[k])
      modifies this
      ensures Valid() && SourcesOrdered(regions)
      ensures (regions, ok) == AddAll(old(regions), records, commonPath)
      ensures ok <==> forall k :: 0 <= k < |records| ==> PathOk(records[k], commonPath)
    {
      for i := 0 to |records|
        invariant Valid() && SourcesOrdered(regions)
        invariant AddAll(regions, records[i..], commonPath) == AddAll(old(regions), records, commonPath)
      {
        AddAllStep(regions, records, i, commonPath);
        var recordOk, _ := AddRecord(records[i], commonPath);
        if !recordOk {
          AddAllOk(old(regions), records, commonPath);
          return false;
        }
      }
      ok := true;
      AddAllOk(old(regions), records, commonPath);
    }
  }

  function SceneIn(rs: seq<Region>, i: nat): Scene {
    if i < |rs| then rs[i].scene else EmptyScene
  }

  function ModelIn(rs: seq<Region>, i: nat): Option<seq<Source>> {
    if i < |rs| then rs[i].model else None
  }

  /** The tree after one pass of the loop over `data_files`, and the region the record's
      path leads to: the walk down, the scene reset, and, unless the record raises or is
      skipped, the sources and material. */
  function AddSpec(rs: seq<Region>, record: Record, commonPath: string): (r: (seq<Region>, nat))
    requires ValidArena(rs) && WellFormed(record)
    ensures ValidArena(r.0) && r.1 < |r.0|
  {
    var parts := RegionParts(record, commonPath);
    var walk := DescendFrom(rs, 0, LowerAll(Descent(parts)));
    var grown := walk.0;
    var base := walk.1;
    var regionPath := RegionPath(record, commonPath);
    var scene := if |parts| < 2 || Skipped(parts) then Graphics(DefaultMaterial) else Graphics(Material(regionPath));
    var model := if |parts| < 2 || Skipped(parts) then grown[base].model
      else Some(NewSources(record, regionPath, grown[base].model));
    DecorateReach(grown, base, scene, model, 0, []);
    (Decorate(grown, base, scene, model), base)
  }

  /** The sources of region `i`, none when it has no `Model`. */
  function SourcesIn(rs: seq<Region>, i: nat): seq<Source> {
    if i < |rs| && rs[i].model.Some? then rs[i].model.value else []
  }

  /** Every region keeps the sources it had. */
  ghost predicate KeepsSources(before: seq<Region>, after: seq<Region>) {
    |before| <= |after| &&
    forall i, s :: 0 <= i < |before| && s in SourcesIn(before, i) ==> s in SourcesIn(after, i)
  }

  lemma {:induction false} SourcesOfHas(files: seq<string>, regionName: string, f: string)
    requires f in files
    ensures Source(f, regionName) in SourcesOf(files, regionName)
    decreases |files|
  {
    var init := files[..|files| - 1];
    if f != files[|files| - 1] {
      assert f in init by {
        assert files == init + [files[|files| - 1]];
      }
      SourcesOfHas(init, regionName, f);
    }
  }

  /** The new sources of a region hold its old ones and one source per file of the
      record, named by the lower-cased directory of the path. */
  lemma NewSourcesHas(record: Record, regionPath: string, existing: Option<seq<Source>>)
    ensures existing.Some? ==> forall s :: s in existing.value ==> s in NewSources(record, regionPath, existing)
    ensures forall f :: f in record.nodeFiles ==>
      Source(f, Lower(Dirname(regionPath))) in NewSources(record, regionPath, existing)
    ensures forall f :: f in record.elemFiles ==>
      Source(f, Lower(Dirname(regionPath))) in NewSources(record, regionPath, existing)
  {
    var name := Lower(Dirname(regionPath));
    var nodes := SourcesOf(record.nodeFiles, name);
    ReversedElements(nodes);
    forall f | f in record.nodeFiles ensures Source(f, name) in NewSources(record, regionPath, existing) {
      SourcesOfHas(record.nodeFiles, name, f);
      var k :| 0 <= k < |nodes| && nodes[k] == Source(f, name);
      assert Reversed(nodes)[|nodes| - 1 - k] == Source(f, name);
    }
    forall f | f in record.elemFiles ensures Source(f, name) in NewSources(record, regionPath, existing) {
      SourcesOfHas(record.elemFiles, name, f);
    }
  }

  /** One record only grows the tree and only adds sources. */
  lemma AddSpecGrows(rs: seq<Region>, record: Record, commonPath: string)
    requires ValidArena(rs) && WellFormed(record)
    ensures Extends(rs, AddSpec(rs, record, commonPath).0)
    ensures KeepsSources(rs, AddSpec(rs, record, commonPath).0)
  {
    var names := LowerAll(Descent(RegionParts(record, commonPath)));
    var walk := DescendFrom(rs, 0, names);
    var r := AddSpec(rs, record, commonPath);
    DescendExtends(rs, 0, names);
    NewSourcesHas(record, RegionPath(record, commonPath), walk.0[walk.1].model);
    forall i, s | 0 <= i < |rs| && s in SourcesIn(rs, i) ensures s in SourcesIn(r.0, i) {
      assert SourcesIn(walk.0, i) == SourcesIn(rs, i);
    }
  }

  /** The record's region is the one its lower-cased directories lead to. */
  lemma AddSpecReach(rs: seq<Region>, record: Record, commonPath: string)
    requires ValidArena(rs) && WellFormed(record)
    ensures Reach(AddSpec(rs, record, commonPath).0, 0, LowerAll(Descent(RegionParts(record, commonPath))))
      == Some(AddSpec(rs, record, commonPath).1)
  {
    var names := LowerAll(Descent(RegionParts(record, commonPath)));
    var walk := DescendFrom(rs, 0, names);
    var r := AddSpec(rs, record, commonPath);
    DescendReaches(rs, 0, names);
    DecorateReach(walk.0, walk.1, r.0[walk.1].scene, r.0[walk.1].model, 0, names);
  }

  /** The record's region gets the scene `black` and keeps its sources when the record
      raises or is skipped; otherwise it gets the chosen material and the record's files
      as sources around the ones it had. */
  lemma AddSpecRegion(rs: seq<Region>, record: Record, commonPath: string)
    requires ValidArena(rs) && WellFormed(record)
    ensures var r := AddSpec(rs, record, commonPath);
      var parts := RegionParts(record, commonPath);
      (|parts| < 2 || Skipped(parts) ==>
        r.0[r.1].scene == Graphics(DefaultMaterial) && r.0[r.1].model == ModelIn(rs, r.1)) &&
      (|parts| >= 2 && !Skipped(parts) ==>
        r.0[r.1].scene == Graphics(Material(RegionPath(record, commonPath))) &&
        r.0[r.1].model == Some(NewSources(record, RegionPath(record, commonPath), ModelIn(rs, r.1))))
  {
    var walk := DescendFrom(rs, 0, LowerAll(Descent(RegionParts(record, commonPath))));
    DescendExtends(rs, 0, LowerAll(Descent(RegionParts(record, commonPath))));
    assert ModelIn(rs, walk.1) == walk.0[walk.1].model;
  }

  /** Every other region keeps its scene and sources. */
  lemma AddSpecOthers(rs: seq<Region>, record: Record, commonPath: string)
    requires ValidArena(rs) && WellFormed(record)
    ensures var r := AddSpec(rs, record, commonPath);
      forall i :: 0 <= i < |r.0| && i != r.1 ==> r.0[i].scene == SceneIn(rs, i) && r.0[i].model == ModelIn(rs, i)
  {
    DescendExtends(rs, 0, LowerAll(Descent(RegionParts(record, commonPath))));
  }

  /** One record keeps node sources before element sources everywhere. */
  lemma AddSpecOrdered(rs: seq<Region>, record: Record, commonPath: string)
    requires ValidArena(rs) && WellFormed(record) && SourcesOrdered(rs)
    ensures SourcesOrdered(AddSpec(rs, record, commonPath).0)
  {
    var parts := RegionParts(record, commonPath);
    var walk := DescendFrom(rs, 0, LowerAll(Descent(parts)));
    DescendExtends(rs, 0, LowerAll(Descent(parts)));
    KeepsSourcesOrdered(rs, walk.0);
    if |parts| >= 2 && !Skipped(parts) {
      var regionPath := RegionPath(record, commonPath);
      var name := Lower(Dirname(regionPath));
      var mid := if walk.0[walk.1].model.Some? then walk.0[walk.1].model.value else [];
      SourcesOfKind(record.nodeFiles, name, NodeSuffix);
      SourcesOfKind(record.elemFiles, name, ElemSuffix);
      AddSourcesOrdered(SourcesOf(record.nodeFiles, name), mid, SourcesOf(record.elemFiles, name));
    }
  }

  /** The tree after the loop over `data_files`, which stops after the first record that
      raises, and whether every record got through. */
  function AddAll(rs: seq<Region>, records: seq<Record>, commonPath: string): (r: (seq<Region>, bool))
    requires ValidArena(rs) && forall k :: 0 <= k < |records| ==> WellFormed(records[k])
    ensures ValidArena(r.0)
    decreases |records|
  {
    if records == [] then (rs, true)
    else
      var next := AddSpec(rs, records[0], commonPath).0;
      if |RegionParts(records[0], commonPath)| < 2 then (next, false)
      else AddAll(next, records[1..], commonPath)
  }

  /** The loop gets through exactly when no record's path lacks a directory. */
  lemma {:induction false} AddAllOk(rs: seq<Region>, records: seq<Record>, commonPath: string)
    requires ValidArena(rs) && forall k :: 0 <= k < |records| ==> WellFormed(records[k])
    ensures AddAll(rs, records, commonPath).1 <==>
      forall k :: 0 <= k < |records| ==> PathOk(records[k], commonPath)
    decreases |records|
  {
    if records != [] && |RegionParts(records[0], commonPath)| >= 2 {
      var rest := records[1..];
      AddAllOk(AddSpec(rs, records[0], commonPath).0, rest, commonPath);
      assert forall k :: 0 < k < |records| ==> records[k] == rest[k - 1];
    }
  }

  /** Adding records only grows the tree and only adds sources. */
  lemma {:induction false} AddAllGrows(rs: seq<Region>, records: seq<Record>, commonPath: string)
    requires ValidArena(rs) && forall k :: 0 <= k < |records| ==> WellFormed(records[k])
    ensures Extends(rs, AddAll(rs, records, commonPath).0)
    ensures KeepsSources(rs, AddAll(rs, records, commonPath).0)
    decreases |records|
  {
    if records != [] {
      var next := AddSpec(rs, records[0], commonPath).0;
      AddSpecGrows(rs, records[0], commonPath);
      if |RegionParts(records[0], commonPath)| >= 2 {
        AddAllGrows(next, records[1..], commonPath);
        ExtendsTransitive(rs, next, AddAll(rs, records, commonPath).0);
      }
    }
  }

  /** A record whose path has a directory above its file: `region_parts[-2]` exists. */
  predicate PathOk(record: Record, commonPath: string) {
    WellFormed(record) && |RegionParts(record, commonPath)| >= 2
  }

  /** The tree has a region for the record's directories, and when the record is not
      skipped that region lists each of its node and element files as a source. */
  ghost predicate HasRecord(rs: seq<Region>, record: Record, commonPath: string)
    requires ValidArena(rs) && PathOk(record, commonPath)
  {
    var parts := RegionParts(record, commonPath);
    var name := Lower(Dirname(RegionPath(record, commonPath)));
    var at := Reach(rs, 0, LowerAll(Descent(parts)));
    at.Some? &&
    (!Skipped(parts) ==>
      (forall f :: f in record.nodeFiles ==> Source(f, name) in SourcesIn(rs, at.value)) &&
      (forall f :: f in record.elemFiles ==> Source(f, name) in SourcesIn(rs, at.value)))
  }

  lemma AddSpecHasRecord(rs: seq<Region>, record: Record, commonPath: string)
    requires ValidArena(rs) && PathOk(record, commonPath)
    ensures HasRecord(AddSpec(rs, record, commonPath).0, record, commonPath)
  {
    var r := AddSpec(rs, record, commonPath);
    AddSpecReach(rs, record, commonPath);
    AddSpecRegion(rs, record, commonPath);
    NewSourcesHas(record, RegionPath(record, commonPath), ModelIn(rs, r.1));
  }

  lemma HasRecordKept(before: seq<Region>, after: seq<Region>, record: Record, commonPath: string)
    requires ValidArena(before) && ValidArena(after) && Extends(before, after) && KeepsSources(before, after)
    requires PathOk(record, commonPath)
    requires HasRecord(before, record, commonPath)
    ensures HasRecord(after, record, commonPath)
  {
    ExtendsKeepsReach(before, after, 0, LowerAll(Descent(RegionParts(record, commonPath))));
  }

  /** The first record either raises, which ends the loop, or is followed by the rest. */
  lemma AddAllUnfold(rs: seq<Region>, records: seq<Record>, commonPath: string)
    requires ValidArena(rs) && forall k :: 0 <= k < |records| ==> WellFormed(records[k])
    requires records != [] && WellFormed(records[0])
    ensures |RegionParts(records[0], commonPath)| < 2 ==>
      AddAll(rs, records, commonPath) == (AddSpec(rs, records[0], commonPath).0, false)
    ensures |RegionParts(records[0], commonPath)| >= 2 ==>
      AddAll(rs, records, commonPath) == AddAll(AddSpec(rs, records[0], commonPath).0, records[1..], commonPath)
  {
  }

  /** The loop from record `i` on: that record's pass, then either the end of the loop
      or the records after it. */
  lemma AddAllStep(rs: seq<Region>, records: seq<Record>, i: nat, commonPath: string)
    requires ValidArena(rs) && forall k :: 0 <= k < |records| ==> WellFormed(records[k])
    requires i < |records|
    ensures var next := AddSpec(rs, records[i], commonPath).0;
      AddAll(rs, records[i..], commonPath) ==
        if |RegionParts(records[i], commonPath)| < 2 then (next, false)
        else AddAll(next, records[i + 1..], commonPath)
  {
    var todo := records[i..];
    assert todo[0] == records[i] && todo[1..] == records[i + 1..];
    AddAllUnfold(rs, todo, commonPath);
  }

  /** The first record's region, as the rest of the records leave the tree. */
  lemma AddAllHasFirst(rs: seq<Region>, records: seq<Record>, commonPath: string)
    requires ValidArena(rs) && forall k :: 0 <= k < |records| ==> WellFormed(records[k])
    requires records != [] && PathOk(records[0], commonPath)
    ensures HasRecord(AddAll(rs, records, commonPath).0, records[0], commonPath)
  {
    var next := AddSpec(rs, records[0], commonPath).0;
    var rest := records[1..];
    AddAllUnfold(rs, records, commonPath);
    AddSpecHasRecord(rs, records[0], commonPath);
    AddAllGrows(next, rest, commonPath);
    HasRecordKept(next, AddAll(next, rest, commonPath).0, records[0], commonPath);
  }

  /** When no record raises, the finished tree has a region for every record's
      directories, and that region lists every node and element file of a record that is
      not skipped as a source. */
  lemma {:induction false} AddAllHasRecord(rs: seq<Region>, records: seq<Record>, commonPath: string, k: nat)
    requires ValidArena(rs)
    requires forall j :: 0 <= j < |records| ==> WellFormed(records[j]) && |RegionParts(records[j], commonPath)| >= 2
    requires k < |records|
    ensures PathOk(records[k], commonPath)
    ensures HasRecord(AddAll(rs, records, commonPath).0, records[k], commonPath)
    decreases |records|, 1
  {
    if k == 0 {
      AddAllHasFirst(rs, records, commonPath);
    } else {
      AddAllHasLater(rs, records, commonPath, k);
    }
  }

  /** A later record's region, as the records after the first leave the tree. */
  lemma {:induction false} AddAllHasLater(rs: seq<Region>, records: seq<Record>, commonPath: string, k: nat)
    requires ValidArena(rs)
    requires forall j :: 0 <= j < |records| ==> WellFormed(records[j]) && |RegionParts(records[j], commonPath)| >= 2
    requires 0 < k < |records|
    ensures PathOk(records[k], commonPath)
    ensures HasRecord(AddAll(rs, records, commonPath).0, records[k], commonPath)
    decreases |records|, 0
  {
    var rest := records[1..];
    var next := AddSpec(rs, records[0], commonPath).0;
    assert HasRecord(AddAll(next, rest, commonPath).0, records[k], commonPath) by {
      assert rest[k - 1] == records[k];
      AddAllHasRecord(next, rest, commonPath, k - 1);
    }
    AddAllUnfold(rs, records, commonPath);
  }

  /** `main` up to the JSON dump: the records of the walk added one by one to a fresh
      tree. `commonPath` is `os.path.commonpath` of the first node files; `ok` is false
      where the script raises. */
  method BuildRegionTree(walk: seq<Directory>, commonPath: string) returns (tree: RegionTree, ok: bool)
    ensures fresh(tree) && tree.Valid() && SourcesOrdered(tree.regions)
    ensures ok <==> (DataFiles(walk) != [] &&
      forall k :: 0 <= k < |DataFiles(walk)| ==>
        WellFormed(DataFiles(walk)[k]) && |RegionParts(DataFiles(walk)[k], commonPath)| >= 2)
    ensures DataFiles(walk) != [] ==>
      (forall k :: 0 <= k < |DataFiles(walk)| ==> WellFormed(DataFiles(walk)[k])) &&
      (tree.regions, ok) == AddAll([NewRegion("")], DataFiles(walk), commonPath)
  {
    var dataFiles := ClassifyDirectories(walk);
    DataFilesWellFormed(walk);
    tree := new RegionTree();
    if dataFiles == [] {
      return tree, false;
    }
    ok := tree.AddRecords(dataFiles, commonPath);
  }
}
