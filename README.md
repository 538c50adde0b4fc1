# libcellml and OpenCMISS helper scripts, modelled in Dafny

This project models five Python scripts from a collection of build and release helpers.

**`libcellml/extract_emscripten_helper.py`** reads Doxygen XML for libcellml classes. It writes two files:

- `wrapping.txt`: Emscripten bindings, that is enum blocks, one `.function` line per method or overload, and a warnings block.
- `tests.txt`: JavaScript test skeletons, with one test per method and one shared test per set/get pair.

Finally it qualifies library names in the wrapping text with `libcellml::`, `libcellml::Units::` or `libcellml::Variable::`.

The model covers these parts:

- The per-function skip rules, and the method map in first-seen key order (`EmscriptenExtract`).
- Set/get pairing (`EmscriptenClassify`).
- Binding lines (`EmscriptenBindings`).
- Test lines (`EmscriptenTests`).
- The `\b...\b` substitution (`EmscriptenRewrite`).
- The two output files, as line accumulators of one `Artifacts` object (`EmscriptenHelper`).

**`libcellml/create_change_log.py`** keeps a database of merged pull requests, sorted newest first when it is loaded and appended to when it is updated. It selects those merged between two tag times, then writes a reStructuredText change log grouped by label, with a contributor gallery. The model (`ChangeLog`) covers:

- The sorts (through the stable `Sorting.SortBy`).
- The merged-into-main filter.
- The database as a class with `add_entry_to_database` and `add_all_entries_to_database`.
- The `git` tag output parser and `tag_is_valid`.
- The flag-driven selection loop.
- The label, summary and display-name helpers.
- The writer.

**`opencmiss/generate_argon_document.py`** classifies `.EXNODE` and `.EXELEM` files per directory. It builds an Argon region tree by find-or-create on the lower-cased path components. Node sources go first and element sources last, and the surface material is chosen by a precedence rule. In the model (`Argon`), the tree is an index arena in a `RegionTree` class: a list of regions whose children are indices.

**`misc/convert_cmake_extproj_cfgcmd.py`** takes a CMake `cmd='...'` list and turns it into a shell command line. The model is `CfgCmd`.

**`libcellml/calculate_test_total.py`** sums the GoogleTest "N tests from M test cases ran" counts. The model is `TestTotal`.

`Strings` holds the Python string operations the scripts use (`find`, `split`, `join`, `replace`, ASCII `lower`, `str` of a number). `Wrappers` holds `Option` and `Result`.

The scripts' regular expressions are hand-written as matchers over ASCII text.

Exceptions that end a script are modelled as explicit outcomes:

- `None` from a rewrite.
- `Crash` and `Exit` in `CfgCmd`.
- `ok == false` in `Argon`.

Where the source's own precondition is a data invariant, the model states it as a `requires`. Examples are merge times that are never `None` in the database, and method names other than exactly `set`.

## Model

| member | source | states |
|---|---|---|
| EmscriptenClassify.BaseName | libcellml/extract_emscripten_helper.py:104-109 | a name not starting with `set` is returned unchanged; otherwise the result drops `set` and lower-cases the fourth character (length minus three, rest kept) |
| EmscriptenClassify.SetterRoundTrip | libcellml/extract_emscripten_helper.py:104-109 | the base name of `set` + capitalised `base` is `base` again, for a base that does not start upper-case |
| EmscriptenClassify.LastNameIsLastPiece | libcellml/extract_emscripten_helper.py:115-116 | the unqualified name (left-to-right scan) is the last piece of `key.split('::')` |
| EmscriptenClassify.DeterminePairs | libcellml/extract_emscripten_helper.py:112-124 | a base name is in the result iff exactly two keys of the method map give it, and its count there is 2 |
| EmscriptenExtract.Judge | libcellml/extract_emscripten_helper.py:294-317 | no brief gives the "Non standard brief description!!!" warning, an ignored brief the "@private" warning; a definition without a space is dropped; otherwise the method is kept under the second token, with the record's return type, parameters and ` const` flag |
| EmscriptenExtract.MethodKeyIsSecondToken | libcellml/extract_emscripten_helper.py:308-310 | a key exists iff the definition has a space, and it is the text after the first space up to the next space or the end |
| EmscriptenExtract.SignaturesForNonEmpty | libcellml/extract_emscripten_helper.py:319-322 | a key has overloads iff some kept record produced it |
| EmscriptenExtract.FirstSeenSpec | libcellml/extract_emscripten_helper.py:319-322 | the method map's keys are exactly the kept keys, each once |
| EmscriptenExtract.FirstSeenOrder | libcellml/extract_emscripten_helper.py:319-322 | the keys are in the order of their first occurrence |
| EmscriptenExtract.ExtractedUnique | libcellml/extract_emscripten_helper.py:293-322 | the class data is determined by the class record |
| EmscriptenExtract.ExtractedIsOrderedMap | libcellml/extract_emscripten_helper.py:319-322 | the extracted keys are duplicate-free and are exactly the method map's domain |
| EmscriptenExtract.ExtractStep | libcellml/extract_emscripten_helper.py:294-322 | one loop pass keeps warnings, keys and overload lists equal to those of the records read so far |
| EmscriptenExtract.Extract | libcellml/extract_emscripten_helper.py:293-322 | the loop builds exactly the specified class data, an ordered map from keys to overloads |
| EmscriptenBindings.PublicParamName | libcellml/extract_emscripten_helper.py:27-27 | `oldUnits` becomes `units`, `variable1` becomes `variable`, and every other name is kept; the result is empty only when the name is |
| EmscriptenBindings.KeyBindingsAt | libcellml/extract_emscripten_helper.py:232-247 | an overloaded key gives one `.function` line per overload, in order |
| EmscriptenBindings.OverloadLines | libcellml/extract_emscripten_helper.py:235-247 | an overload's line is `<name>By<Param>` (or `ByXXX` without parameters) with `select_overload<ret(types) const?>(&key)` |
| EmscriptenBindings.BindingLinePerSignature | libcellml/extract_emscripten_helper.py:228-247 | the bindings hold exactly one line per signature over all keys |
| EmscriptenBindings.PlainMethodsInKeyOrder | libcellml/extract_emscripten_helper.py:228-233 | without overloads, the bindings are one `.function("name", &key)` line per key in key order |
| EmscriptenBindings.EnumBlocksLength | libcellml/extract_emscripten_helper.py:219-225 | the enum blocks take a header, one line per value and a terminator per enum |
| EmscriptenBindings.EnumHeaderAt | libcellml/extract_emscripten_helper.py:219-222 | each enum's `enum_<...>` header stands at its offset |
| EmscriptenBindings.EnumValueAt | libcellml/extract_emscripten_helper.py:223-224 | the j-th value line of the i-th enum stands right after its header, in order |
| EmscriptenBindings.WarningHeaderOnce | libcellml/extract_emscripten_helper.py:250-255 | the `Warnings: <class>` header appears once if there are warnings, never otherwise, and the ` - ` lines follow it in order |
| EmscriptenBindings.WarningLinesNotHeader | libcellml/extract_emscripten_helper.py:254-255 | a warning line is never taken for the header |
| EmscriptenTests.PairBaseNonEmpty | libcellml/extract_emscripten_helper.py:66-67 | a paired name has a non-empty base, so the setter can be spelled |
| EmscriptenTests.TestFor | libcellml/extract_emscripten_helper.py:86-101 | `need...` gives the boolean test, a pair the set-then-expect test under the base name, other methods the skeleton test with `ByXXX` when overloaded; each has the instance lines and the footer |
| EmscriptenTests.GetterFirstPairRoundTrip | libcellml/extract_emscripten_helper.py:66-75 | a getter-first pair calls the setter of the getter's own name and expects the sentinel back |
| EmscriptenTests.SetterFirstPairReadsSetter | libcellml/extract_emscripten_helper.py:66-75 | a setter-first pair is titled with the base name but calls `x.<setter>()` in its expectation |
| EmscriptenTests.RepeatLinesAt | libcellml/extract_emscripten_helper.py:169-170 | an overloaded key's tests repeat the same block once per overload |
| EmscriptenTests.CountBaseAtLeast | libcellml/extract_emscripten_helper.py:112-124 | the base count is at least the number of keys giving that base |
| EmscriptenTests.FirstOfPair | libcellml/extract_emscripten_helper.py:158-164 | the first key of a pair is never skipped |
| EmscriptenTests.PairTestedOnce | libcellml/extract_emscripten_helper.py:155-170 | of the two keys of a pair, the first is tested and the second produces no test |
| EmscriptenTests.OverloadTests | libcellml/extract_emscripten_helper.py:166-170 | an overloaded key gets five lines per overload, each titled and expecting `<name>ByXXX` |
| EmscriptenHelper.SeenBaseStep | libcellml/extract_emscripten_helper.py:155-164 | a base has been seen before key i+1 iff it was seen before key i or key i gives it |
| EmscriptenHelper.VisitedUpToSpec | libcellml/extract_emscripten_helper.py:139-164 | `visited_pairs` before key i holds exactly the paired bases already seen |
| EmscriptenHelper.VisitedSkipped | libcellml/extract_emscripten_helper.py:160-161 | a key is skipped iff its base is already in `visited_pairs` |
| EmscriptenHelper.AllBindingLinesSnoc | libcellml/extract_emscripten_helper.py:345-346 | processing one more class appends that class's binding lines |
| EmscriptenHelper.AllTestLinesSnoc | libcellml/extract_emscripten_helper.py:345-346 | processing one more class appends that class's test lines |
| EmscriptenHelper.SubAll | libcellml/extract_emscripten_helper.py:178-192 | the substitution loop over a list of names equals the specified sequence of substitutions |
| EmscriptenHelper.QualifyText | libcellml/extract_emscripten_helper.py:174-203 | the three loops give the qualified text |
| EmscriptenHelper.Artifacts.constructor | libcellml/extract_emscripten_helper.py:340-343 | both output files start empty |
| EmscriptenHelper.Artifacts.WriteWrapping | libcellml/extract_emscripten_helper.py:206-208 | appending lines to `wrapping.txt` appends their text and leaves the tests file alone |
| EmscriptenHelper.Artifacts.WriteTests | libcellml/extract_emscripten_helper.py:143-144 | appending lines to `tests.txt` appends their text and leaves the wrapping file alone |
| EmscriptenHelper.Artifacts.PrintPreamble | libcellml/extract_emscripten_helper.py:208-217 | the class preamble is appended to the wrapping file |
| EmscriptenHelper.Artifacts.PrintEnum | libcellml/extract_emscripten_helper.py:220-225 | one enum's block is appended |
| EmscriptenHelper.Artifacts.PrintEnums | libcellml/extract_emscripten_helper.py:219-225 | all enum blocks are appended in order |
| EmscriptenHelper.Artifacts.PrintOverload | libcellml/extract_emscripten_helper.py:235-247 | one more overload line is appended |
| EmscriptenHelper.Artifacts.PrintKey | libcellml/extract_emscripten_helper.py:229-247 | one key's binding lines are appended |
| EmscriptenHelper.Artifacts.PrintMethod | libcellml/extract_emscripten_helper.py:228-247 | the bindings of one more key are appended |
| EmscriptenHelper.Artifacts.PrintMethods | libcellml/extract_emscripten_helper.py:227-248 | the bindings of every key are appended in key order |
| EmscriptenHelper.Artifacts.PrintWarning | libcellml/extract_emscripten_helper.py:251-255 | the header is written before the first warning only, and each warning adds its line |
| EmscriptenHelper.Artifacts.PrintWarnings | libcellml/extract_emscripten_helper.py:250-255 | the warnings block is appended |
| EmscriptenHelper.Artifacts.PrintClass | libcellml/extract_emscripten_helper.py:206-255 | `print_class` appends exactly the class's binding lines to the wrapping file |
| EmscriptenHelper.Artifacts.PrintKeyTests | libcellml/extract_emscripten_helper.py:166-170 | a key's tests are one test, or one overload test per overload |
| EmscriptenHelper.Artifacts.WriteTestsRepeated | libcellml/extract_emscripten_helper.py:169-170 | the loop over overloads appends the block once per overload |
| EmscriptenHelper.Artifacts.PrintTestPrelude | libcellml/extract_emscripten_helper.py:143-154 | the `describe` prelude is appended to the tests file |
| EmscriptenHelper.Artifacts.PrintTestsOfKey | libcellml/extract_emscripten_helper.py:156-170 | one loop pass appends that key's tests and keeps `visited_pairs` as specified |
| EmscriptenHelper.Artifacts.PrintKeysTests | libcellml/extract_emscripten_helper.py:155-170 | the tests of every key are appended in key order |
| EmscriptenHelper.Artifacts.PrintTestFile | libcellml/extract_emscripten_helper.py:127-171 | `print_test_file` appends exactly the class's test lines to the tests file |
| EmscriptenHelper.Artifacts.ProcessClass | libcellml/extract_emscripten_helper.py:272-325 | one class record adds its bindings and its tests |
| EmscriptenHelper.Artifacts.AddNamespaceToClass | libcellml/extract_emscripten_helper.py:174-203 | the wrapping file is replaced by its qualified text; the tests file is unchanged |
| EmscriptenHelper.Artifacts.ProcessNext | libcellml/extract_emscripten_helper.py:345-346 | one more file adds its class's lines to both files |
| EmscriptenHelper.Artifacts.ProcessAll | libcellml/extract_emscripten_helper.py:345-346 | after the loop, the files hold the lines of every class in order |
| EmscriptenHelper.Artifacts.Run | libcellml/extract_emscripten_helper.py:335-348 | the final wrapping file is the qualified text of all binding lines; the tests file holds all test lines |
| EmscriptenRewrite.GluedUnchanged | libcellml/extract_emscripten_helper.py:179 | a name with no word boundary before any occurrence is not replaced |
| EmscriptenRewrite.SubWordAppend | libcellml/extract_emscripten_helper.py:179 | substitution distributes over text split after a non-word character |
| EmscriptenRewrite.SubWordWhole | libcellml/extract_emscripten_helper.py:179 | a whole-word occurrence is replaced |
| EmscriptenRewrite.ListsWordEdged | libcellml/extract_emscripten_helper.py:23-26 | every listed name begins and ends with a word character |
| EmscriptenRewrite.QualifyIs | libcellml/extract_emscripten_helper.py:178-192 | the three passes, in order, give the qualified text |
| EmscriptenRewrite.SubEachSplit | libcellml/extract_emscripten_helper.py:178-179 | substituting a list of names is substituting a prefix of it and then the rest |
| EmscriptenRewrite.SubEachGlued | libcellml/extract_emscripten_helper.py:178-179 | text with no listed name at a word boundary is unchanged |
| EmscriptenRewrite.SetterNameKept | libcellml/extract_emscripten_helper.py:191-192 | `setInterfaceType` is not rewritten, because `\b` does not match inside a word |
| EmscriptenRewrite.DiscriminatorKept | libcellml/extract_emscripten_helper.py:182-183 | `ByStandardUnit` is not rewritten |
| EmscriptenRewrite.QualifiedAgain | libcellml/extract_emscripten_helper.py:178-179 | the rewrite is not idempotent: `libcellml::ModelPtr` is qualified again, because `:` is a word boundary |
| ChangeLog.SortPullRequestData | libcellml/create_change_log.py:40-42 | the result is sorted newest merge first, is a permutation, and keeps the input order among equal merge times |
| ChangeLog.UnmergedLast | libcellml/create_change_log.py:40-42 | with real merge times, unmerged pull requests (key `0000-...`) come after every merged one |
| ChangeLog.GetNewest | libcellml/create_change_log.py:49-52 | an error iff the list is empty, otherwise its first entry |
| ChangeLog.NewestOfSorted | libcellml/create_change_log.py:49-52 | the newest entry of the sorted data has the greatest merge time |
| ChangeLog.MergedIntoMain | libcellml/create_change_log.py:55-58 | true iff the pull request has a merge time and its base branch is `main` or `develop` |
| ChangeLog.KeepMerged | libcellml/create_change_log.py:76 | a pull request is kept iff it was merged and its base is `main` or `develop` |
| ChangeLog.KeepMergedAppend | libcellml/create_change_log.py:76 | filtering a concatenation is the concatenation of the filtered parts, so the filter keeps the order |
| ChangeLog.KeepMergedSorted | libcellml/create_change_log.py:75-76 | filtering a sorted list leaves it sorted |
| ChangeLog.MergedPageContents | libcellml/create_change_log.py:75-76 | a page keeps exactly its pull requests merged into `main` or `develop` |
| ChangeLog.MergedPageSorted | libcellml/create_change_log.py:75-76 | a page is ordered newest merge time first |
| ChangeLog.AddAllContents | libcellml/create_change_log.py:122-131 | adding a list extends the database, and afterwards it holds exactly the old entries and the list's entries, compared as whole objects |
| ChangeLog.AddAllNoDuplicates | libcellml/create_change_log.py:112-131 | the database never holds an entry twice |
| ChangeLog.AddAllAllNew | libcellml/create_change_log.py:122-135 | `added_all` iff the list has no repeats and none of its entries was already in the database |
| ChangeLog.Database.constructor | libcellml/create_change_log.py:82-91 | the database starts empty and duplicate-free |
| ChangeLog.Database.AddEntry | libcellml/create_change_log.py:112-119 | a pull request is appended and true returned iff it was not present; the database stays duplicate-free |
| ChangeLog.Database.AddAllEntries | libcellml/create_change_log.py:122-135 | the loop leaves the entries and flag that the value-level specification gives |
| ChangeLog.Database.GetQualifying | libcellml/create_change_log.py:221-247 | the flag-driven loop returns the entries from the first one at or before the end time up to the first later one before the start time |
| ChangeLog.FirstAtOrBefore | libcellml/create_change_log.py:232-234 | the index found is the first, from a position, whose merge time is at or before the end time |
| ChangeLog.FirstBefore | libcellml/create_change_log.py:235-237 | the index found is the first, from a position, whose merge time is before the start time |
| ChangeLog.QualifyingInWindow | libcellml/create_change_log.py:221-247 | in a sorted database, every selected entry after the first lies within [start, end] |
| ChangeLog.QualifyingComplete | libcellml/create_change_log.py:221-247 | in a sorted database, every entry within [start, end] is selected |
| ChangeLog.UnsortedWindowMissed | libcellml/create_change_log.py:116-116 | after an update appends a pull request behind older ones, the pass misses it although it was merged inside the window |
| ChangeLog.QualifyingSortedFromDatabase | libcellml/create_change_log.py:354-355 | the selection over the sorted database takes only entries of the database |
| ChangeLog.QualifyingSortedInWindow | libcellml/create_change_log.py:354-355 | every entry of the sorted selection after the first lies within [start, end], whatever order the database is in |
| ChangeLog.QualifyingSortedComplete | libcellml/create_change_log.py:354-355 | every entry of the database within [start, end] is selected once the database is sorted, wherever it stands |
| ChangeLog.Database.GetQualifyingSorted | libcellml/create_change_log.py:354-355 | the database is sorted newest first, staying free of duplicates, and the pass then gives the sorted selection |
| ChangeLog.FirstEntryAlwaysKept | libcellml/create_change_log.py:232-240 | the `elif` skips the start check on the entry that finds the end time, so an entry older than the start time is still selected |
| ChangeLog.TagLine | libcellml/create_change_log.py:161-163 | a line has a key iff it has a space; the key is the text before the first space and the value the rest |
| ChangeLog.TagDataLast | libcellml/create_change_log.py:157-165 | a key's value is that of its last line |
| ChangeLog.TagDataKeys | libcellml/create_change_log.py:157-165 | every key comes from some line with a space |
| ChangeLog.ParseTagOutput | libcellml/create_change_log.py:157-165 | the loop builds the specified map of the output's lines |
| ChangeLog.TagShortcuts | libcellml/create_change_log.py:196-198 | `-` and `HEAD` are valid whatever `git` prints |
| ChangeLog.TagLineValid | libcellml/create_change_log.py:196-201 | a tag is valid when its last `tag` line names it |
| ChangeLog.ExtractLabel | libcellml/create_change_log.py:250-252 | the first label's name, or `No category` when there is no label or the first has no name |
| ChangeLog.ExtractSummary | libcellml/create_change_log.py:255-264 | the summary's title, number and url are the pull request's, its category is the extracted label, and its user, user url and avatar url are the user's login, url and avatar url |
| ChangeLog.SortSummaryData | libcellml/create_change_log.py:45-46 | sorted by label, a permutation, stable among equal labels |
| ChangeLog.DisplayName | libcellml/create_change_log.py:267-268 | `HEAD` displays as `latest`, other tags as themselves |
| ChangeLog.ChangelogFileName | libcellml/create_change_log.py:273-273 | the file is `changelog_latest.rst` for `HEAD` and `changelog_<tag>.rst` for any other tag |
| ChangeLog.StripFullStop | libcellml/create_change_log.py:283 | one trailing full stop is removed, other titles are kept |
| ChangeLog.HeadingForEveryLabel | libcellml/create_change_log.py:276-281 | every label that is not empty gets a heading at or before its summaries |
| ChangeLog.HeadingOncePerLabel | libcellml/create_change_log.py:276-281 | in label-sorted summaries, no label gets two headings |
| ChangeLog.WriteEntry | libcellml/create_change_log.py:276-285 | one loop pass writes the heading when the label changes, then the bullet |
| ChangeLog.WriteContributors | libcellml/create_change_log.py:288-294 | the heading appears iff there are contributors, followed by one image block per contributor |
| ChangeLog.WriteChangelog | libcellml/create_change_log.py:271-294 | the file written is named after the end tag, and its text is the entries followed by the contributor section |
| Sorting.SortBy | libcellml/create_change_log.py:40-46 | Python's stable `sorted`: ordered by the key (reversed or not), a permutation, and stable among equal keys |
| Sorting.LexLeTotal | libcellml/create_change_log.py:41 | string order is total |
| Sorting.LexLeTransitive | libcellml/create_change_log.py:41 | string order is transitive |
| Sorting.LexLeAntisymmetric | libcellml/create_change_log.py:41 | string order is antisymmetric |
| Argon.FilterSpec | opencmiss/generate_argon_document.py:95-100 | a path is listed iff it is the join of a file whose name ends with the suffix (case-sensitive), and it keeps that suffix |
| Argon.DataFilesWellFormed | opencmiss/generate_argon_document.py:90-103 | every record has a node file, and all its files have the right suffix |
| Argon.NoNodeFileNoRecord | opencmiss/generate_argon_document.py:102-103 | a directory without a node file adds no record, wherever it stands in the walk |
| Argon.DataFilesAppend | opencmiss/generate_argon_document.py:90-103 | the records of a walk are those of its parts, in order |
| Argon.ClassifyFiles | opencmiss/generate_argon_document.py:95-100 | the loop over a directory's files lists its node and element files |
| Argon.ClassifyDirectories | opencmiss/generate_argon_document.py:90-103 | the loop over the walk collects the specified records |
| Argon.DirnameOfPath | opencmiss/generate_argon_document.py:159 | the directory of a path with one slash before its last component is the text before it |
| Argon.ChooseMaterial | opencmiss/generate_argon_document.py:173-180 | the sequential checks give the precedence SKIN > LIGAMENT > BONE > MUSCLES/NECK > `black` |
| Argon.IndexOf | opencmiss/generate_argon_document.py:138 | `list.index`: the first position holding the name, or none when absent |
| Argon.IndexOfSnoc | opencmiss/generate_argon_document.py:133-138 | a name appended to a list without it is found at the end |
| Argon.IndexOfAppendKept | opencmiss/generate_argon_document.py:133-138 | a name already present is found where it was, whatever is appended after it |
| Argon.GrowValid | opencmiss/generate_argon_document.py:132-136 | appending a fresh child keeps sibling names distinct and children after parents, appends the name to the parent's list, and the lookup finds the new region |
| Argon.DecorateReach | opencmiss/generate_argon_document.py:143-171 | changing a region's scene and sources keeps the tree and every path |
| Argon.AddSourcesOrdered | opencmiss/generate_argon_document.py:153-171 | node sources inserted at the front, reversed, and element sources appended keep every node source before every element source |
| Argon.RegionTree.constructor | opencmiss/generate_argon_document.py:111 | the tree starts as one empty root region |
| Argon.FindOrCreate | opencmiss/generate_argon_document.py:125-140 | afterwards the parent has a child with the name, the tree stays valid, and it only grows |
| Argon.DescendFrom | opencmiss/generate_argon_document.py:122-140 | walking the names keeps the tree valid, only grows it, and ends at a region of it |
| Argon.DescendExtends | opencmiss/generate_argon_document.py:122-140 | existing regions keep their names, scenes and sources, and their old children stay a prefix of their children; new regions are empty |
| Argon.DescendReaches | opencmiss/generate_argon_document.py:122-140 | the region the walk ends at is the one the names reach from the start |
| Argon.ExtendsKeepsReach | opencmiss/generate_argon_document.py:125-140 | when regions keep their names and their children only grow, every path that reached a region still reaches it |
| Argon.RegionTree.FindOrCreateChild | opencmiss/generate_argon_document.py:125-140 | the loop over the children gives the tree and child `FindOrCreate` specifies |
| Argon.RegionTree.Descend | opencmiss/generate_argon_document.py:122-140 | the loop over the lower-cased components gives the tree and region `DescendFrom` specifies |
| Argon.RegionTree.PrependNodeSources | opencmiss/generate_argon_document.py:154-163 | inserting each node source at index 0 puts them in front in reverse order |
| Argon.RegionTree.AppendElemSources | opencmiss/generate_argon_document.py:164-171 | the element sources are appended in order |
| Argon.RegionTree.FillRegion | opencmiss/generate_argon_document.py:150-180 | the region gets the combined sources, named by the lower-cased dirname, and the chosen material |
| Argon.AddSpec | opencmiss/generate_argon_document.py:115-180 | one record's pass leaves a valid tree and names a region of it |
| Argon.AddSpecGrows | opencmiss/generate_argon_document.py:115-180 | a record's pass keeps every region's name, its old children as a prefix, and its sources |
| Argon.AddSpecReach | opencmiss/generate_argon_document.py:122-140 | the region a record's pass decorates is the one its lower-cased directories reach from the root |
| Argon.AddSpecRegion | opencmiss/generate_argon_document.py:143-180 | that region's scene is reset to the default and its sources kept when the path is too short or skipped; otherwise it gets the chosen material and the old sources with the node sources in front and the element sources behind |
| Argon.AddSpecOthers | opencmiss/generate_argon_document.py:115-180 | every other region keeps its scene and sources, and new regions on the way are empty |
| Argon.AddSpecOrdered | opencmiss/generate_argon_document.py:153-171 | a record's pass keeps every region's node sources before its element sources |
| Argon.AddSpecHasRecord | opencmiss/generate_argon_document.py:122-171 | after a record's pass the tree has a region for its directories that lists each of its files, unless it is skipped |
| Argon.AddAll | opencmiss/generate_argon_document.py:114-180 | the loop over the records, stopping at the first that raises, leaves a valid tree |
| Argon.AddAllOk | opencmiss/generate_argon_document.py:114-148 | the loop gets through iff every record's path has at least two parts |
| Argon.AddAllGrows | opencmiss/generate_argon_document.py:114-180 | the loop keeps every region's name, old children and sources |
| Argon.AddAllHasRecord | opencmiss/generate_argon_document.py:114-180 | when the loop gets through, every record has a region for its directories, which lists each of its files unless it is skipped, whatever later records do |
| Argon.RegionTree.AddRecord | opencmiss/generate_argon_document.py:115-180 | one pass of the loop gives the tree and region `AddSpec` specifies, keeps nodes-first sources, and fails iff the path has fewer than two parts |
| Argon.RegionTree.AddRecords | opencmiss/generate_argon_document.py:114-180 | the loop gives the tree and flag `AddAll` specifies, and succeeds iff every record's path has at least two parts |
| Argon.BuildRegionTree | opencmiss/generate_argon_document.py:88-180 | the tree stays valid with nodes-first sources; it succeeds iff there is a record and every record's path has two parts; with records, the tree and flag are those `AddAll` gives from a lone root |
| Strings.FindSpec | misc/convert_cmake_extproj_cfgcmd.py:28 | `str.find`: a found index is the first occurrence of the pattern, and none means it occurs nowhere |
| Strings.JoinSplit | misc/convert_cmake_extproj_cfgcmd.py:29 | joining the pieces of `str.split` with the separator gives the text back |
| Strings.SplitPiecesFree | misc/convert_cmake_extproj_cfgcmd.py:29 | no piece of `str.split` contains the separator |
| Strings.SplitCount | misc/convert_cmake_extproj_cfgcmd.py:29 | splitting at a character gives one more piece than its occurrences |
| Strings.LastPieceOfSplit | libcellml/extract_emscripten_helper.py:115-116 | the left-to-right scan for the last piece equals the last element of `str.split` |
| Strings.ReplaceAll | misc/convert_cmake_extproj_cfgcmd.py:28 | `str.replace` leaves text without the pattern unchanged |
| Strings.ReplaceAllAt | misc/convert_cmake_extproj_cfgcmd.py:28 | `str.replace` is left to right: text before the first occurrence is kept, the occurrence becomes the replacement, and replacing carries on after it |
| Strings.Lower | opencmiss/generate_argon_document.py:123 | ASCII `str.lower`: same length, each character lower-cased |
| Strings.Capitalize | libcellml/extract_emscripten_helper.py:73 | the first character is upper-cased and the rest kept |
| Strings.DigitsRoundTrip | libcellml/calculate_test_total.py:15-16 | `int` of the decimal `str` of a number gives the number back |
| CfgCmd.LineOf | misc/convert_cmake_extproj_cfgcmd.py:25 | `.*` reads up to the first newline: a prefix without newlines, followed by a newline or the end |
| CfgCmd.CmdOnOneLine | misc/convert_cmake_extproj_cfgcmd.py:25-27 | the extracted command never spans lines |
| CfgCmd.CmdGreedy | misc/convert_cmake_extproj_cfgcmd.py:25-27 | the command runs to the last quote on the line |
| CfgCmd.FlagSearchSpec | misc/convert_cmake_extproj_cfgcmd.py:35 | no match iff there is no `-D` or `-G`; otherwise the first one's letter and the rest of its line |
| CfgCmd.CrashIff | misc/convert_cmake_extproj_cfgcmd.py:31-38 | the script fails iff some part needs quotes and has no flag |
| CfgCmd.ArgumentCount | misc/convert_cmake_extproj_cfgcmd.py:28-29 | the number of parts is one more than the semicolons left after the source-dir argument is removed |
| CfgCmd.PlainArgumentKept | misc/convert_cmake_extproj_cfgcmd.py:32-38 | a part without placeholder or whitespace passes through unchanged |
| CfgCmd.PlaceholderQuoted | misc/convert_cmake_extproj_cfgcmd.py:32-33 | a part with a placeholder is quoted after the placeholder is restored |
| CfgCmd.QuotedArgument | misc/convert_cmake_extproj_cfgcmd.py:33-37 | a quoted part becomes `-X"rest"` from its first flag on, dropping any prefix |
| CfgCmd.QuotedWithoutFlag | misc/convert_cmake_extproj_cfgcmd.py:35-37 | a part that needs quotes but has no flag makes the script fail |
| CfgCmd.PlainCommand | misc/convert_cmake_extproj_cfgcmd.py:30-38 | when no part changes, the output is a leading space and the parts joined by spaces |
| CfgCmd.RewriteArgument | misc/convert_cmake_extproj_cfgcmd.py:32-37 | one pass of the loop rewrites a part as specified |
| CfgCmd.ConvertCfgCmd | misc/convert_cmake_extproj_cfgcmd.py:6-43 | the script exits 1 without an argument and 2 without a `cmd='` match; otherwise it fails or prints the rewritten command |
| TestTotal.NumberThenNumeral | libcellml/calculate_test_total.py:14 | a numeral followed by the literal is read back as its value |
| TestTotal.MatchRanLine | libcellml/calculate_test_total.py:14 | every "N: [==========] T tests from C test case(s) ran..." line matches, with T as the count, for `case` and `cases` |
| TestTotal.MatchPrintedLine | libcellml/calculate_test_total.py:14 | the same for the numbers as printed in decimal |
| TestTotal.MatchAnchored | libcellml/calculate_test_total.py:14 | a matching line starts with digits and `: [==========] ` |
| TestTotal.TotalAppend | libcellml/calculate_test_total.py:12-16 | the total of a log is the sum of the totals of its parts |
| TestTotal.UnmatchedIgnored | libcellml/calculate_test_total.py:13-16 | a line that does not match leaves the total unchanged, wherever it stands |
| TestTotal.TotalCovers | libcellml/calculate_test_total.py:12-16 | every matching line's test count is part of the total |
| TestTotal.SumTestCounts | libcellml/calculate_test_total.py:12-16 | the loop computes the specified total |

## Findings

| source | as written | input that shows it | evidently intended | confidence | as-written member | corrected member |
|---|---|---|---|---|---|---|
| libcellml/create_change_log.py:221-247 | `load_database` sorts the list once (line 91), `update_database` appends (line 116) new pull requests behind it, and `get_qualifying_pull_requests` scans that list assuming it is newest first, stopping at the first entry before the start time | a loaded database with merge times `c`, `a`, then `d` appended by the update; window from `b` to `e`: the selection is only the `c` entry, and `d` is missed | the comment at line 354: every pull request merged between the two times, which the same pass gives over the list sorted again | medium, not executed | ChangeLog.UnsortedWindowMissed | ChangeLog.Database.GetQualifyingSorted |

## Left out

- Reading Doxygen XML (`ElementTree`), `html.unescape`, `mimetypes`, `listdir` and the file system: classes, functions, enums and parameters arrive as records, and files as line accumulators.
- `extract_parameters`: its XML walk is left out; parameters arrive as records of type text and name.
- A Doxygen file with several classes: the model gives each file one class record.
- Network, `git`, `argparse`, the per-page cache, `load_database`, `database_up_to_date`, `update_database` and the JSON database file: the database is a `Database` object, and pages and `git` output are inputs.
- `_get_commit_time`, `get_time_of_tag` and `tags_are_valid`: they only run `git` and reformat its output.
- The order of `list(set(contributors))`: it is a parameter of `WriteChangelog`, required to list each avatar once.
- `print` calls and `sys.exit` messages: only the printed command and exit codes of the cfgcmd script are modelled.
- `os.walk` and `os.path.commonpath` are inputs of `Argon.BuildRegionTree`. For `os.walk`, a list of directories and their file names is given. For `commonpath`, the common path is given, and an empty record list fails as `commonpath([])` does.
- `json.dumps` of the Argon document; the `bits` list and its print.
- The `Fieldmodule`, `Type: FILE` and graphics entries other than the material: constants of every region or source.
- Argon.RegionTree.AddRecord: the `ChildRegions` key, present only once a region has had a child, is an empty list of child indices. The root's missing `Name` is the empty string.
- ChangeLog.Database.GetQualifying: requires every entry to have a merge time, since comparing `None` raises `TypeError`; the database only receives merged pull requests.
- EmscriptenClassify.BaseName: requires a name other than exactly `set`, on which the source raises `IndexError`.
- EmscriptenTests.PairName: the pair test is only specified for names other than the empty name and `set`; on those the source raises `IndexError` at `base_function_name[0]` (lines 61 and 73).
- EmscriptenTests.TestableKeys: the tests file is only specified when every key is a key of the method map, as the keys the source loops over are, and every pair member has a non-empty name; on an empty one the source raises `IndexError` at `base_function_name[0]` (lines 61 and 73).
- EmscriptenBindings.OverloadsNamed: the bindings of an overloaded method are only specified when each overload with parameters names its first one; the source raises `IndexError` at `first_param_name[0]` (line 242) on an empty name.
- ChangeLog.PullRequest: the keys the script never reads are one canonical serialised string, `rest`, so two pull requests are equal exactly when their read fields and that string agree, as Python's dictionary comparison does.
- Unicode: `lower`, `upper`, `\s`, `\d` and `\b` are modelled over ASCII. Python's `\s` is taken as the ASCII whitespace `str.isspace` accepts.
- Test-count overflow: integers are unbounded, as in Python.
- `parse_and_validate_pmr_cellml_models.py` and the repository's other scripts are not part of this model.
