/**
  * `libcellml/create_change_log.py`: a local database of merged pull requests, free of
  * duplicates, sorted newest first when it is loaded and appended to when it is
  * updated; the selection of the pull requests merged between two tags; and the
  * reStructuredText change log that lists them by label.
  */
module ChangeLog {
  import opened Wrappers
  import opened Strings
  import opened Sorting

  /** The merge time an unmerged pull request is sorted by. */
  const NeverMerged: string := "0000-00-00T00:00:00Z"
  const NoCategory: string := "No category"

  /** A label object; GitHub may leave out its `name`. */
  datatype Label = Label(name: Option<string>)

  datatype User = User(login: string, url: string, avatarUrl: string)

  /** A GitHub pull-request object: the fields the script reads, and in `rest` every
      other key and value of the object (such as `updated_at`) in a canonical serialised
      form. The script never reads `rest`; it only makes two objects equal exactly when
      Python's dictionary comparison says so. */
  datatype PullRequest = PullRequest(
    mergedAt: Option<string>,
    baseRef: string,
    title: string,
    labels: seq<Label>,
    number: nat,
    htmlUrl: string,
    user: User,
    rest: string)

  /** `extract_summary`: what the change log shows of a pull request (`category` is the
      `label` entry). */
  datatype Summary = Summary(
    title: string,
    category: string,
    number: nat,
    url: string,
    user: string,
    userUrl: string,
    avatarUrl: string)

  /** The sort key of `_sort_pull_request_data`. */
  function MergedKey(pr: PullRequest): string {
    match pr.mergedAt
    case Some(t) => t
    case None => NeverMerged
  }

  /** `_sort_pull_request_data`: newest merge first, stable among equal times. */
  function SortPullRequestData(data: seq<PullRequest>): (r: seq<PullRequest>)
    ensures Sorted(r, MergedKey, true)
    ensures multiset(r) == multiset(data)
    ensures forall k :: WithKey(r, MergedKey, k) == WithKey(data, MergedKey, k)
  {
    SortBy(data, MergedKey, true)
  }

  /** A merge time as GitHub writes it sorts after the stand-in for unmerged requests. */
  predicate RealMergeTime(pr: PullRequest) {
    pr.mergedAt.Some? ==> LexLe(NeverMerged, pr.mergedAt.value) && pr.mergedAt.value != NeverMerged
  }

  /** Unmerged pull requests come after every merged one. */
  lemma UnmergedLast(data: seq<PullRequest>, i: nat, j: nat)
    requires forall x :: x in data ==> RealMergeTime(x)
    requires i < j < |SortPullRequestData(data)|
    requires SortPullRequestData(data)[i].mergedAt.None?
    ensures SortPullRequestData(data)[j].mergedAt.None?
  {
    var r := SortPullRequestData(data);
    assert InOrder(r[i], r[j], MergedKey, true);
    if r[j].mergedAt.Some? {
      assert r[j] in multiset(data);
      assert RealMergeTime(r[j]);
      assert LexLe(r[j].mergedAt.value, NeverMerged);
      LexLeAntisymmetric(NeverMerged, r[j].mergedAt.value);
    }
  }

  /** `_get_newest`: the first pull request, or `MissingPullRequestData` for none. */
  function GetNewest(prs: seq<PullRequest>): (r: Result<PullRequest, string>)
    ensures r.Err? <==> prs == []
    ensures r.Ok? ==> r.value == prs[0]
  {
    if |prs| == 0 then Err("Pull request data is empty.") else Ok(prs[0])
  }

  /** After the sort, the newest pull request has the latest merge time of all. */
  lemma NewestOfSorted(data: seq<PullRequest>, x: PullRequest)
    requires x in data
    ensures GetNewest(SortPullRequestData(data)).Ok?
    ensures LexLe(MergedKey(x), MergedKey(GetNewest(SortPullRequestData(data)).value))
  {
    var r := SortPullRequestData(data);
    assert x in multiset(r);
    var k :| 0 <= k < |r| && r[k] == x;
    if k == 0 {
      LexLeReflexive(MergedKey(x));
    } else {
      assert InOrder(r[0], r[k], MergedKey, true);
    }
  }

  /** The base branches a pull request counts as merged into. */
  const MainBranches: set<string> := {"main", "develop"}

  /** `_pull_request_merged_into_main`. */
  predicate MergedIntoMain(pr: PullRequest): (r: bool)
    ensures r <==> pr.mergedAt.Some? && pr.baseRef in MainBranches
  {
    var wasMerged := pr.mergedAt.Some?;
    var mergedIntoMain := pr.baseRef == "main" || pr.baseRef == "develop";
    wasMerged && mergedIntoMain
  }

  /** The filter applied to each page of pull requests: the merged ones, in order. */
  function KeepMerged(prs: seq<PullRequest>): (r: seq<PullRequest>)
    ensures forall x :: x in r <==> x in prs && MergedIntoMain(x)
  {
    if prs == [] then []
    else (if MergedIntoMain(prs[0]) then [prs[0]] else []) + KeepMerged(prs[1..])
  }

  /** Filtering a concatenation filters each part. */
  lemma {:induction false} KeepMergedAppend(a: seq<PullRequest>, b: seq<PullRequest>)
    ensures KeepMerged(a + b) == KeepMerged(a) + KeepMerged(b)
    decreases |a|
  {
    if a == [] {
      assert a + b == b;
    } else {
      assert (a + b)[0] == a[0] && (a + b)[1..] == a[1..] + b;
      KeepMergedAppend(a[1..], b);
      var head := if MergedIntoMain(a[0]) then [a[0]] else [];
      assert KeepMerged(a + b) == head + (KeepMerged(a[1..]) + KeepMerged(b));
    }
  }

  /** Filtering keeps the order of a sorted list. */
  lemma {:induction false} KeepMergedSorted(prs: seq<PullRequest>, key: PullRequest -> string, descending: bool)
    requires Sorted(prs, key, descending)
    ensures Sorted(KeepMerged(prs), key, descending)
    decreases |prs|
  {
    if prs != [] {
      var tail := KeepMerged(prs[1..]);
      assert Sorted(prs[1..], key, descending) by {
        forall i, j | 0 <= i < j < |prs[1..]| ensures InOrder(prs[1..][i], prs[1..][j], key, descending) {
          assert prs[1..][i] == prs[i + 1] && prs[1..][j] == prs[j + 1];
        }
      }
      KeepMergedSorted(prs[1..], key, descending);
      if MergedIntoMain(prs[0]) {
        var r := [prs[0]] + tail;
        forall i, j | 0 <= i < j < |r| ensures InOrder(r[i], r[j], key, descending) {
          if i == 0 {
            assert r[j] == tail[j - 1] && r[j] in prs[1..];
            var m :| 0 <= m < |prs[1..]| && prs[1..][m] == r[j];
            assert prs[m + 1] == r[j];
          } else {
            assert r[i] == tail[i - 1] && r[j] == tail[j - 1];
          }
        }
      }
    }
  }

  /** Every merged pull request, sorted, as one page of `_ask_github_for_pull_request_data`
      leaves it. */
  function MergedPage(page: seq<PullRequest>): seq<PullRequest> {
    KeepMerged(SortPullRequestData(page))
  }

  /** A page is newest merge first. */
  lemma MergedPageSorted(page: seq<PullRequest>)
    ensures Sorted(MergedPage(page), MergedKey, true)
  {
    KeepMergedSorted(SortPullRequestData(page), MergedKey, true);
  }

  /** A page holds exactly the pull requests of the response that were merged into
      `main` or `develop`. */
  lemma MergedPageContents(page: seq<PullRequest>, x: PullRequest)
    ensures x in MergedPage(page) <==> x in page && MergedIntoMain(x)
  {
    var r := SortPullRequestData(page);
    assert x in r <==> x in multiset(r);
    assert x in page <==> x in multiset(page);
  }

  /** `add_entry_to_database` on the list `db`: the new list, and whether it grew. */
  function WithEntry(db: seq<PullRequest>, pr: PullRequest): (seq<PullRequest>, bool) {
    if pr !in db then (db + [pr], true) else (db, false)
  }

  /** `add_all_entries_to_database` on the list `db`, without the file write. */
  function WithEntries(db: seq<PullRequest>, prs: seq<PullRequest>): (seq<PullRequest>, bool) {
    if prs == [] then (db, true)
    else
      var (db', allNew) := WithEntries(db, prs[..|prs| - 1]);
      var (db'', added) := WithEntry(db', prs[|prs| - 1]);
      (db'', allNew && added)
  }

  /** The database keeps its entries and gains exactly the requests it lacked. */
  lemma {:induction false} AddAllContents(db: seq<PullRequest>, prs: seq<PullRequest>, x: PullRequest)
    ensures db <= WithEntries(db, prs).0
    ensures x in WithEntries(db, prs).0 <==> x in db || x in prs
    decreases |prs|
  {
    if prs != [] {
      var init := prs[..|prs| - 1];
      AddAllContents(db, init, x);
      assert prs == init + [prs[|prs| - 1]];
    }
  }

  /** The database never gains a duplicate. */
  lemma {:induction false} AddAllNoDuplicates(db: seq<PullRequest>, prs: seq<PullRequest>)
    requires NoDuplicates(db)
    ensures NoDuplicates(WithEntries(db, prs).0)
    decreases |prs|
  {
    if prs != [] {
      AddAllNoDuplicates(db, prs[..|prs| - 1]);
    }
  }

  /** The result is true exactly when every request was new: absent from the database
      and not repeated. */
  lemma {:induction false} AddAllAllNew(db: seq<PullRequest>, prs: seq<PullRequest>)
    ensures WithEntries(db, prs).1 <==> NoDuplicates(prs) && forall x :: x in prs ==> x !in db
    decreases |prs|
  {
    if prs != [] {
      var init := prs[..|prs| - 1];
      var last := prs[|prs| - 1];
      AddAllAllNew(db, init);
      AddAllContents(db, init, last);
      assert prs == init + [last];
      if NoDuplicates(prs) {
        forall i, j | 0 <= i < j < |init| ensures init[i] != init[j] {
          assert init[i] == prs[i] && init[j] == prs[j];
        }
        assert last !in init by {
          forall i | 0 <= i < |init| ensures init[i] != last {
            assert init[i] == prs[i];
          }
        }
      }
      if WithEntries(db, prs).1 {
        forall i, j | 0 <= i < j < |prs| ensures prs[i] != prs[j] {
          if j == |prs| - 1 {
            assert prs[i] == init[i];
          } else {
            assert prs[i] == init[i] && prs[j] == init[j];
          }
        }
      }
    }
  }

  /** The global `pull_request_database`. */
  class Database {
    var entries: seq<PullRequest>

    ghost predicate Valid()
      reads this
    {
      NoDuplicates(entries)
    }

    constructor()
      ensures Valid() && entries == []
    {
      entries := [];
    }

    /** `add_entry_to_database`. */
    method AddEntry(pr: PullRequest) returns (added: bool)
      requires Valid()
      modifies this
      ensures Valid()
      ensures added <==> pr !in old(entries)
      ensures entries == if added then old(entries) + [pr] else old(entries)
    {
      if pr !in entries {
        entries := entries + [pr];
        return true;
      }
      return false;
    }

    /** `add_all_entries_to_database`, without the file write. */
    method AddAllEntries(prs: seq<PullRequest>) returns (addedAll: bool)
      requires Valid()
      modifies this
      ensures Valid()
      ensures (entries, addedAll) == WithEntries(old(entries), prs)
    {
      addedAll := true;
      for i := 0 to |prs|
        invariant Valid()
        invariant (entries, addedAll) == WithEntries(old(entries), prs[..i])
      {
        TakeSnoc(prs, i);
        var added := AddEntry(prs[i]);
        if !added {
          addedAll := false;
        }
      }
      assert prs[..|prs|] == prs;
    }

    /** The selection over the database sorted again first, as the comment at the call in
        `main` describes it: every pull request merged between the two times. */
    method GetQualifyingSorted(startTime: string, endTime: string) returns (q: seq<PullRequest>)
      requires Valid() && AllMerged(entries)
      modifies this
      ensures Valid() && entries == SortPullRequestData(old(entries))
      ensures q == QualifyingSorted(old(entries), startTime, endTime)
    {
      var sorted := SortPullRequestData(entries);
      NoDuplicatesPermutation(entries, sorted);
      forall k | 0 <= k < |sorted| ensures sorted[k].mergedAt.Some? {
        assert sorted[k] in multiset(entries);
      }
      entries := sorted;
      q := GetQualifying(startTime, endTime);
    }

    /** `get_qualifying_pull_requests`: one pass over the database with the
        `end_time_found`, `start_time_found` and `range_complete` flags. */
    method GetQualifying(startTime: string, endTime: string) returns (q: seq<PullRequest>)
      requires AllMerged(entries)
      ensures q == Qualifying(entries, startTime, endTime)
    {
      var db := entries;
      ghost var e := FirstAtOrBefore(db, endTime, 0);
      ghost var s := WindowEnd(db, startTime, e);
      q := [];
      var n := |db|;
      var rangeComplete := false;
      var endFound := false;
      var startFound := false;
      var i := 0;
      while !rangeComplete && i < n
        invariant 0 <= i <= n == |db|
        invariant endFound <==> e < i
        invariant startFound <==> endFound && s < i
        invariant rangeComplete <==> startFound
        invariant startFound ==> i == s + 1
        invariant q == if !endFound then [] else if !startFound then db[e..i] else db[e..s]
        decreases n - i
      {
        var entry := db[i];
        var mergedAt := entry.mergedAt.value;
        assert mergedAt == MergedKey(db[i]);
        if !endFound {
          if LexLe(mergedAt, endTime) {
            endFound := true;
          }
        } else if !startFound {
          if LexLt(mergedAt, startTime) {
            startFound := true;
          }
        }
        if endFound && !startFound {
          q := q + [entry];
        }
        if startFound && endFound {
          rangeComplete := true;
        }
        i := i + 1;
      }
    }
  }

  // ---------------------------------------------------------------------------
  // `git tag -v` output

  /** A line with a space: it splits on `' '` into more than one piece. */
  predicate HasSpace(line: string) {
    |Split(line, " ")| > 1
  }

  /** `parts[0]`. */
  function TagKey(line: string): string {
    Split(line, " ")[0]
  }

  /** `' '.join(parts[1:])`. */
  function TagValue(line: string): string {
    Join(Split(line, " ")[1..], " ")
  }

  /** The dictionary `_parse_tag_output` has built after `lines`. */
  function TagData(lines: seq<string>): map<string, string> {
    if lines == [] then map[]
    else
      var data := TagData(lines[..|lines| - 1]);
      var line := lines[|lines| - 1];
      if HasSpace(line) then data[TagKey(line) := TagValue(line)] else data
  }

  /** A line with a space maps the text before its first space to exactly the text after
      it; a line without one is skipped. */
  lemma TagLine(line: string)
    ensures HasSpace(line) <==> Find(line, " ").Some?
    ensures HasSpace(line) ==>
      TagKey(line) == line[..Find(line, " ").value] && TagValue(line) == line[Find(line, " ").value + 1..]
  {
    match Find(line, " ")
    case None => SplitNone(line, " ");
    case Some(i) => SplitAtFirst(line, " ", i);
  }

  /** The value kept for a key is that of the last line with the key. */
  lemma {:induction false} TagDataLast(lines: seq<string>, j: nat)
    requires j < |lines| && HasSpace(lines[j])
    requires forall k :: j < k < |lines| && HasSpace(lines[k]) ==> TagKey(lines[k]) != TagKey(lines[j])
    ensures TagKey(lines[j]) in TagData(lines)
    ensures TagData(lines)[TagKey(lines[j])] == TagValue(lines[j])
    decreases |lines|
  {
    var init := lines[..|lines| - 1];
    if j < |lines| - 1 {
      forall k | j < k < |init| && HasSpace(init[k]) ensures TagKey(init[k]) != TagKey(init[j]) {
        assert init[k] == lines[k];
      }
      TagDataLast(init, j);
    }
  }

  /** Every key comes from a line with a space. */
  lemma {:induction false} TagDataKeys(lines: seq<string>, key: string)
    requires key in TagData(lines)
    ensures exists j :: 0 <= j < |lines| && HasSpace(lines[j]) && TagKey(lines[j]) == key
    decreases |lines|
  {
    var init := lines[..|lines| - 1];
    var last := lines[|lines| - 1];
    if !(HasSpace(last) && TagKey(last) == key) {
      TagDataKeys(init, key);
      var j :| 0 <= j < |init| && HasSpace(init[j]) && TagKey(init[j]) == key;
      assert init[j] == lines[j];
    }
  }

  /** `_parse_tag_output`. */
  method ParseTagOutput(output: string) returns (tagData: map<string, string>)
    ensures tagData == TagData(Split(output, "\n"))
  {
    var lines := Split(output, "\n");
    tagData := map[];
    for i := 0 to |lines|
      invariant tagData == TagData(lines[..i])
    {
      TakeSnoc(lines, i);
      var parts := Split(lines[i], " ");
      if |parts| > 1 {
        tagData := tagData[parts[0] := Join(parts[1..], " ")];
      }
    }
    assert lines[..|lines|] == lines;
  }

  /** `tag_is_valid`, given what `git tag -v <tag>` prints. */
  predicate TagIsValid(tag: string, gitOutput: string) {
    tag == "-" || tag == "HEAD" ||
    (var data := TagData(Split(gitOutput, "\n")); "tag" in data && data["tag"] == tag)
  }

  /** `-` and `HEAD` are accepted whatever git prints. */
  lemma TagShortcuts(gitOutput: string)
    ensures TagIsValid("-", gitOutput) && TagIsValid("HEAD", gitOutput)
  {
  }

  /** A signed tag whose last `tag` line names it is valid. */
  lemma TagLineValid(tag: string, gitOutput: string, j: nat)
    requires j < |Split(gitOutput, "\n")| && Split(gitOutput, "\n")[j] == "tag " + tag
    requires forall k :: j < k < |Split(gitOutput, "\n")| ==> !StartsWith(Split(gitOutput, "\n")[k], "tag ")
    ensures TagIsValid(tag, gitOutput)
  {
    var lines := Split(gitOutput, "\n");
    var line := "tag " + tag;
    assert line[3..][..1] == " ";
    assert Find(line[3..], " ") == Some(0);
    assert line[2..][1..] == line[3..] && line[2..][..1] == "g";
    assert Find(line[2..], " ") == Some(1);
    assert line[1..][1..] == line[2..] && line[1..][..1] == "a";
    assert Find(line[1..], " ") == Some(2);
    assert line[..1] == "t";
    assert Find(line, " ") == Some(3);
    TagLine(line);
    assert TagKey(line) == "tag" && TagValue(line) == tag;
    forall k | j < k < |lines| && HasSpace(lines[k]) ensures TagKey(lines[k]) != "tag" {
      TagLine(lines[k]);
      var i := Find(lines[k], " ").value;
      FindSpec(lines[k], " ");
      if lines[k][..i] == "tag" {
        assert false;
      }
    }
    TagDataLast(lines, j);
  }

  // ---------------------------------------------------------------------------
  // The pull requests between two tags

  /** Python's `a < b` on strings. */
  predicate LexLt(a: string, b: string) {
    LexLe(a, b) && a != b
  }

  predicate AllMerged(db: seq<PullRequest>) {
    forall k :: 0 <= k < |db| ==> db[k].mergedAt.Some?
  }

  /** The first index from `from` on whose merge time is at or before `t`. */
  function FirstAtOrBefore(db: seq<PullRequest>, t: string, from: nat): (r: nat)
    requires from <= |db|
    ensures from <= r <= |db|
    ensures forall k :: from <= k < r ==> !LexLe(MergedKey(db[k]), t)
    ensures r < |db| ==> LexLe(MergedKey(db[r]), t)
    decreases |db| - from
  {
    if from == |db| || LexLe(MergedKey(db[from]), t) then from
    else FirstAtOrBefore(db, t, from + 1)
  }

  /** The first index from `from` on whose merge time is before `t`. */
  function FirstBefore(db: seq<PullRequest>, t: string, from: nat): (r: nat)
    requires from <= |db|
    ensures from <= r <= |db|
    ensures forall k :: from <= k < r ==> !LexLt(MergedKey(db[k]), t)
    ensures r < |db| ==> LexLt(MergedKey(db[r]), t)
    decreases |db| - from
  {
    if from == |db| || LexLt(MergedKey(db[from]), t) then from
    else FirstBefore(db, t, from + 1)
  }

  /** The index after the last qualifying entry, once the first one is at `e`. */
  function WindowEnd(db: seq<PullRequest>, startTime: string, e: nat): nat
    requires e <= |db|
  {
    if e < |db| then FirstBefore(db, startTime, e + 1) else |db|
  }

  /** What `get_qualifying_pull_requests` returns: from the first entry merged at or before
      `endTime` up to, not including, the next entry after it merged before `startTime`. */
  function Qualifying(db: seq<PullRequest>, startTime: string, endTime: string): seq<PullRequest> {
    var e := FirstAtOrBefore(db, endTime, 0);
    db[e..WindowEnd(db, startTime, e)]
  }

  /** The selection over the database sorted newest merge first, as `load_database`
      leaves it. */
  function QualifyingSorted(db: seq<PullRequest>, startTime: string, endTime: string): seq<PullRequest> {
    Qualifying(SortPullRequestData(db), startTime, endTime)
  }

  /** The sorted selection takes its entries from the database. */
  lemma QualifyingSortedFromDatabase(db: seq<PullRequest>, startTime: string, endTime: string, x: PullRequest)
    requires x in QualifyingSorted(db, startTime, endTime)
    ensures x in db
  {
    var r := SortPullRequestData(db);
    var e := FirstAtOrBefore(r, endTime, 0);
    assert x in r[e..WindowEnd(r, startTime, e)];
    assert x in multiset(r);
  }

  /** Every entry of the sorted selection after the first lies between the two times. */
  lemma QualifyingSortedInWindow(db: seq<PullRequest>, startTime: string, endTime: string, i: nat)
    requires 0 < i < |QualifyingSorted(db, startTime, endTime)|
    ensures LexLe(startTime, MergedKey(QualifyingSorted(db, startTime, endTime)[i]))
    ensures LexLe(MergedKey(QualifyingSorted(db, startTime, endTime)[i]), endTime)
  {
    QualifyingInWindow(SortPullRequestData(db), startTime, endTime, i);
  }

  /** The sorted selection holds every entry of the database merged between the two
      times, wherever the entry stands in the database. */
  lemma QualifyingSortedComplete(db: seq<PullRequest>, startTime: string, endTime: string, x: PullRequest)
    requires x in db && LexLe(startTime, MergedKey(x)) && LexLe(MergedKey(x), endTime)
    ensures x in QualifyingSorted(db, startTime, endTime)
  {
    var r := SortPullRequestData(db);
    assert x in multiset(db);
    assert x in r;
    var k :| 0 <= k < |r| && r[k] == x;
    QualifyingComplete(r, startTime, endTime, k);
  }

  /** After an update the list is the loaded, sorted entries followed by the new ones, so
      it is no longer sorted. The pass then misses an entry merged inside the window:
      here `pd`, appended after the older `pa`. The sorted selection keeps it. */
  lemma UnsortedWindowMissed(pa: PullRequest, pc: PullRequest, pd: PullRequest)
    requires pa.mergedAt == Some("a") && pc.mergedAt == Some("c") && pd.mergedAt == Some("d")
    ensures LexLe("b", MergedKey(pd)) && LexLe(MergedKey(pd), "e")
    ensures Qualifying([pc, pa, pd], "b", "e") == [pc]
    ensures pd !in Qualifying([pc, pa, pd], "b", "e")
    ensures pd in QualifyingSorted([pc, pa, pd], "b", "e")
  {
    var db := [pc, pa, pd];
    assert MergedKey(pa) == "a" && MergedKey(pc) == "c" && MergedKey(pd) == "d";
    assert FirstAtOrBefore(db, "e", 0) == 0 by {
      assert LexLe("c", "e");
    }
    assert FirstBefore(db, "b", 1) == 1 by {
      assert LexLt("a", "b");
    }
    assert Qualifying(db, "b", "e") == [pc] by {
      assert db[0..1] == [pc];
    }
    assert pd != pc by {
      assert "d" != "c";
    }
    assert LexLe("b", "d") && LexLe("d", "e");
    QualifyingSortedComplete(db, "b", "e", pd);
  }

  /** On a database sorted newest first, every entry after the first lies between the two
      times, both included. */
  lemma QualifyingInWindow(db: seq<PullRequest>, startTime: string, endTime: string, i: nat)
    requires Sorted(db, MergedKey, true)
    requires 0 < i < |Qualifying(db, startTime, endTime)|
    ensures LexLe(startTime, MergedKey(Qualifying(db, startTime, endTime)[i]))
    ensures LexLe(MergedKey(Qualifying(db, startTime, endTime)[i]), endTime)
  {
    var e := FirstAtOrBefore(db, endTime, 0);
    var p := e + i;
    assert Qualifying(db, startTime, endTime)[i] == db[p];
    var m := MergedKey(db[p]);
    assert !LexLt(m, startTime);
    LexLeTotal(m, startTime);
    if m == startTime { LexLeReflexive(m); }
    assert InOrder(db[e], db[p], MergedKey, true);
    LexLeTransitive(m, MergedKey(db[e]), endTime);
  }

  /** On a database sorted newest first, every entry merged between the two times, both
      included, is selected. */
  lemma QualifyingComplete(db: seq<PullRequest>, startTime: string, endTime: string, k: nat)
    requires Sorted(db, MergedKey, true)
    requires k < |db| && LexLe(startTime, MergedKey(db[k])) && LexLe(MergedKey(db[k]), endTime)
    ensures db[k] in Qualifying(db, startTime, endTime)
  {
    var e := FirstAtOrBefore(db, endTime, 0);
    assert e <= k;
    var s := WindowEnd(db, startTime, e);
    if k >= s {
      assert LexLt(MergedKey(db[s]), startTime);
      if k > s {
        assert InOrder(db[s], db[k], MergedKey, true);
        LexLeTransitive(startTime, MergedKey(db[k]), MergedKey(db[s]));
      }
      LexLeAntisymmetric(startTime, MergedKey(db[s]));
      assert false;
    }
    assert db[k] == db[e..s][k - e];
  }

  /** The first entry at or before `endTime` is selected even when it is also before
      `startTime`: the `elif` does not look at it again. */
  lemma FirstEntryAlwaysKept(pr: PullRequest)
    requires pr.mergedAt == Some("a")
    ensures Qualifying([pr], "b", "c") == [pr]
    ensures LexLt(MergedKey(pr), "b")
  {
    assert FirstAtOrBefore([pr], "c", 0) == 0;
  }

  // ---------------------------------------------------------------------------
  // Summaries and the change log

  /** `extract_label`: the first label's name, or `No category`. */
  function ExtractLabel(pr: PullRequest): (r: string)
    ensures |pr.labels| > 0 && pr.labels[0].name.Some? ==> r == pr.labels[0].name.value
    ensures !(|pr.labels| > 0 && pr.labels[0].name.Some?) ==> r == NoCategory
  {
    if |pr.labels| > 0 && pr.labels[0].name.Some? then pr.labels[0].name.value else NoCategory
  }

  /** `extract_summary`. */
  function ExtractSummary(pr: PullRequest): (r: Summary)
    ensures r.title == pr.title && r.category == ExtractLabel(pr) && r.number == pr.number
    ensures r.url == pr.htmlUrl
    ensures r.user == pr.user.login && r.userUrl == pr.user.url && r.avatarUrl == pr.user.avatarUrl
  {
    Summary(pr.title, ExtractLabel(pr), pr.number, pr.htmlUrl, pr.user.login, pr.user.url, pr.user.avatarUrl)
  }

  function Category(s: Summary): string {
    s.category
  }

  /** `_sort_summary_data`: by label, and within a label in the order given. */
  function SortSummaryData(data: seq<Summary>): (r: seq<Summary>)
    ensures Sorted(r, Category, false)
    ensures multiset(r) == multiset(data)
    ensures forall k :: WithKey(r, Category, k) == WithKey(data, Category, k)
  {
    SortBy(data, Category, false)
  }

  /** `_get_display_name_for_tag`. */
  function DisplayName(tag: string): (r: string)
    ensures tag == "HEAD" ==> r == "latest"
    ensures tag != "HEAD" ==> r == tag
  {
    if tag == "HEAD" then "latest" else tag
  }

  /** `changelog_<display name>.rst`. */
  function ChangelogFileName(tagEnd: string): (r: string)
    ensures tagEnd == "HEAD" ==> r == "changelog_latest.rst"
    ensures tagEnd != "HEAD" ==> r == "changelog_" + tagEnd + ".rst"
  {
    "changelog_" + DisplayName(tagEnd) + ".rst"
  }

  /** A title without one trailing full stop. */
  function StripFullStop(title: string): (r: string)
    ensures EndsWith(title, ".") ==> r + "." == title
    ensures !EndsWith(title, ".") ==> r == title
  {
    if EndsWith(title, ".") then title[..|title| - 1] else title
  }

  /** A label heading: the label, underlined with as many `=`. */
  function Heading(category: string): string {
    "\n" + category + "\n" + Repeat('=', |category|) + "\n\n"
  }

  function Bullet(s: Summary): string {
    "* " + StripFullStop(s.title) + " by `@" + s.user + " <" + s.userUrl + ">`_ [`#"
    + NatToString(s.number) + " <" + s.url + ">`_].\n"
  }

  /** The label current when summary `i` is reached. */
  function LabelBefore(summaries: seq<Summary>, i: nat): string
    requires i <= |summaries|
  {
    if i == 0 then "" else summaries[i - 1].category
  }

  predicate HeadingAt(summaries: seq<Summary>, i: nat)
    requires i < |summaries|
  {
    summaries[i].category != LabelBefore(summaries, i)
  }

  /** The text written for the summaries. */
  function Entries(summaries: seq<Summary>): string {
    if summaries == [] then ""
    else
      var i := |summaries| - 1;
      Entries(summaries[..i]) + (if HeadingAt(summaries, i) then Heading(summaries[i].category) else "")
      + Bullet(summaries[i])
  }

  /** The image directive for one avatar. */
  function Image(c: string): string {
    ".. image:: " + c + "\n   :target: " + c + "\n   :height: 24\n   :width: 24\n"
  }

  function Images(contributors: seq<string>): string {
    if contributors == [] then ""
    else Images(contributors[..|contributors| - 1]) + Image(contributors[|contributors| - 1])
  }

  /** `Contributors`, underlined with as many `-`. */
  const ContributorsHeading: string := "\nContributors\n" + Repeat('-', 12) + "\n\n"

  /** The contributor section, for the avatars in the order the set gives them. */
  function ContributorSection(contributors: seq<string>): string {
    (if contributors != [] then ContributorsHeading else "") + Images(contributors)
  }

  /** The contents of the change log file. */
  function Changelog(summaries: seq<Summary>, contributors: seq<string>): string {
    Entries(summaries) + ContributorSection(contributors)
  }

  /** The avatar of every summary, in order. */
  function Avatars(summaries: seq<Summary>): seq<string> {
    if summaries == [] then [] else Avatars(summaries[..|summaries| - 1]) + [summaries[|summaries| - 1].avatarUrl]
  }

  /** `contributors` lists each avatar of `summaries` once, in some order. */
  ghost predicate ListsAvatars(contributors: seq<string>, summaries: seq<Summary>) {
    NoDuplicates(contributors) && forall c :: c in contributors <==> c in Avatars(summaries)
  }

  /** Every label that is not empty gets a heading at the first summary of its run. */
  lemma {:induction false} HeadingForEveryLabel(summaries: seq<Summary>, i: nat)
    requires i < |summaries| && summaries[i].category != ""
    ensures exists j :: 0 <= j <= i && HeadingAt(summaries, j) && summaries[j].category == summaries[i].category
    decreases i
  {
    if !HeadingAt(summaries, i) {
      HeadingForEveryLabel(summaries, i - 1);
    }
  }

  /** After the sort by label, no label gets two headings. */
  lemma HeadingOncePerLabel(summaries: seq<Summary>, i: nat, j: nat)
    requires Sorted(summaries, Category, false)
    requires i < j < |summaries| && HeadingAt(summaries, i) && HeadingAt(summaries, j)
    ensures summaries[i].category != summaries[j].category
  {
    if summaries[i].category == summaries[j].category {
      var l := summaries[j - 1].category;
      if j - 1 > i {
        assert InOrder(summaries[i], summaries[j - 1], Category, false);
      } else {
        LexLeReflexive(l);
      }
      assert InOrder(summaries[j - 1], summaries[j], Category, false);
      LexLeAntisymmetric(l, summaries[j].category);
      assert false;
    }
  }

  /** One pass of the loop of `write_out_to_changelog_file`: a heading when the label
      changes, then the summary's line. */
  method WriteEntry(summaries: seq<Summary>, i: nat, currentLabel: string, text: string)
    returns (label': string, text': string)
    requires i < |summaries| && currentLabel == LabelBefore(summaries, i)
    requires text == Entries(summaries[..i])
    ensures label' == LabelBefore(summaries, i + 1)
    ensures text' == Entries(summaries[..i + 1])
  {
    var done := summaries[..i + 1];
    assert done[..i] == summaries[..i];
    assert done[i] == summaries[i];
    assert LabelBefore(done, i) == currentLabel;
    var summary := summaries[i];
    label' := currentLabel;
    text' := text;
    if label' != summary.category {
      label' := summary.category;
      text' := text' + Heading(label');
    }
    text' := text' + Bullet(summary);
  }

  /** The contributor section, written when there were summaries. */
  method WriteContributors(any: bool, contributors: seq<string>) returns (section: string)
    requires any <==> contributors != []
    ensures section == ContributorSection(contributors)
  {
    section := if any then ContributorsHeading else "";
    ghost var heading := section;
    for i := 0 to |contributors|
      invariant section == heading + Images(contributors[..i])
    {
      var image := Image(contributors[i]);
      assert Images(contributors[..i + 1]) == Images(contributors[..i]) + image by {
        assert contributors[..i + 1][..i] == contributors[..i];
      }
      AppendAssoc(heading, Images(contributors[..i]), image);
      section := section + image;
    }
    assert contributors[..|contributors|] == contributors;
  }

  /** `write_out_to_changelog_file`, returning the name of the file and the text it writes; `contributors` is the
      order in which `list(set(...))` yields the avatars. */
  method WriteChangelog(summaries: seq<Summary>, tagEnd: string, contributors: seq<string>)
    returns (fileName: string, text: string)
    requires ListsAvatars(contributors, summaries)
    ensures fileName == ChangelogFileName(tagEnd)
    ensures text == Changelog(summaries, contributors)
  {
    var currentLabel := "";
    fileName := "changelog_" + DisplayName(tagEnd) + ".rst";
    text := "";
    var avatars: seq<string> := [];
    for i := 0 to |summaries|
      invariant currentLabel == LabelBefore(summaries, i)
      invariant text == Entries(summaries[..i])
      invariant avatars == Avatars(summaries[..i])
    {
      currentLabel, text := WriteEntry(summaries, i, currentLabel, text);
      TakeSnoc(summaries, i);
      avatars := avatars + [summaries[i].avatarUrl];
    }
    assert summaries[..|summaries|] == summaries;
    if avatars != [] {
      assert avatars[0] in contributors;
    }
    if contributors != [] {
      assert contributors[0] in avatars;
    }
    var section := WriteContributors(avatars != [], contributors);
    text := text + section;
  }
}
