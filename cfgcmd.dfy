/**
  * `misc/convert_cmake_extproj_cfgcmd.py`: reads the configure command CMake recorded
  * for an external project (`cmd='...'` in a `*-cfgcmd.txt` file), drops the
  * `;<SOURCE_DIR><SOURCE_SUBDIR>` argument, splits the rest on `;`, restores the
  * `<semi-colon>` placeholder inside each argument, quotes the value of `-D`/`-G`
  * arguments that hold a `;` or whitespace, and prints the arguments each preceded by
  * a space.
  */
module CfgCmd {
  import opened Wrappers
  import opened Strings

  const CmdOpen: string := "cmd='"
  const SourceDirArgument: string := ";<SOURCE_DIR><SOURCE_SUBDIR>"
  const SemiColonPlaceholder: string := "<semi-colon>"

  /** How the script ends: the printed command, an exit status, or the exception raised
      when an argument to quote holds neither `-D` nor `-G`. */
  datatype Outcome = Printed(command: string) | Exit(status: int) | Crash

  /** The text up to the first newline: what the regex `.` may cover. */
  function LineOf(s: string): (r: string)
    ensures StartsWith(s, r)
    ensures forall k :: 0 <= k < |r| ==> r[k] != '\n'
    ensures |r| < |s| ==> s[|r|] == '\n'
  {
    if s == [] || s[0] == '\n' then [] else [s[0]] + LineOf(s[1..])
  }

  /** A line start without a newline stays on the line. */
  lemma {:induction false} LineOfAppend(a: string, t: string)
    requires forall k :: 0 <= k < |a| ==> a[k] != '\n'
    ensures LineOf(a + t) == a + LineOf(t)
    decreases |a|
  {
    if a == [] {
      assert a + t == t;
    } else {
      assert (a + t)[0] == a[0];
      assert (a + t)[1..] == a[1..] + t;
      LineOfAppend(a[1..], t);
    }
  }

  /** `cmd='(.*)'` tried at the start of `s`: the greedy group runs to the last quote on
      the line, and there is no match without one. */
  function CmdAt(s: string): Option<string>
    requires StartsWith(s, CmdOpen)
  {
    var line := LineOf(s[|CmdOpen|..]);
    match LastIndexOf(line, '\'')
    case None => None
    case Some(k) => Some(line[..k])
  }

  /** `re.search("cmd='(.*)'", contents).group(1)`, tried at every position in turn. */
  function FindCmd(s: string): Option<string>
    decreases |s|
  {
    if s == [] then None
    else if StartsWith(s, CmdOpen) && CmdAt(s).Some? then CmdAt(s)
    else FindCmd(s[1..])
  }

  /** The command is read from one line. */
  lemma {:induction false} CmdOnOneLine(s: string)
    requires FindCmd(s).Some?
    ensures forall k :: 0 <= k < |FindCmd(s).value| ==> FindCmd(s).value[k] != '\n'
    decreases |s|
  {
    if !(StartsWith(s, CmdOpen) && CmdAt(s).Some?) {
      CmdOnOneLine(s[1..]);
    }
  }

  /** A recorded command is read back whole, quotes inside it included: the group is
      greedy and ends at the last quote of the line. */
  lemma CmdGreedy(body: string, rest: string)
    requires forall k :: 0 <= k < |body| ==> body[k] != '\n'
    requires forall k :: 0 <= k < |LineOf(rest)| ==> LineOf(rest)[k] != '\''
    ensures FindCmd(CmdOpen + (body + ("'" + rest))) == Some(body)
  {
    var s := CmdOpen + (body + ("'" + rest));
    var after := body + ("'" + rest);
    assert s[..|CmdOpen|] == CmdOpen;
    assert s[|CmdOpen|..] == after;
    assert after == (body + "'") + rest;
    LineOfAppend(body + "'", rest);
    var line := LineOf(after);
    assert line == (body + "'") + LineOf(rest);
    assert line[|body|] == '\'';
    assert forall k :: |body| < k < |line| ==> line[k] == LineOf(rest)[k - |body| - 1];
    assert LastIndexOf(line, '\'') == Some(|body|);
    assert line[..|body|] == body;
  }

  /** Regex `;` and `\s` searches. */
  predicate ContainsSemiColon(s: string) {
    Contains(s, ";")
  }

  predicate ContainsSpaces(s: string) {
    exists k | 0 <= k < |s| :: IsSpace(s[k])
  }

  /** `-D` or `-G` at index `i`. */
  predicate FlagAt(s: string, i: nat) {
    i + 1 < |s| && s[i] == '-' && (s[i + 1] == 'D' || s[i + 1] == 'G')
  }

  /** `i` is the first flag of `s`. */
  predicate FirstFlag(s: string, i: nat) {
    FlagAt(s, i) && forall j: nat :: j < i ==> !FlagAt(s, j)
  }

  /** `re.search('-([DG])(.*)', part)`: the letter and the rest of the line after the
      first `-D` or `-G`. */
  function FlagSearch(s: string): Option<(char, string)>
    decreases |s|
  {
    if |s| < 2 then None
    else if FlagAt(s, 0) then Some((s[1], LineOf(s[2..])))
    else FlagSearch(s[1..])
  }

  /** The search finds the first flag, or reports that there is none. */
  lemma {:induction false} FlagSearchSpec(s: string)
    ensures FlagSearch(s).None? <==> forall i: nat :: !FlagAt(s, i)
    ensures FlagSearch(s).Some? ==>
      exists i: nat :: FirstFlag(s, i) && FlagSearch(s).value == (s[i + 1], LineOf(s[i + 2..]))
    decreases |s|
  {
    if |s| >= 2 && !FlagAt(s, 0) {
      FlagSearchSpec(s[1..]);
      forall i: nat ensures FlagAt(s, i + 1) <==> FlagAt(s[1..], i) {
        if i + 2 < |s| { assert s[1..][i] == s[i + 1] && s[1..][i + 1] == s[i + 2]; }
      }
      if FlagSearch(s).Some? {
        var i: nat :| FirstFlag(s[1..], i) && FlagSearch(s[1..]).value == (s[1..][i + 1], LineOf(s[1..][i + 2..]));
        assert s[1..][i + 2..] == s[i + 3..];
        assert s[1..][i + 1] == s[i + 2];
        assert FlagAt(s, i + 1);
        forall j: nat | j < i + 1 ensures !FlagAt(s, j) {
          if j > 0 { assert !FlagAt(s[1..], j - 1); }
        }
        assert FirstFlag(s, i + 1);
        assert FlagSearch(s).value == (s[i + 2], LineOf(s[i + 3..]));
      } else {
        forall i: nat ensures !FlagAt(s, i) {
          if i > 0 { assert !FlagAt(s[1..], i - 1); }
        }
      }
    } else if |s| < 2 {
      forall i: nat ensures !FlagAt(s, i) { }
    } else {
      assert FirstFlag(s, 0);
    }
  }

  /** The argument once the placeholder is restored. */
  function Restored(part: string): string {
    ReplaceAll(part, SemiColonPlaceholder, ";")
  }

  predicate NeedsQuotes(p: string) {
    ContainsSemiColon(p) || ContainsSpaces(p)
  }

  /** One argument as the loop body leaves it, or `None` where the script raises. */
  function RewritePart(part: string): Option<string> {
    var p := Restored(part);
    if NeedsQuotes(p) then
      match FlagSearch(p)
      case None => None
      case Some((letter, value)) => Some("-" + [letter] + "\"" + value + "\"")
    else Some(p)
  }

  /** `extracted_cmd` after the loop over `parts`, or `None` where it raises. */
  function RewriteAll(parts: seq<string>): Option<string> {
    if parts == [] then Some("")
    else
      match RewriteAll(parts[..|parts| - 1])
      case None => None
      case Some(acc) =>
        match RewritePart(parts[|parts| - 1])
        case None => None
        case Some(p) => Some(acc + " " + p)
  }

  /** The arguments of the recorded command. */
  function Arguments(cmd: string): seq<string> {
    Split(ReplaceAll(cmd, SourceDirArgument, ""), ";")
  }

  /** The whole script, from the number of command-line arguments and the file contents. */
  function Convert(argCount: nat, contents: string): Outcome {
    if argCount < 2 then Exit(1)
    else
      match FindCmd(contents)
      case None => Exit(2)
      case Some(cmd) =>
        match RewriteAll(Arguments(cmd))
        case None => Crash
        case Some(out) => Printed(out)
  }

  /** The script raises exactly when one of the arguments needs quotes but holds no flag. */
  lemma {:induction false} CrashIff(parts: seq<string>)
    ensures RewriteAll(parts).None? <==> exists i :: 0 <= i < |parts| && RewritePart(parts[i]).None?
    decreases |parts|
  {
    if parts != [] {
      var init := parts[..|parts| - 1];
      CrashIff(init);
      forall i | 0 <= i < |init| ensures init[i] == parts[i] { }
    }
  }

  /** There is one argument more than there are `;` left once the source-directory
      argument is dropped; a placeholder never separates arguments. */
  lemma ArgumentCount(cmd: string)
    ensures |Arguments(cmd)| == CountChar(ReplaceAll(cmd, SourceDirArgument, ""), ';') + 1
  {
    SplitCount(ReplaceAll(cmd, SourceDirArgument, ""), ';');
  }

  /** An argument without whitespace and without the placeholder is printed as it is. */
  lemma PlainArgumentKept(cmd: string, i: nat)
    requires i < |Arguments(cmd)|
    requires !Contains(Arguments(cmd)[i], SemiColonPlaceholder)
    requires !ContainsSpaces(Arguments(cmd)[i])
    ensures RewritePart(Arguments(cmd)[i]) == Some(Arguments(cmd)[i])
  {
    SplitPiecesFree(ReplaceAll(cmd, SourceDirArgument, ""), ";");
  }

  /** An argument holding the placeholder is always quoted. */
  lemma PlaceholderQuoted(part: string)
    requires Contains(part, SemiColonPlaceholder)
    ensures NeedsQuotes(Restored(part))
  {
    ReplaceAllShowsRep(part, SemiColonPlaceholder, ";");
  }

  /** A quoted argument is its first `-D` or `-G` with the rest of it in double quotes;
      what stands before the flag is dropped. */
  lemma QuotedArgument(part: string)
    requires NeedsQuotes(Restored(part)) && RewritePart(part).Some?
    ensures exists i: nat :: FirstFlag(Restored(part), i) && RewritePart(part).value == "-" + [Restored(part)[i + 1]] + "\"" + LineOf(Restored(part)[i + 2..]) + "\""
  {
    FlagSearchSpec(Restored(part));
  }

  /** An argument that needs quotes but has no flag makes the script raise. */
  lemma QuotedWithoutFlag(part: string)
    requires NeedsQuotes(Restored(part))
    requires forall i: nat :: !FlagAt(Restored(part), i)
    ensures RewritePart(part).None?
  {
    FlagSearchSpec(Restored(part));
  }

  /** With nothing to quote, every `;` of the command becomes a space. */
  lemma {:induction false} PlainCommand(parts: seq<string>)
    requires parts != []
    requires forall i :: 0 <= i < |parts| ==> RewritePart(parts[i]) == Some(parts[i])
    ensures RewriteAll(parts) == Some(" " + Join(parts, " "))
    decreases |parts|
  {
    var init := parts[..|parts| - 1];
    var last := parts[|parts| - 1];
    assert parts == init + [last];
    if init == [] {
      assert parts == [last];
      assert RewriteAll(parts) == Some("" + " " + last);
      assert Join(parts, " ") == last;
      assert "" + " " + last == " " + last;
    } else {
      forall i | 0 <= i < |init| ensures RewritePart(init[i]) == Some(init[i]) {
        assert init[i] == parts[i];
      }
      PlainCommand(init);
      JoinSnoc(init, " ", last);
      assert RewriteAll(parts) == Some(" " + Join(init, " ") + " " + last);
      assert Join(parts, " ") == Join(init, " ") + " " + last;
      assert " " + Join(init, " ") + " " + last == " " + (Join(init, " ") + " " + last);
    }
  }

  /** The body of the loop for one argument; `None` where the script raises. */
  method RewriteArgument(arg: string) returns (r: Option<string>)
    ensures r == RewritePart(arg)
  {
    var part := Restored(arg);
    if NeedsQuotes(part) {
      var spaced := FlagSearch(part);
      if spaced.None? {
        return None;
      }
      var (letter, value) := spaced.value;
      part := "-" + [letter] + "\"" + value + "\"";
    }
    return Some(part);
  }

  /** The script: `main` with the file already read. */
  method ConvertCfgCmd(argCount: nat, contents: string) returns (r: Outcome)
    ensures r == Convert(argCount, contents)
  {
    if argCount < 2 {
      return Exit(1);
    }
    var found := FindCmd(contents);
    if found.None? {
      return Exit(2);
    }
    var cmd := ReplaceAll(found.value, SourceDirArgument, "");
    var splitCmd := Split(cmd, ";");
    var extracted := "";
    for i := 0 to |splitCmd|
      invariant RewriteAll(splitCmd[..i]) == Some(extracted)
    {
      TakeSnoc(splitCmd, i);
      var part := RewriteArgument(splitCmd[i]);
      if part.None? {
        CrashIff(splitCmd);
        return Crash;
      }
      extracted := extracted + " " + part.value;
    }
    assert splitCmd[..|splitCmd|] == splitCmd;
    return Printed(extracted);
  }
}
