/**
 * GitStatusService: reading `git status --porcelain` into a change set,
 * expanding changed directories into their files, and the unpushed-commit
 * count. The subprocesses are oracles: an absent output means the process
 * exited unsuccessfully.
 */
module GitStatus {
  import opened Optional
  import opened PhpText

  /** The two classes every porcelain entry is sorted into. */
  datatype Status = Untracked | Modified

  /** The word the tree view prints for a status. */
  function StatusWord(s: Status): string {
    match s
    case Untracked => "untracked"
    case Modified => "modified"
  }

  /**
   * What `is_dir` and the recursive directory iterator report for a path:
   * not a directory, or a directory whose regular files the iterator yielded
   * (in iteration order) before it either finished or threw.
   */
  datatype FsEntry = NotDirectory | Directory(files: seq<string>, complete: bool)

  /** The `["files" => ..., "statuses" => ...]` array. */
  datatype ChangeSet = ChangeSet(files: seq<string>, statuses: map<string, Status>)

  /** What `getUncommittedChanges` returns: `[]` for a clean tree, otherwise the change set. */
  datatype Changes = Clean | Dirty(changes: ChangeSet)

  /** A non-blank porcelain line: its status code, its normalised path and its class. */
  datatype ParsedLine = ParsedLine(code: string, path: string, status: Status)

  /** Every listed file is known to `statuses`, and no recorded path holds a backslash. */
  predicate Consistent(cs: ChangeSet) {
    && (forall f :: f in cs.files ==> f in cs.statuses && '\\' !in f)
    && (forall k :: k in cs.statuses ==> '\\' !in k)
  }

  /** `str_replace("\\", "/", $p)`. */
  function NormalizeSeparators(p: string): (r: string)
    ensures |r| == |p|
    ensures '\\' !in r
    ensures forall i :: 0 <= i < |p| && p[i] != '\\' ==> r[i] == p[i]
    ensures forall i :: 0 <= i < |p| && p[i] == '\\' ==> r[i] == '/'
  {
    var r := ReplaceChar(p, '\\', '/');
    assert forall i :: 0 <= i < |r| ==> r[i] != '\\';
    r
  }

  lemma NormalizeClean(p: string)
    requires '\\' !in p
    ensures NormalizeSeparators(p) == p
  {
    var r := NormalizeSeparators(p);
    assert forall i :: 0 <= i < |p| ==> r[i] == p[i];
  }

  function NormalizeAll(paths: seq<string>): (r: seq<string>)
    ensures |r| == |paths|
    ensures forall i :: 0 <= i < |r| ==> r[i] == NormalizeSeparators(paths[i])
  {
    seq(|paths|, i requires 0 <= i < |paths| => NormalizeSeparators(paths[i]))
  }

  function Classify(code: string): Status {
    if Trim(code) == "??" then Untracked else Modified
  }

  /**
   * One iteration of the line loop of `parseGitStatusOutput`, up to the
   * status assignment: blank lines give `None`.
   */
  function ParseLine(line: string): (r: Option<ParsedLine>)
    ensures r.None? <==> PhpEmpty(Trim(line))
    ensures r.Some? ==> |r.value.code| <= 2 && '\\' !in r.value.path
    ensures r.Some? ==> (r.value.status == Untracked <==> Trim(r.value.code) == "??")
  {
    if PhpEmpty(Trim(line)) then None
    else
      var code := if |line| >= 2 then line[..2] else line;
      var rest := if |line| >= 3 then line[3..] else "";
      Some(ParsedLine(code, NormalizeSeparators(Trim(rest)), Classify(code)))
  }

  /** The status a file found under `dir` inherits: the directory's, or `modified`. */
  function Inherited(statuses: map<string, Status>, dir: string): Status {
    if dir in statuses then statuses[dir] else Modified
  }

  /** The iterator loop of `addDirectoryFiles` over the files it yielded. */
  function AddListedFiles(dir: string, listing: seq<string>, cs: ChangeSet): (r: ChangeSet)
    ensures r.files == cs.files + NormalizeAll(listing)
    ensures cs.statuses.Keys <= r.statuses.Keys
    ensures forall k :: k in r.statuses ==> k in cs.statuses || k in NormalizeAll(listing)
    ensures forall f :: f in NormalizeAll(listing) ==> f in r.statuses && r.statuses[f] == Inherited(cs.statuses, dir)
    ensures forall k :: k in cs.statuses && k !in NormalizeAll(listing) ==> r.statuses[k] == cs.statuses[k]
    ensures Inherited(r.statuses, dir) == Inherited(cs.statuses, dir)
    decreases |listing|
  {
    if listing == [] then
      assert NormalizeAll(listing) == [];
      cs
    else
      var full := NormalizeSeparators(listing[0]);
      var next := ChangeSet(cs.files + [full], cs.statuses[full := Inherited(cs.statuses, dir)]);
      assert NormalizeAll(listing) == [full] + NormalizeAll(listing[1..]);
      AddListedFiles(dir, listing[1..], next)
  }

  /**
   * `addDirectoryFiles`: the yielded files, each with the directory's status;
   * when the iterator threw, the directory path itself is appended as well.
   */
  function AddDirectoryFiles(dir: string, listing: seq<string>, complete: bool, cs: ChangeSet): (r: ChangeSet)
    ensures r.files == cs.files + NormalizeAll(listing) + (if complete then [] else [dir])
    ensures forall f :: f in NormalizeAll(listing) ==> f in r.statuses && r.statuses[f] == Inherited(cs.statuses, dir)
    ensures dir in cs.statuses ==> dir in r.statuses && r.statuses[dir] == cs.statuses[dir]
    ensures cs.statuses.Keys <= r.statuses.Keys
    ensures forall k :: k in r.statuses ==> k in cs.statuses || k in NormalizeAll(listing)
    ensures forall k :: k in cs.statuses && k !in NormalizeAll(listing) ==> r.statuses[k] == cs.statuses[k]
    ensures Consistent(cs) && dir in cs.statuses ==> Consistent(r)
  {
    var listed := AddListedFiles(dir, listing, cs);
    if complete then listed else ChangeSet(listed.files + [dir], listed.statuses)
  }

  /** The files one porcelain line contributes, in order (the reference for the file list). */
  function LineFiles(line: string, fs: string -> FsEntry): seq<string> {
    match ParseLine(line)
    case None => []
    case Some(p) => ParsedFiles(p, fs)
  }

  function AllLineFiles(lines: seq<string>, fs: string -> FsEntry): seq<string> {
    if lines == [] then [] else LineFiles(lines[0], fs) + AllLineFiles(lines[1..], fs)
  }

  /** The files one parsed line contributes: its path, or the directory's files. */
  function ParsedFiles(p: ParsedLine, fs: string -> FsEntry): seq<string> {
    match fs(p.path)
    case NotDirectory => [p.path]
    case Directory(listing, complete) => NormalizeAll(listing) + (if complete then [] else [p.path])
  }

  /** Recording one non-blank line: its status, then its path or its directory's files. */
  function AddParsedLine(cs: ChangeSet, p: ParsedLine, fs: string -> FsEntry): (r: ChangeSet)
    requires '\\' !in p.path
    ensures r.files == cs.files + ParsedFiles(p, fs)
    ensures cs.statuses.Keys <= r.statuses.Keys
    ensures Consistent(cs) ==> Consistent(r)
    ensures p.path in r.statuses && r.statuses[p.path] == p.status
    ensures fs(p.path).Directory? ==>
              forall f :: f in NormalizeAll(fs(p.path).files) ==> f in r.statuses && r.statuses[f] == p.status
  {
    var marked := ChangeSet(cs.files, cs.statuses[p.path := p.status]);
    match fs(p.path)
    case NotDirectory => ChangeSet(marked.files + [p.path], marked.statuses)
    case Directory(listing, complete) => AddDirectoryFiles(p.path, listing, complete, marked)
  }

  lemma AppendAssoc<T>(a: seq<T>, b: seq<T>, c: seq<T>)
    ensures (a + b) + c == a + (b + c)
  {
  }

  lemma AllLineFilesCons(lines: seq<string>, fs: string -> FsEntry)
    requires lines != []
    ensures AllLineFiles(lines, fs) == LineFiles(lines[0], fs) + AllLineFiles(lines[1..], fs)
  {
  }

  /** One iteration of the line loop of `parseGitStatusOutput`. */
  function AddLine(cs: ChangeSet, line: string, fs: string -> FsEntry): (r: ChangeSet)
    ensures r.files == cs.files + LineFiles(line, fs)
    ensures cs.statuses.Keys <= r.statuses.Keys
    ensures Consistent(cs) ==> Consistent(r)
  {
    match ParseLine(line)
    case None => cs
    case Some(p) => AddParsedLine(cs, p, fs)
  }

  function AddLines(cs: ChangeSet, lines: seq<string>, fs: string -> FsEntry): (r: ChangeSet)
    ensures r.files == cs.files + AllLineFiles(lines, fs)
    ensures cs.statuses.Keys <= r.statuses.Keys
    ensures Consistent(cs) ==> Consistent(r)
    decreases |lines|
  {
    if lines == [] then cs
    else
      var next := AddLine(cs, lines[0], fs);
      assert next.files + AllLineFiles(lines[1..], fs) == cs.files + AllLineFiles(lines, fs) by {
        AllLineFilesCons(lines, fs);
        AppendAssoc(cs.files, LineFiles(lines[0], fs), AllLineFiles(lines[1..], fs));
      }
      AddLines(next, lines[1..], fs)
  }

  /**
   * `parseGitStatusOutput`: the files in discovery order (each line's
   * contribution in line order), every one with a status, none with a backslash.
   */
  function ParseGitStatusOutput(output: string, fs: string -> FsEntry): (r: ChangeSet)
    ensures r.files == AllLineFiles(Explode(output, '\n'), fs)
    ensures Consistent(r)
  {
    AddLines(ChangeSet([], map[]), Explode(output, '\n'), fs)
  }

  const GitStatusFailure := "Failed to run git status. Make sure you are in a git repository."
  const BranchFailure := "Failed to get current branch."

  /**
   * `getUncommittedChanges`, given the output of `git status --porcelain`
   * (`None` when git failed). The emptiness test is on the trimmed output;
   * the lines parsed are those of the untrimmed output (see
   * `GetUncommittedChangesAsWritten` for the code as it stands).
   */
  function GetUncommittedChanges(statusOutput: Option<string>, fs: string -> FsEntry): (r: Outcome<Changes>)
    ensures statusOutput.None? <==> r.Throws?
    ensures statusOutput.Some? ==> (r.value.Clean? <==> PhpEmpty(Trim(statusOutput.value)))
    ensures r.Returns? && r.value.Dirty? ==> Consistent(r.value.changes)
  {
    match statusOutput
    case None => Throws(GitStatusFailure)
    case Some(out) =>
      if PhpEmpty(Trim(out)) then Returns(Clean) else Returns(Dirty(ParseGitStatusOutput(out, fs)))
  }

  /** `getUncommittedChanges` as written: the trimmed output is what gets parsed. */
  function GetUncommittedChangesAsWritten(statusOutput: Option<string>, fs: string -> FsEntry): (r: Outcome<Changes>)
    ensures statusOutput.None? <==> r.Throws?
    ensures statusOutput.Some? ==> (r.value.Clean? <==> PhpEmpty(Trim(statusOutput.value)))
    ensures r.Returns? && r.value.Dirty? ==> Consistent(r.value.changes)
  {
    match statusOutput
    case None => Throws(GitStatusFailure)
    case Some(out) =>
      var trimmed := Trim(out);
      if PhpEmpty(trimmed) then Returns(Clean) else Returns(Dirty(ParseGitStatusOutput(trimmed, fs)))
  }

  /** `getCurrentBranch`, given the output of `git rev-parse --abbrev-ref HEAD`. */
  function GetCurrentBranch(branchOutput: Option<string>): (r: Outcome<string>)
    ensures branchOutput.None? <==> r.Throws?
    ensures r.Returns? ==> r.value == Trim(branchOutput.value)
  {
    match branchOutput
    case None => Throws(BranchFailure)
    case Some(out) => Returns(Trim(out))
  }

  /** The revision range whose commits `getUnpushedCommitsCount` counts. */
  function UnpushedRange(branch: string): string {
    "origin/" + branch + "..HEAD"
  }

  /**
   * `getUnpushedCommitsCount`: `revList` gives the output of
   * `git rev-list --count <range>` for a range (`None` when it failed). A
   * failed count is reported as one unpushed commit, never as zero.
   */
  function GetUnpushedCommitsCount(branchOutput: Option<string>, revList: string -> Option<string>): (r: Outcome<int>)
    ensures branchOutput.None? <==> r.Throws?
    ensures r.Returns? && revList(UnpushedRange(Trim(branchOutput.value))).None? ==> r.value == 1
  {
    match GetCurrentBranch(branchOutput)
    case Throws(m) => Throws(m)
    case Returns(branch) =>
      match revList(UnpushedRange(branch))
      case None => Returns(1)
      case Some(out) => Returns(PhpIntCast(Trim(out)))
  }

  /** When git prints a count `n` followed by a newline, the count read is `n`. */
  lemma UnpushedCountReadsGitOutput(branchOutput: string, revList: string -> Option<string>, n: nat)
    requires revList(UnpushedRange(Trim(branchOutput))) == Some(NatToDecimal(n) + "\n")
    ensures GetUnpushedCommitsCount(Some(branchOutput), revList) == Returns(n)
  {
    var d := NatToDecimal(n);
    var s := d + "\n";
    assert IsTrimmed(d) by {
      assert IsDigit(d[0]) && IsDigit(d[|d| - 1]);
    }
    assert Trim(s) == d by {
      assert TrimStart(s, 0) == 0;
      assert TrimEnd(s, 0, |s| - 1) == |d|;
      assert s[0..|d|] == d;
    }
    IntCastOfDecimal(n);
  }

  /** A porcelain entry as git prints it: a two-character code, a space, a path. */
  datatype PorcelainEntry = PorcelainEntry(code: string, path: string)

  /**
   * What git's short format guarantees of an entry: a two-character code
   * that is not all blank, and a path with no surrounding blanks, no line
   * break and (on a POSIX host) no backslash.
   */
  predicate WellFormedEntry(e: PorcelainEntry) {
    && |e.code| == 2 && '\n' !in e.code
    && (!IsTrimChar(e.code[0]) || !IsTrimChar(e.code[1]))
    && e.path != [] && IsTrimmed(e.path) && '\n' !in e.path && '\\' !in e.path
  }

  function FormatLine(e: PorcelainEntry): string {
    e.code + " " + e.path
  }

  function FormatLines(es: seq<PorcelainEntry>): (r: seq<string>)
    ensures |r| == |es|
    ensures forall i :: 0 <= i < |es| ==> r[i] == FormatLine(es[i])
  {
    if es == [] then [] else [FormatLine(es[0])] + FormatLines(es[1..])
  }

  /** The text `git status --porcelain` prints for `es`: every entry on its own line. */
  function FormatPorcelain(es: seq<PorcelainEntry>): string {
    Implode(FormatLines(es) + [""], '\n')
  }

  function Paths(es: seq<PorcelainEntry>): (r: seq<string>)
    ensures |r| == |es|
    ensures forall i :: 0 <= i < |es| ==> r[i] == es[i].path
  {
    if es == [] then [] else [es[0].path] + Paths(es[1..])
  }

  predicate DistinctPaths(es: seq<PorcelainEntry>) {
    forall i, j :: 0 <= i < j < |es| ==> es[i].path != es[j].path
  }

  /** A two-character code is classified `untracked` exactly when it is `??`. */
  lemma ClassifyCode(code: string)
    requires |code| == 2
    ensures Classify(code) == (if code == "??" then Untracked else Modified)
  {
    if code == "??" {
      TrimIdentity(code);
    } else {
      TrimLength(code);
    }
  }

  /** A well-formed entry's line parses back to its code, its path and its class. */
  lemma ParseFormattedLine(e: PorcelainEntry)
    requires WellFormedEntry(e)
    ensures ParseLine(FormatLine(e)) == Some(ParsedLine(e.code, e.path, Classify(e.code)))
  {
    var line := FormatLine(e);
    var k := if !IsTrimChar(e.code[0]) then 0 else 1;
    assert line[k] == e.code[k];
    assert line[|line| - 1] == e.path[|e.path| - 1];
    TrimSpans(line, k, |line| - 1);
    assert line[..2] == e.code;
    assert line[3..] == e.path;
    TrimIdentity(e.path);
    NormalizeClean(e.path);
  }

  lemma AddLinesCons(cs: ChangeSet, lines: seq<string>, fs: string -> FsEntry)
    requires lines != []
    ensures AddLines(cs, lines, fs) == AddLines(AddLine(cs, lines[0], fs), lines[1..], fs)
  {
  }

  lemma AddFormattedLine(cs: ChangeSet, e: PorcelainEntry, fs: string -> FsEntry)
    requires WellFormedEntry(e) && fs(e.path) == NotDirectory
    ensures AddLine(cs, FormatLine(e), fs) == ChangeSet(cs.files + [e.path], cs.statuses[e.path := Classify(e.code)])
  {
    ParseFormattedLine(e);
  }

  lemma BlankLineIgnored(cs: ChangeSet, fs: string -> FsEntry)
    ensures AddLines(cs, [""], fs) == cs
  {
    TrimIdentity("");
    assert ParseLine("") == None;
    AddLinesCons(cs, [""], fs);
  }

  /** The one-line step of the round trip, stated without the rest of the lines. */
  lemma FormattedStep(cs: ChangeSet, es: seq<PorcelainEntry>, fs: string -> FsEntry)
    requires es != []
    requires WellFormedEntry(es[0]) && fs(es[0].path) == NotDirectory
    ensures AddLines(cs, FormatLines(es) + [""], fs)
            == AddLines(ChangeSet(cs.files + [es[0].path], cs.statuses[es[0].path := Classify(es[0].code)]),
                        FormatLines(es[1..]) + [""], fs)
  {
    var lines := FormatLines(es) + [""];
    assert lines == [FormatLine(es[0])] + (FormatLines(es[1..]) + [""]);
    assert lines[1..] == FormatLines(es[1..]) + [""];
    AddLinesCons(cs, lines, fs);
    AddFormattedLine(cs, es[0], fs);
  }

  lemma {:induction false} AddFormattedFiles(cs: ChangeSet, es: seq<PorcelainEntry>, fs: string -> FsEntry)
    requires forall i :: 0 <= i < |es| ==> WellFormedEntry(es[i]) && fs(es[i].path) == NotDirectory
    ensures AddLines(cs, FormatLines(es) + [""], fs).files == cs.files + Paths(es)
    decreases |es|
  {
    if es == [] {
      BlankLineIgnored(cs, fs);
    } else {
      FormattedStep(cs, es, fs);
      var cs1 := ChangeSet(cs.files + [es[0].path], cs.statuses[es[0].path := Classify(es[0].code)]);
      FormattedTail(es, fs);
      AddFormattedFiles(cs1, es[1..], fs);
      PathsHead(es);
      AppendAssoc(cs.files, [es[0].path], Paths(es[1..]));
    }
  }

  /** The entries after the first are still well formed and name no directory. */
  lemma FormattedTail(es: seq<PorcelainEntry>, fs: string -> FsEntry)
    requires es != []
    requires forall i :: 0 <= i < |es| ==> WellFormedEntry(es[i]) && fs(es[i].path) == NotDirectory
    ensures forall i :: 0 <= i < |es[1..]| ==> WellFormedEntry(es[1..][i]) && fs(es[1..][i].path) == NotDirectory
  {
  }

  lemma PathsHead(es: seq<PorcelainEntry>)
    requires es != []
    ensures Paths(es) == [es[0].path] + Paths(es[1..])
  {
  }

  /**
   * `m` is `s` updated with the classified status of every entry of `es`:
   * its keys are those of `s` and the entries' paths, and keys of `s` that
   * no entry names keep their status.
   */
  ghost predicate StatusesFrom(m: map<string, Status>, s: map<string, Status>, es: seq<PorcelainEntry>) {
    && (forall k :: k in m <==> k in s || k in Paths(es))
    && (forall i :: 0 <= i < |es| ==> es[i].path in m && m[es[i].path] == Classify(es[i].code))
    && (forall k :: k in s && k !in Paths(es) ==> k in m && m[k] == s[k])
  }

  lemma {:induction false} AddFormattedStatuses(cs: ChangeSet, es: seq<PorcelainEntry>, fs: string -> FsEntry)
    requires forall i :: 0 <= i < |es| ==> WellFormedEntry(es[i]) && fs(es[i].path) == NotDirectory
    requires DistinctPaths(es)
    ensures StatusesFrom(AddLines(cs, FormatLines(es) + [""], fs).statuses, cs.statuses, es)
    decreases |es|
  {
    if es == [] {
      BlankLineIgnored(cs, fs);
    } else {
      var e := es[0];
      var cs1 := ChangeSet(cs.files + [e.path], cs.statuses[e.path := Classify(e.code)]);
      FormattedStep(cs, es, fs);
      PathsCons(es);
      AddFormattedStatuses(cs1, es[1..], fs);
      StatusesStep(cs.statuses, cs1.statuses, AddLines(cs1, FormatLines(es[1..]) + [""], fs).statuses, es);
    }
  }

  lemma StatusesStep(s0: map<string, Status>, s1: map<string, Status>, m: map<string, Status>,
                     es: seq<PorcelainEntry>)
    requires es != [] && DistinctPaths(es)
    requires Paths(es) == [es[0].path] + Paths(es[1..]) && es[0].path !in Paths(es[1..])
    requires s1 == s0[es[0].path := Classify(es[0].code)]
    requires StatusesFrom(m, s1, es[1..])
    ensures StatusesFrom(m, s0, es)
  {
    forall i | 0 <= i < |es|
      ensures es[i].path in m && m[es[i].path] == Classify(es[i].code)
    {
      if i > 0 {
        assert es[i] == es[1..][i - 1];
      }
    }
  }

  lemma PathsCons(es: seq<PorcelainEntry>)
    requires es != [] && DistinctPaths(es)
    ensures Paths(es) == [es[0].path] + Paths(es[1..])
    ensures es[0].path !in Paths(es[1..])
    ensures DistinctPaths(es[1..])
  {
    forall i | 0 <= i < |es| - 1
      ensures Paths(es[1..])[i] != es[0].path
    {
      assert es[1..][i] == es[i + 1];
    }
  }

  lemma {:induction false} FormattedLinesUnbroken(es: seq<PorcelainEntry>)
    requires forall i :: 0 <= i < |es| ==> WellFormedEntry(es[i])
    ensures forall k :: 0 <= k < |FormatLines(es)| ==> '\n' !in FormatLines(es)[k]
  {
    forall k | 0 <= k < |es|
      ensures '\n' !in FormatLines(es)[k]
    {
      assert FormatLines(es)[k] == es[k].code + " " + es[k].path;
    }
  }

  /** The printed text splits back into the entries' lines and a final empty line. */
  lemma ExplodeFormatted(es: seq<PorcelainEntry>)
    requires forall i :: 0 <= i < |es| ==> WellFormedEntry(es[i])
    ensures Explode(FormatPorcelain(es), '\n') == FormatLines(es) + [""]
  {
    var lines := FormatLines(es);
    FormattedLinesUnbroken(es);
    AppendEmptyPart(lines, '\n');
    ExplodeImplode(lines + [""], '\n');
  }

  /** Some entry printed means the trimmed output is not empty. */
  lemma FormattedNotBlank(es: seq<PorcelainEntry>)
    requires es != [] && WellFormedEntry(es[0])
    ensures !PhpEmpty(Trim(FormatPorcelain(es)))
  {
    var lines := FormatLines(es) + [""];
    var out := FormatPorcelain(es);
    var line := FormatLine(es[0]);
    assert lines[0] == line;
    ImplodeHead(lines, '\n');
    assert out == line + ([ '\n' ] + Implode(lines[1..], '\n'));
    var k := if !IsTrimChar(es[0].code[0]) then 0 else 1;
    assert out[k] == line[k] == es[0].code[k];
    assert out[3] == line[3] == es[0].path[0];
    TrimSpans(out, k, 3);
  }

  /**
   * Reading back what git prints: a clean status for no entries, otherwise
   * exactly the entries' paths in order, each with the class of its code.
   */
  lemma PorcelainRoundTrip(es: seq<PorcelainEntry>, fs: string -> FsEntry)
    requires forall i :: 0 <= i < |es| ==> WellFormedEntry(es[i]) && fs(es[i].path) == NotDirectory
    requires DistinctPaths(es)
    ensures var r := GetUncommittedChanges(Some(FormatPorcelain(es)), fs);
            && r.Returns?
            && (es == [] <==> r.value.Clean?)
            && (r.value.Dirty? ==>
                  && r.value.changes.files == Paths(es)
                  && (forall k :: k in r.value.changes.statuses <==> k in Paths(es))
                  && (forall i :: 0 <= i < |es| ==>
                        r.value.changes.statuses[es[i].path]
                        == (if es[i].code == "??" then Untracked else Modified)))
  {
    ExplodeFormatted(es);
    if es == [] {
      assert FormatPorcelain(es) == "";
      TrimIdentity("");
    } else {
      FormattedNotBlank(es);
      AddFormattedFiles(ChangeSet([], map[]), es, fs);
      AddFormattedStatuses(ChangeSet([], map[]), es, fs);
      ClassifyCodes(es);
    }
  }

  lemma ClassifyCodes(es: seq<PorcelainEntry>)
    requires forall i :: 0 <= i < |es| ==> WellFormedEntry(es[i])
    ensures forall i :: 0 <= i < |es| ==> Classify(es[i].code) == (if es[i].code == "??" then Untracked else Modified)
  {
    forall i | 0 <= i < |es|
      ensures Classify(es[i].code) == (if es[i].code == "??" then Untracked else Modified)
    {
      ClassifyCode(es[i].code);
    }
  }

  /**
   * The code as written parses the trimmed output, so a first entry whose
   * code starts with a blank (an unstaged change, " M") is read one
   * character early and its path loses its first character; the corrected
   * reading keeps it.
   */
  lemma AsWrittenDropsFirstPathCharacter(out: string, fs: string -> FsEntry)
    requires out == " M src/app.js\n"
    requires forall p :: fs(p) == NotDirectory
    ensures GetUncommittedChangesAsWritten(Some(out), fs)
            == Returns(Dirty(ChangeSet(["rc/app.js"], map["rc/app.js" := Modified])))
  {
    var t := TrimShifted(out);
    ParseShifted(t, fs);
  }

  lemma TrimShifted(out: string) returns (t: string)
    requires out == " M src/app.js\n"
    ensures t == "M src/app.js" && Trim(out) == t
  {
    t := "M src/app.js";
    assert TrimStart(out, 0) == 1;
    assert TrimEnd(out, 1, 13) == 13;
    assert TrimEnd(out, 1, |out|) == 13;
    assert out[1..13] == t;
  }

  lemma ParseShifted(t: string, fs: string -> FsEntry)
    requires t == "M src/app.js"
    requires forall p :: fs(p) == NotDirectory
    ensures ParseGitStatusOutput(t, fs) == ChangeSet(["rc/app.js"], map["rc/app.js" := Modified])
  {
    SingleLine(t);
    var p := ParsedLine("M ", "rc/app.js", Modified);
    ParseShiftedLine(t, p);
    AddSingleParsed(t, p, fs);
  }

  lemma SingleLine(t: string)
    requires t == "M src/app.js"
    ensures Explode(t, '\n') == [t]
  {
    ExplodeImplode([t], '\n');
  }

  /** One non-blank line naming a file lists that file with its status. */
  lemma AddSingleParsed(t: string, p: ParsedLine, fs: string -> FsEntry)
    requires ParseLine(t) == Some(p) && fs(p.path) == NotDirectory
    ensures AddLines(ChangeSet([], map[]), [t], fs) == ChangeSet([p.path], map[p.path := p.status])
  {
    var empty: ChangeSet := ChangeSet([], map[]);
    AddLinesSingle(empty, t, fs);
    assert AddLine(empty, t, fs) == ChangeSet([p.path], map[p.path := p.status]);
  }

  lemma AddLinesSingle(cs: ChangeSet, t: string, fs: string -> FsEntry)
    ensures AddLines(cs, [t], fs) == AddLine(cs, t, fs)
  {
    AddLinesCons(cs, [t], fs);
    assert [t][0] == t && [t][1..] == [];
  }

  lemma ParseLineShape(line: string)
    requires !PhpEmpty(Trim(line)) && |line| >= 3
    ensures ParseLine(line)
            == Some(ParsedLine(line[..2], NormalizeSeparators(Trim(line[3..])), Classify(line[..2])))
  {
  }

  lemma ParseShiftedLine(t: string, p: ParsedLine)
    requires t == "M src/app.js" && p == ParsedLine("M ", "rc/app.js", Modified)
    ensures ParseLine(t) == Some(p)
  {
    assert !PhpEmpty(Trim(t)) by {
      TrimIdentity(t);
    }
    assert t[3..] == p.path;
    assert t[..2] == p.code;
    CleanPath(p.path);
    assert Classify(p.code) == Modified by {
      ClassifyCode(p.code);
    }
    ParseLineShape(t);
  }

  lemma CleanPath(path: string)
    requires path == "rc/app.js"
    ensures NormalizeSeparators(Trim(path)) == path
  {
    TrimIdentity(path);
    assert forall i :: 0 <= i < |path| ==> path[i] != '\\';
    NormalizeClean(path);
  }

  /**
   * The output of the counterexample is what git prints for one unstaged
   * modification of `src/app.js`, an input `PorcelainRoundTrip` covers.
   */
  lemma CounterexampleIsPorcelain(es: seq<PorcelainEntry>, out: string)
    requires es == [PorcelainEntry(" M", "src/app.js")] && out == " M src/app.js\n"
    ensures FormatPorcelain(es) == out && Paths(es) == ["src/app.js"]
    ensures WellFormedEntry(es[0]) && DistinctPaths(es)
  {
    assert FormatLine(es[0]) == " M src/app.js";
    assert FormatLines(es) + [""] == [" M src/app.js", ""];
    ImplodeHead([" M src/app.js", ""], '\n');
  }
}
