/**
 * `displayTree`: the column arithmetic that lines every file row's dots,
 * number and status up under one another. Display width is taken as the
 * number of code points (every character the tree draws is one column wide).
 */
module TreeDisplay {
  import opened PhpText
  import opened FileTree
  import opened GitStatus
  import opened Optional

  datatype Color = Green | Yellow

  /** One `$command->line(...)`: a directory label as is, or a file row in a colour. */
  datatype ConsoleLine = Plain(text: string) | Colored(color: Color, text: string)

  /** The widest file label; directory rows count as 0. */
  function MaxFileLabelWidth(lines: seq<TreeLine>): (w: nat)
    ensures forall i :: 0 <= i < |lines| && lines[i].FileLine? ==> |lines[i].text| <= w
    ensures w == 0 || exists i :: 0 <= i < |lines| && lines[i].FileLine? && |lines[i].text| == w
  {
    if lines == [] then 0
    else
      var rest := MaxFileLabelWidth(lines[1..]);
      var here := if lines[0].FileLine? then |lines[0].text| else 0;
      if here >= rest then here
      else
        assert rest != 0;
        var j :| 0 <= j < |lines[1..]| && lines[1..][j].FileLine? && |lines[1..][j].text| == rest;
        assert lines[j + 1] == lines[1..][j];
        rest
  }

  /** `$totalWidth`: room for the widest file label plus ten columns, and never under 50. */
  function TotalWidth(lines: seq<TreeLine>): (t: nat)
    ensures t >= 50
    ensures forall i :: 0 <= i < |lines| && lines[i].FileLine? ==> |lines[i].text| + 10 <= t
    ensures t == 50 || t == MaxFileLabelWidth(lines) + 10
  {
    var m := MaxFileLabelWidth(lines);
    if m + 10 >= 50 then m + 10 else 50
  }

  /** `str_pad((string) $number, 2, " ", STR_PAD_LEFT)`. */
  function NumberText(n: nat): (s: string)
    ensures |s| >= 2
    ensures |s| == if |NatToDecimal(n)| >= 2 then |NatToDecimal(n)| else 2
    ensures PhpIntCast(s) == n
  {
    IntCastOfPadded(n, 2);
    PadLeft(NatToDecimal(n), 2, ' ')
  }

  /** `max(1, $dotsCount)`: fills the gap to the total width, with at least one dot. */
  function DotCount(total: nat, caption: string, number: string): (d: nat)
    ensures d >= 1
    ensures d >= total - |caption| - |number|
    ensures total - |caption| - |number| >= 1 ==> |caption| + d + |number| == total
    ensures total - |caption| - |number| < 1 ==> d == 1
  {
    var gap := total - |caption| - |number|;
    if gap >= 1 then gap else 1
  }

  /** `$fileStatuses[$rawPath] ?? "modified"`. */
  function StatusOf(statuses: map<string, Status>, rawPath: string): (s: Status)
    ensures rawPath !in statuses ==> s == Modified
    ensures rawPath in statuses ==> s == statuses[rawPath]
  {
    if rawPath in statuses then statuses[rawPath] else Modified
  }

  /** One row of the display: `"{label} {dots} {number} {status}"` in green or yellow. */
  function RenderLine(line: TreeLine, statuses: map<string, Status>, total: nat): (out: ConsoleLine)
    ensures line.DirLine? ==> out == Plain(line.text)
    ensures line.FileLine? ==>
              (out.Colored? && (out.color == Green <==> StatusOf(statuses, line.rawPath) == Untracked))
  {
    match line
    case DirLine(text) => Plain(text)
    case FileLine(text, number, rawPath) =>
      var num := NumberText(number);
      var status := StatusOf(statuses, rawPath);
      var color := if status == Untracked then Green else Yellow;
      Colored(color, text + " " + Repeat('.', DotCount(total, text, num)) + " " + num + " "
                     + StatusWord(status))
  }

  /** `displayTree($treeLines, $fileStatuses, $command)`: one console line per row, nothing for none. */
  function DisplayTree(lines: seq<TreeLine>, statuses: map<string, Status>): (out: seq<ConsoleLine>)
    ensures |out| == |lines|
    ensures lines == [] ==> out == []
    ensures forall i :: 0 <= i < |lines| && lines[i].DirLine? ==> out[i] == Plain(lines[i].text)
    ensures forall i :: 0 <= i < |lines| && lines[i].FileLine? ==>
              (out[i].Colored? && (out[i].color == Green <==> StatusOf(statuses, lines[i].rawPath) == Untracked))
  {
    if lines == [] then []
    else
      var total := TotalWidth(lines);
      seq(|lines|, i requires 0 <= i < |lines| => RenderLine(lines[i], statuses, total))
  }

  function Pow10(k: nat): nat {
    if k == 0 then 1 else 10 * Pow10(k - 1)
  }

  /** A number below `10^k` has at most `k` decimal digits. */
  lemma {:induction false} DecimalLength(n: nat, k: nat)
    requires 1 <= k && n < Pow10(k)
    ensures |NatToDecimal(n)| <= k
  {
    if n >= 10 {
      DecimalLength(n / 10, k - 1);
    }
  }

  /**
   * The layout of a rendered file row in a display `t` columns wide: the
   * label first; label, one space, the dots, one space and the padded number
   * filling exactly `t + 2` columns, so the number ends at column `t + 2` and
   * reads back as the row's number; one space; then the status word.
   */
  predicate FileRowLayout(row: string, line: TreeLine, statuses: map<string, Status>, t: nat)
    requires line.FileLine?
  {
    var num := NumberText(line.number);
    var word := StatusWord(StatusOf(statuses, line.rawPath));
    |row| == t + 3 + |word|
    && |line.text| <= |row| && row[..|line.text|] == line.text
    && |num| <= t + 2 && row[t + 2 - |num|..t + 2] == num
    && PhpIntCast(row[t + 2 - |num|..t + 2]) == line.number
    && row[t + 3..] == word
  }

  /**
   * Every file row numbered below 10^9 has the same layout in one display:
   * its number sits in the same columns and its status word starts at
   * column `totalWidth + 3`.
   */
  lemma FileRowsAligned(lines: seq<TreeLine>, statuses: map<string, Status>, i: nat)
    requires i < |lines| && lines[i].FileLine? && lines[i].number < 1_000_000_000
    ensures FileRowLayout(DisplayTree(lines, statuses)[i].text, lines[i], statuses, TotalWidth(lines))
  {
    DisplayTreeRow(lines, statuses, i);
    FileRowColumns(lines[i], statuses, TotalWidth(lines));
  }

  lemma DisplayTreeRow(lines: seq<TreeLine>, statuses: map<string, Status>, i: nat)
    requires i < |lines|
    ensures DisplayTree(lines, statuses)[i] == RenderLine(lines[i], statuses, TotalWidth(lines))
  {
  }

  /** The layout of one rendered file row whose label leaves ten columns of room in `t`. */
  lemma FileRowColumns(line: TreeLine, statuses: map<string, Status>, t: nat)
    requires line.FileLine? && line.number < 1_000_000_000 && |line.text| + 10 <= t
    ensures FileRowLayout(RenderLine(line, statuses, t).text, line, statuses, t)
  {
    var num := NumberText(line.number);
    Pow10Nine();
    DecimalLength(line.number, 9);
    var d := DotCount(t, line.text, num);
    var word := StatusWord(StatusOf(statuses, line.rawPath));
    RowColumns(line.text, d, num, word, t);
  }

  lemma Pow10Nine()
    ensures Pow10(9) == 1_000_000_000
  {
    assert Pow10(3) == 1000;
    assert Pow10(6) == 1000 * Pow10(3) by {
      assert Pow10(6) == 10 * Pow10(5);
      assert Pow10(5) == 10 * Pow10(4);
      assert Pow10(4) == 10 * Pow10(3);
    }
    assert Pow10(9) == 1000 * Pow10(6) by {
      assert Pow10(9) == 10 * Pow10(8);
      assert Pow10(8) == 10 * Pow10(7);
      assert Pow10(7) == 10 * Pow10(6);
    }
  }

  /** Where the parts of a file row sit when label, dots and number fill `t` columns. */
  lemma RowColumns(caption: string, d: nat, num: string, word: string, t: nat)
    requires |caption| + d + |num| == t
    ensures var row := caption + " " + Repeat('.', d) + " " + num + " " + word;
            |row| == t + 3 + |word|
            && row[..|caption|] == caption
            && row[t + 2 - |num|..t + 2] == num
            && row[t + 3..] == word
  {
    var head := caption + " " + Repeat('.', d) + " ";
    var row := caption + " " + Repeat('.', d) + " " + num + " " + word;
    assert row == head + num + (" " + word);
    assert row[..|caption|] == caption;
    assert row[|head|..|head| + |num|] == num;
    assert row[|head| + |num| + 1..] == word;
  }

  /** PHP's error when `buildFileTree` descends into a path already stored as a file. */
  const ScalarAsArray: string := "Cannot use a scalar value as an array"

  /**
   * `displayChangesTree($changes)`: the change set's files as a tree, flattened
   * and printed. A path that lies below a file inserted earlier makes
   * `buildFileTree` index into `true`, which PHP refuses with an Error.
   */
  function DisplayChangesTree(cs: ChangeSet): (r: Outcome<seq<ConsoleLine>>)
    ensures r.Throws? <==> !NoPathBelowEarlierFile(cs.files)
    ensures r.Returns? ==> |r.value| == Size(BuildFileTree(cs.files))
  {
    if NoPathBelowEarlierFile(cs.files) then
      Returns(DisplayTree(FlattenTree(BuildFileTree(cs.files)), cs.statuses))
    else Throws(ScalarAsArray)
  }

  /**
   * What `checkGitStatus` shows for a dirty tree whose paths are prefix-free:
   * one numbered row per changed file, each changed file on exactly one row,
   * each coloured by the status recorded for it rather than by the
   * "modified" default.
   */
  lemma ChangedFilesShownWithStatus(cs: ChangeSet)
    requires Consistent(cs) && PrefixFree(cs.files)
    ensures DisplayChangesTree(cs).Returns?
    ensures var lines := FlattenTree(BuildFileTree(cs.files));
            var out := DisplayChangesTree(cs).value;
            |Files(lines)| == |LeafPaths(BuildFileTree(cs.files))|
            && (forall p :: p in cs.files <==> exists k :: 0 <= k < |Files(lines)| && Files(lines)[k].rawPath == p)
            && (forall i, j :: 0 <= i < j < |Files(lines)| ==> Files(lines)[i].rawPath != Files(lines)[j].rawPath)
            && forall i :: 0 <= i < |lines| && lines[i].FileLine? ==>
                 lines[i].rawPath in cs.statuses
                 && (out[i].color == Green <==> cs.statuses[lines[i].rawPath] == Untracked)
  {
    assert NoPathBelowEarlierFile(cs.files);
    var lines := FlattenTree(BuildFileTree(cs.files));
    TreeListsChangedFiles(cs.files);
    FileRowsDistinct(cs.files);
    forall i | 0 <= i < |lines| && lines[i].FileLine?
      ensures lines[i].rawPath in cs.files
    {
      FileRowIsListed(lines, i);
    }
  }

  /** A file row of `lines` is one of `Files(lines)`. */
  lemma {:induction false} FileRowIsListed(lines: seq<TreeLine>, i: nat)
    requires i < |lines| && lines[i].FileLine?
    ensures exists k :: 0 <= k < |Files(lines)| && Files(lines)[k] == lines[i]
    decreases |lines|
  {
    if i == 0 {
      assert Files(lines)[0] == lines[0];
    } else {
      FileRowIsListed(lines[1..], i - 1);
      var k :| 0 <= k < |Files(lines[1..])| && Files(lines[1..])[k] == lines[1..][i - 1];
      var h := if lines[0].FileLine? then 1 else 0;
      assert Files(lines)[h + k] == Files(lines[1..])[k];
    }
  }
}
