/** Which two lines are the head of a table (frontend/app.js). */
module TableHeads {
  import opened Text
  import opened LineSplitting

  // ---------- What the second line must look like ----------

  lemma {:induction false} WithoutSpacesHas(s: string, c: char)
    requires c in s && !IsSpace(c)
    ensures c in WithoutSpaces(s)
  {
    if s[0] != c {
      WithoutSpacesHas(s[1..], c);
    }
  }

  lemma DividerChars(cell: string, c: char)
    requires IsDivider(cell) && c in cell
    ensures c == '-' || c == ':'
  {
    var left := if ":" <= cell then cell[1..] else cell;
    var middle := if left != "" && left[|left| - 1] == ':' then left[..|left| - 1] else left;
    assert c in left || c == ':';
    assert c in left ==> c in middle || c == ':';
  }

  /** A line without the white space and the pipes at its ends. */
  function Inner(line: string): (inner: string) {
    var trimmed := Trim(line);
    var left := if "|" <= trimmed then trimmed[1..] else trimmed;
    if left != "" && left[|left| - 1] == '|' then left[..|left| - 1] else left
  }

  lemma InnerHas(line: string, c: char)
    requires c in line && !IsSpace(c) && c != '|'
    ensures c in Inner(line)
  {
    TrimHas(line, c);
    var trimmed := Trim(line);
    var left := if "|" <= trimmed then trimmed[1..] else trimmed;
    assert c in left;
  }

  lemma CellChars(line: string, c: char)
    requires c in line && !IsSpace(c) && c != '|'
    ensures exists cell :: cell in SplitTableCells(line) && c in WithoutSpaces(Trim(cell))
  {
    InnerHas(line, c);
    var cells := Split("|", Inner(line));
    SplitJoins("|", Inner(line));
    CharsOfJoined("|", cells, c);
    var i :| 0 <= i < |cells| && c in cells[i];
    TrimHas(cells[i], c);
    WithoutSpacesHas(Trim(cells[i]), c);
    assert cells[i] in SplitTableCells(line);
  }

  /** A table has pipes in its first two lines, and the second has nothing but dashes, colons, pipes and white space. */
  lemma SecondLineDivides(lines: seq<string>)
    requires IsMarkdownTable(lines)
    ensures |lines| >= 2 && '|' in lines[0] && '|' in lines[1]
    ensures forall c | c in lines[1] :: c == '-' || c == ':' || c == '|' || IsSpace(c)
  {
    forall c | c in lines[1]
      ensures c == '-' || c == ':' || c == '|' || IsSpace(c)
    {
      if c != '|' && !IsSpace(c) {
        CellChars(lines[1], c);
        var cell :| cell in SplitTableCells(lines[1]) && c in WithoutSpaces(Trim(cell));
        DividerChars(WithoutSpaces(Trim(cell)), c);
      }
    }
  }

  // ---------- Lines that do ----------

  function Dashes(n: nat): (s: string)
    ensures |s| == n && forall i | 0 <= i < n :: s[i] == '-'
  {
    seq(n, i => '-')
  }

  /** Dashes, and a colon on either side for the alignment. */
  function Column(left: bool, n: nat, right: bool): (cell: string) {
    (if left then ":" else "") + Dashes(n) + (if right then ":" else "")
  }

  /** A column divides exactly if it has three dashes. */
  lemma ColumnDividesIff(left: bool, n: nat, right: bool)
    requires n > 0
    ensures IsDivider(Column(left, n, right)) <==> n >= 3
  {
    var cell := Column(left, n, right);
    var inner := if left then cell[1..] else cell;
    assert left ==> cell[0] == ':';
    assert !left ==> cell[0] == '-';
    assert inner == Dashes(n) + (if right then ":" else "");
    var middle := if right then inner[..n] else inner;
    assert middle == Dashes(n);
  }

  lemma {:induction false} NoSpacesToTake(s: string)
    requires forall i | 0 <= i < |s| :: !IsSpace(s[i])
    ensures WithoutSpaces(s) == s
  {
    if s != "" {
      NoSpacesToTake(s[1..]);
    }
  }

  /** A dividing row: columns of three or more dashes, with pipes between them. */
  predicate IsColumn(cell: string) {
    && IsDivider(cell) && cell != "" && forall i | 0 <= i < |cell| :: cell[i] == '-' || cell[i] == ':'
  }

  lemma ColumnIsClean(cell: string)
    requires IsColumn(cell)
    ensures WithoutSpaces(Trim(cell)) == cell && '|' !in cell
  {
    TrimKeeps(cell);
    NoSpacesToTake(cell);
  }

  predicate IsMark(c: char) {
    c == '-' || c == ':'
  }

  lemma {:induction false} RowEnds(cells: seq<string>)
    requires cells != [] && forall i | 0 <= i < |cells| :: IsColumn(cells[i])
    ensures var row := JoinWith("|", cells); row != "" && IsMark(row[0]) && IsMark(row[|row| - 1])
  {
    assert IsColumn(cells[0]);
    if |cells| > 1 {
      RowEnds(cells[1..]);
    }
  }

  lemma PeelRow(open: bool, row: string, close: bool)
    requires row != "" && IsMark(row[0]) && IsMark(row[|row| - 1])
    ensures Inner((if open then "|" else "") + (row + (if close then "|" else ""))) == row
  {
    var tail := row + (if close then "|" else "");
    var line := (if open then "|" else "") + tail;
    assert line[0] == (if open then '|' else row[0]) && line[|line| - 1] == (if close then '|' else row[|row| - 1]);
    TrimKeeps(line);
    assert (if "|" <= line then line[1..] else line) == tail;
    assert tail[|tail| - 1] == line[|line| - 1];
    assert (if close then tail[..|tail| - 1] else tail) == row;
  }

  /** With or without a pipe at each end, the cells of a row are its columns. */
  lemma CellsOfRow(open: bool, cells: seq<string>, close: bool)
    requires cells != [] && forall i | 0 <= i < |cells| :: IsColumn(cells[i])
    ensures SplitTableCells((if open then "|" else "") + (JoinWith("|", cells) + (if close then "|" else ""))) == cells
  {
    RowEnds(cells);
    PeelRow(open, JoinWith("|", cells), close);
    forall i | 0 <= i < |cells|
      ensures '|' !in cells[i]
    {
      ColumnIsClean(cells[i]);
    }
    SplitOfJoined("|", cells);
  }

  /** A line with a pipe, and under it a row of columns with a pipe somewhere, start a table, whatever follows. */
  lemma RowMakesTable(head: string, open: bool, cells: seq<string>, close: bool, more: seq<string>)
    requires '|' in head && cells != [] && (open || close || |cells| > 1)
    requires forall i | 0 <= i < |cells| :: IsColumn(cells[i])
    ensures IsMarkdownTable([head, (if open then "|" else "") + (JoinWith("|", cells) + (if close then "|" else ""))] + more)
  {
    var line := (if open then "|" else "") + (JoinWith("|", cells) + (if close then "|" else ""));
    CellsOfRow(open, cells, close);
    PipeInRow(open, cells, close);
    forall cell | cell in SplitTableCells(line)
      ensures IsDivider(WithoutSpaces(Trim(cell)))
    {
      ColumnIsClean(cell);
    }
  }

  lemma PipeInRow(open: bool, cells: seq<string>, close: bool)
    requires cells != [] && (open || close || |cells| > 1)
    ensures '|' in (if open then "|" else "") + (JoinWith("|", cells) + (if close then "|" else ""))
  {
    var line := (if open then "|" else "") + (JoinWith("|", cells) + (if close then "|" else ""));
    if open {
      assert line[0] == '|';
    } else if close {
      assert line[|line| - 1] == '|';
    } else {
      assert line == JoinWith("|", cells);
      assert line[|cells[0]|] == '|';
    }
  }
}
