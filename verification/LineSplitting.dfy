/** Splitting the lines of an answer into tables and text groups (frontend/assistant-renderer.js, frontend/app.js). */
module LineSplitting {
  import opened Text

  predicate HasPipe(line: string) {
    '|' in line
  }

  function WithoutSpaces(s: string): (r: string) {
    if s == "" then "" else (if IsSpace(s[0]) then "" else [s[0]]) + WithoutSpaces(s[1..])
  }

  predicate AllDashes(s: string) {
    forall i | 0 <= i < |s| :: s[i] == '-'
  }

  /** `/^:?-{3,}:?$/`. */
  predicate IsDivider(cell: string) {
    var left := if ":" <= cell then cell[1..] else cell;
    var middle := if left != "" && left[|left| - 1] == ':' then left[..|left| - 1] else left;
    |middle| >= 3 && AllDashes(middle)
  }

  function SplitTableCells(line: string): (cells: seq<string>) {
    var trimmed := Trim(line);
    var left := if "|" <= trimmed then trimmed[1..] else trimmed;
    var inner := if left != "" && left[|left| - 1] == '|' then left[..|left| - 1] else left;
    Split("|", inner)
  }

  predicate IsMarkdownTable(lines: seq<string>) {
    && |lines| >= 2 && HasPipe(lines[0]) && HasPipe(lines[1])
    && forall cell | cell in SplitTableCells(lines[1]) :: IsDivider(WithoutSpaces(Trim(cell)))
  }

  /** How many lines at the start of `lines` have a pipe. */
  function PipeRun(lines: seq<string>): (n: nat)
    ensures n <= |lines|
  {
    if lines != [] && HasPipe(lines[0]) then 1 + PipeRun(lines[1..]) else 0
  }

  function TableSpan(lines: seq<string>): (span: nat)
    ensures span <= |lines|
    ensures span > 0 <==> IsMarkdownTable(lines)
  {
    if IsMarkdownTable(lines) then 2 + PipeRun(lines[2..]) else 0
  }

  method GetMarkdownTableSpan(lines: seq<string>, startIndex: nat) returns (span: nat)
    requires startIndex <= |lines|
    ensures span == TableSpan(lines[startIndex..])
  {
    var rest := lines[startIndex..];
    if !IsMarkdownTable(rest) {
      return 0;
    }
    var endIndex := startIndex + 2;
    assert rest[2..] == lines[endIndex..];
    while endIndex < |lines| && HasPipe(lines[endIndex])
      invariant startIndex + 2 <= endIndex <= |lines|
      invariant endIndex - startIndex + PipeRun(lines[endIndex..]) == TableSpan(rest)
    {
      assert lines[endIndex..][1..] == lines[endIndex + 1..];
      endIndex := endIndex + 1;
    }
    return endIndex - startIndex;
  }

  datatype Chunk = Table(lines: seq<string>) | Group(lines: seq<string>)

  function Flushed(current: seq<string>): (chunks: seq<Chunk>) {
    if current == [] then [] else [Group(current)]
  }

  /** What becomes of a text group under way and the lines that follow. */
  function Chunked(current: seq<string>, rest: seq<string>): (chunks: seq<Chunk>)
    decreases |rest|
  {
    if rest == [] then Flushed(current)
    else
      var span := TableSpan(rest);
      if span > 0 then Flushed(current) + ([Table(rest[..span])] + Chunked([], rest[span..]))
      else Chunked(current + [rest[0]], rest[1..])
  }

  /** The chunks of the whole answer, of which `chunks` are there and `current` is under way. */
  function WithRest(chunks: seq<Chunk>, current: seq<string>, rest: seq<string>): (all: seq<Chunk>) {
    chunks + Chunked(current, rest)
  }

  method RenderAssistantLines(lines: seq<string>) returns (chunks: seq<Chunk>)
    ensures IsPartition(lines, chunks)
  {
    chunks := [];
    var current: seq<string> := [];
    var index := 0;
    ghost var all := WithRest([], [], lines);
    assert lines[0..] == lines;
    while index < |lines|
      invariant index <= |lines|
      invariant WithRest(chunks, current, lines[index..]) == all
    {
      var tableSpan := GetMarkdownTableSpan(lines, index);
      if tableSpan > 0 {
        TableStep(chunks, current, lines, index);
        chunks := FlushCurrent(chunks, current);
        current := [];
        chunks := chunks + [Table(lines[index..index + tableSpan])];
        index := index + tableSpan;
        continue;
      }
      TextStep(chunks, current, lines, index);
      current := current + [lines[index]];
      index := index + 1;
    }
    LastStep(chunks, current, lines[index..]);
    chunks := FlushCurrent(chunks, current);
    ChunksOfAllLines(lines);
  }

  method FlushCurrent(chunks: seq<Chunk>, current: seq<string>) returns (flushed: seq<Chunk>)
    ensures flushed == chunks + Flushed(current)
  {
    if current == [] {
      assert chunks + [] == chunks;
      return chunks;
    }
    return chunks + [Group(current)];
  }

  lemma LastStep(chunks: seq<Chunk>, current: seq<string>, rest: seq<string>)
    requires rest == []
    ensures WithRest(chunks, current, rest) == chunks + Flushed(current)
  {}

  lemma TextStep(chunks: seq<Chunk>, current: seq<string>, lines: seq<string>, index: nat)
    requires index < |lines| && TableSpan(lines[index..]) == 0
    ensures WithRest(chunks, current, lines[index..]) == WithRest(chunks, current + [lines[index]], lines[index + 1..])
  {
    assert lines[index..][1..] == lines[index + 1..];
  }

  lemma TableStep(chunks: seq<Chunk>, current: seq<string>, lines: seq<string>, index: nat)
    requires index < |lines| && TableSpan(lines[index..]) > 0
    ensures var next := index + TableSpan(lines[index..]);
      var flushed := chunks + Flushed(current);
      WithRest(chunks, current, lines[index..]) == WithRest(flushed + [Table(lines[index..next])], [], lines[next..])
  {
    var rest := lines[index..];
    var span := TableSpan(rest);
    assert rest[..span] == lines[index..index + span] && rest[span..] == lines[index + span..];
    var table, later := [Table(rest[..span])], Chunked([], rest[span..]);
    Assoc(chunks, Flushed(current), table + later);
    Assoc(chunks + Flushed(current), table, later);
  }

  // ---------- The chunks are the lines ----------

  /** No table starts within the first `n` lines. */
  predicate NoTableIn(lines: seq<string>, n: nat)
    requires n <= |lines|
  {
    forall k | 0 <= k < n :: !IsMarkdownTable(lines[k..])
  }

  /**
    The chunks cut `lines` into consecutive slices.  A table has a table head, goes on as long as there
    are pipes, and ends before a line without one.  In a text group no table starts, it is no table
    itself, and it ends only at a table or at the end.
   */
  ghost predicate IsPartition(lines: seq<string>, chunks: seq<Chunk>)
    decreases |chunks|
  {
    if chunks == [] then lines == []
    else
      var slice := chunks[0].lines;
      && slice != [] && slice <= lines
      && var rest := lines[|slice|..];
         && (if chunks[0].Table? then
               IsMarkdownTable(slice) && (forall line | line in slice :: HasPipe(line)) && (rest == [] || !HasPipe(rest[0]))
             else
               NoTableIn(lines, |slice|) && !IsMarkdownTable(slice) && (rest == [] || IsMarkdownTable(rest)))
         && IsPartition(rest, chunks[1..])
  }

  lemma {:induction false} PipeRunEnds(lines: seq<string>)
    ensures forall i | 0 <= i < PipeRun(lines) :: HasPipe(lines[i])
    ensures PipeRun(lines) < |lines| ==> !HasPipe(lines[PipeRun(lines)])
  {
    if lines != [] && HasPipe(lines[0]) {
      PipeRunEnds(lines[1..]);
    }
  }

  lemma TableSlice(lines: seq<string>)
    requires IsMarkdownTable(lines)
    ensures var slice, rest := lines[..TableSpan(lines)], lines[TableSpan(lines)..];
      IsMarkdownTable(slice) && (forall line | line in slice :: HasPipe(line)) && (rest == [] || !HasPipe(rest[0]))
  {
    PipeRunEnds(lines[2..]);
    var span := TableSpan(lines);
    assert lines[..span][0] == lines[0] && lines[..span][1] == lines[1];
    forall i | 0 <= i < span
      ensures HasPipe(lines[i])
    {
      if i >= 2 {
        assert lines[i] == lines[2..][i - 2];
      }
    }
  }

  /** A table is recognized by its first two lines. */
  lemma TableByHead(lines: seq<string>, n: nat)
    requires 2 <= n <= |lines|
    ensures IsMarkdownTable(lines[..n]) == IsMarkdownTable(lines)
  {
    assert lines[..n][0] == lines[0] && lines[..n][1] == lines[1];
  }

  lemma FlushedPartition(current: seq<string>, rest: seq<string>, chunks: seq<Chunk>)
    requires NoTableIn(current + rest, |current|) && IsPartition(rest, chunks)
    requires rest == [] || IsMarkdownTable(rest)
    ensures IsPartition(current + rest, Flushed(current) + chunks)
  {
    var lines := current + rest;
    if current == [] {
      assert lines == rest && [] + chunks == chunks;
    } else {
      assert lines[|current|..] == rest && lines[..|current|] == current;
      assert lines[0..] == lines;
      if |current| >= 2 {
        TableByHead(lines, |current|);
      }
      assert ([Group(current)] + chunks)[1..] == chunks;
    }
  }

  lemma {:induction false} ChunksPartition(current: seq<string>, rest: seq<string>)
    requires NoTableIn(current + rest, |current|)
    ensures IsPartition(current + rest, Chunked(current, rest))
    decreases |rest|
  {
    if rest == [] {
      FlushedPartition(current, rest, []);
      assert Flushed(current) + [] == Flushed(current);
    } else {
      var span := TableSpan(rest);
      if span > 0 {
        var later := Chunked([], rest[span..]);
        assert [] + rest[span..] == rest[span..];
        ChunksPartition([], rest[span..]);
        TableSlice(rest);
        assert ([Table(rest[..span])] + later)[1..] == later;
        assert IsPartition(rest, [Table(rest[..span])] + later);
        FlushedPartition(current, rest, [Table(rest[..span])] + later);
      } else {
        var next := current + [rest[0]];
        assert next + rest[1..] == current + rest;
        assert (current + rest)[|current|..] == rest;
        ChunksPartition(next, rest[1..]);
      }
    }
  }

  lemma ChunksOfAllLines(lines: seq<string>)
    ensures IsPartition(lines, WithRest([], [], lines))
  {
    assert [] + lines == lines && [] + Chunked([], lines) == Chunked([], lines);
    ChunksPartition([], lines);
  }

  function Flatten(chunks: seq<Chunk>): (lines: seq<string>) {
    if chunks == [] then [] else chunks[0].lines + Flatten(chunks[1..])
  }

  /** Put together again, the chunks give back exactly the lines. */
  lemma {:induction false} PartitionFlattens(lines: seq<string>, chunks: seq<Chunk>)
    requires IsPartition(lines, chunks)
    ensures Flatten(chunks) == lines
    decreases |chunks|
  {
    if chunks != [] {
      PartitionFlattens(lines[|chunks[0].lines|..], chunks[1..]);
      assert lines == chunks[0].lines + lines[|chunks[0].lines|..];
    }
  }

  /** There is only one way to cut lines like this, so the result is fully determined. */
  lemma {:induction false} PartitionIsUnique(lines: seq<string>, s: seq<Chunk>, t: seq<Chunk>)
    requires IsPartition(lines, s) && IsPartition(lines, t)
    ensures s == t
    decreases |s|
  {
    if s == [] || t == [] {
      assert lines == [];
    } else {
      FirstChunkIsUnique(lines, s, t);
      PartitionIsUnique(lines[|s[0].lines|..], s[1..], t[1..]);
      assert s == [s[0]] + s[1..] && t == [t[0]] + t[1..];
    }
  }

  lemma FirstChunkIsUnique(lines: seq<string>, s: seq<Chunk>, t: seq<Chunk>)
    requires IsPartition(lines, s) && IsPartition(lines, t) && s != [] && t != []
    ensures s[0] == t[0]
  {
    var m, n := |s[0].lines|, |t[0].lines|;
    assert lines[0..] == lines && s[0].lines == lines[..m] && t[0].lines == lines[..n];
    if s[0].Table? {
      TableByHead(lines, m);
    }
    if t[0].Table? {
      TableByHead(lines, n);
    }
    if s[0].Table? {
      TableIsNoLonger(lines, m, n);
      TableIsNoLonger(lines, n, m);
    } else {
      GroupIsNoLonger(lines, m, n);
      GroupIsNoLonger(lines, n, m);
    }
  }

  /** A table that ends after `m` lines leaves no pipe for a longer one. */
  lemma TableIsNoLonger(lines: seq<string>, m: nat, n: nat)
    requires m <= |lines| && (lines[m..] == [] || !HasPipe(lines[m..][0]))
    requires n <= |lines| && forall line | line in lines[..n] :: HasPipe(line)
    ensures n <= m
  {
    assert forall k | 0 <= k < n :: lines[k] in lines[..n];
  }

  /** A group that ends at a table leaves none for a longer group to run over. */
  lemma GroupIsNoLonger(lines: seq<string>, m: nat, n: nat)
    requires m <= |lines| && (lines[m..] == [] || IsMarkdownTable(lines[m..]))
    requires n <= |lines| && NoTableIn(lines, n)
    ensures n <= m
  {}
}
