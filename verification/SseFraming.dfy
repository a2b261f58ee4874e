/**
  The framing of the answer stream (frontend/chat-stream.js): blocks end with an empty line, and
  every line of a complete block that starts with `data: ` is delivered.  This is the part of the
  event stream format (WHATWG HTML, section 9.2.6) that the client reads.
 */
module SseFraming {
  import opened Text

  const LINE_END := "\n"
  const BLOCK_END := "\n\n"
  const DATA_PREFIX := "data: "

  predicate IsDataLine(line: string) {
    DATA_PREFIX <= line
  }

  function DataLinesOf(lines: seq<string>): (data: seq<string>) {
    if lines == [] then []
    else (if IsDataLine(lines[0]) then [lines[0]] else []) + DataLinesOf(lines[1..])
  }

  /** The meaning of a text, without any blocks: its lines that start with `data: `, in order. */
  function DataLines(text: string): (data: seq<string>) {
    DataLinesOf(Split(LINE_END, text))
  }

  datatype Framed = Framed(lines: seq<string>, remainder: string) {
    function After(before: seq<string>): Framed {
      this.(lines := before + lines)
    }
  }

  /** One pass over a buffer: the data lines of its complete blocks, and the incomplete rest. */
  function Frame(buffer: string): (f: Framed)
    decreases |buffer|
  {
    match IndexOf(BLOCK_END, buffer)
    case None => Framed([], buffer)
    case Some(i) => Frame(buffer[i + |BLOCK_END|..]).After(DataLines(buffer[..i]))
  }

  /** The data lines of all blocks but the last, which is not complete yet. */
  function BlockLines(blocks: seq<string>): (data: seq<string>)
    requires blocks != []
  {
    if |blocks| == 1 then [] else DataLines(blocks[0]) + BlockLines(blocks[1..])
  }

  lemma {:induction false} FrameIsSplit(buffer: string)
    ensures var blocks := Split(BLOCK_END, buffer);
      Frame(buffer) == Framed(BlockLines(blocks), blocks[|blocks| - 1])
    decreases |buffer|
  {
    match IndexOf(BLOCK_END, buffer)
    case None =>
    case Some(i) =>
      var rest := Split(BLOCK_END, buffer[i + |BLOCK_END|..]);
      assert ([buffer[..i]] + rest)[1..] == rest;
      FrameIsSplit(buffer[i + |BLOCK_END|..]);
  }

  // ---------- Cutting the stream anywhere changes nothing ----------

  lemma FramedAfterTwice(f: Framed, x: seq<string>, y: seq<string>)
    ensures f.After(y).After(x) == f.After(x + y)
    ensures f.After([]) == f
  {
    Assoc(x, y, f.lines);
  }

  /** Framing `a` and later its remainder with `b` delivers what framing `a + b` delivers. */
  lemma {:induction false} FrameSplit(a: string, b: string)
    ensures Frame(a + b) == Frame(Frame(a).remainder + b).After(Frame(a).lines)
    decreases |a|
  {
    match IndexOf(BLOCK_END, a)
    case None =>
      FramedAfterTwice(Frame(a + b), [], []);
    case Some(i) =>
      var next := i + |BLOCK_END|;
      IndexOfGrows(BLOCK_END, a, b);
      DropAppend(a, b, next);
      assert (a + b)[..i] == a[..i];
      FrameSplit(a[next..], b);
      FramedAfterTwice(Frame(Frame(a).remainder + b), DataLines(a[..i]), Frame(a[next..]).lines);
  }

  lemma {:induction false} NoSeparatorLeft(buffer: string)
    ensures IndexOf(BLOCK_END, Frame(buffer).remainder).None?
    decreases |buffer|
  {
    match IndexOf(BLOCK_END, buffer)
    case None =>
    case Some(i) => NoSeparatorLeft(buffer[i + |BLOCK_END|..]);
  }

  // ---------- Blocks do not matter: every data line is delivered once ----------

  lemma {:induction false} DataLinesOfAppend(a: seq<string>, b: seq<string>)
    ensures DataLinesOf(a + b) == DataLinesOf(a) + DataLinesOf(b)
  {
    if a == [] {
      assert a + b == b;
    } else {
      assert (a + b)[1..] == a[1..] + b;
      DataLinesOfAppend(a[1..], b);
    }
  }

  /** The first line end of a text without one in `a` is the one behind `a`. */
  lemma {:induction false} FirstLineEnd(a: string, b: string)
    requires IndexOf(LINE_END, a).None?
    ensures IndexOf(LINE_END, a + (LINE_END + b)) == Some(|a|)
  {
    if a == "" {
      assert a + (LINE_END + b) == LINE_END + b;
    } else {
      assert !(LINE_END <= a);
      DropAppend(a, LINE_END + b, 1);
      FirstLineEnd(a[1..], b);
    }
  }

  lemma {:induction false} SplitLineEnd(a: string, b: string)
    ensures Split(LINE_END, a + (LINE_END + b)) == Split(LINE_END, a) + Split(LINE_END, b)
    decreases |a|
  {
    var whole := a + (LINE_END + b);
    match IndexOf(LINE_END, a)
    case None =>
      FirstLineEnd(a, b);
      assert whole[..|a|] == a && whole[|a| + 1..] == b;
    case Some(i) =>
      IndexOfGrows(LINE_END, a, LINE_END + b);
      DropAppend(a, LINE_END + b, i + 1);
      assert whole[..i] == a[..i];
      SplitLineEnd(a[i + 1..], b);
      var rest := Split(LINE_END, a[i + 1..]);
      Assoc([a[..i]], rest, Split(LINE_END, b));
  }

  lemma DataLinesSplit(a: string, b: string)
    ensures DataLines(a + (LINE_END + b)) == DataLines(a) + DataLines(b)
  {
    SplitLineEnd(a, b);
    DataLinesOfAppend(Split(LINE_END, a), Split(LINE_END, b));
  }

  lemma DataLinesOfOne(line: string)
    ensures DataLinesOf([line]) == if IsDataLine(line) then [line] else []
  {
    assert [line][1..] == [];
  }

  lemma NoDataInShortText(s: string)
    requires s == "" || s == LINE_END
    ensures DataLines(s) == []
  {
    DataLinesOfOne("");
    assert DataLines("") == [];
    if s == LINE_END {
      assert s == "" + (LINE_END + "");
      DataLinesSplit("", "");
    }
  }

  lemma DataLinesSplitAtBlockEnd(a: string, b: string)
    ensures DataLines(a + (BLOCK_END + b)) == DataLines(a) + DataLines(b)
  {
    assert a + (BLOCK_END + b) == a + (LINE_END + ("" + (LINE_END + b)));
    DataLinesSplit(a, "" + (LINE_END + b));
    DataLinesSplit("", b);
    NoDataInShortText("");
  }

  /** Delivered lines and the lines still waiting are together all data lines of the text. */
  lemma {:induction false} FrameKeepsDataLines(buffer: string)
    ensures DataLines(buffer) == Frame(buffer).lines + DataLines(Frame(buffer).remainder)
    decreases |buffer|
  {
    match IndexOf(BLOCK_END, buffer)
    case None =>
    case Some(i) =>
      var head, tail := buffer[..i], buffer[i + |BLOCK_END|..];
      CutOut(BLOCK_END, buffer);
      DataLinesSplitAtBlockEnd(head, tail);
      FrameKeepsDataLines(tail);
      var f := Frame(tail);
      Assoc(DataLines(head), f.lines, DataLines(f.remainder));
  }

  /** After the closing empty line that `sendMessage` adds, at most a line end is left over. */
  lemma {:induction false} ClosingLeavesNothing(rest: string)
    requires IndexOf(BLOCK_END, rest).None?
    ensures match IndexOf(BLOCK_END, rest + BLOCK_END)
      case None => false
      case Some(i) =>
        var left := (rest + BLOCK_END)[i + |BLOCK_END|..];
        left == "" || left == LINE_END
  {
    var whole := rest + BLOCK_END;
    if BLOCK_END <= whole {
      assert whole[..2] == BLOCK_END;
      assert !(BLOCK_END <= rest);
      assert |rest| <= 1;
    } else {
      assert rest != "";
      DropAppend(rest, BLOCK_END, 1);
      ClosingLeavesNothing(rest[1..]);
      var i := IndexOf(BLOCK_END, whole[1..]).value;
      assert whole[1..][i + 2..] == whole[i + 3..];
    }
  }

  lemma ClosingRemainder(rest: string)
    requires IndexOf(BLOCK_END, rest).None?
    ensures var left := Frame(rest + BLOCK_END).remainder; left == "" || left == LINE_END
  {
    ClosingLeavesNothing(rest);
    var whole := rest + BLOCK_END;
    var left := whole[IndexOf(BLOCK_END, whole).value + |BLOCK_END|..];
    assert IndexOf(BLOCK_END, left).None? by {
      if left == LINE_END { assert left[1..] == ""; }
    }
  }

  /** ... so closing a remainder delivers exactly its data lines. */
  lemma ClosedRemainder(rest: string)
    requires IndexOf(BLOCK_END, rest).None?
    ensures Frame(rest + BLOCK_END).lines == DataLines(rest)
  {
    ClosingRemainder(rest);
    NoDataInShortText(Frame(rest + BLOCK_END).remainder);
    FrameKeepsDataLines(rest + BLOCK_END);
    DataLinesSplitAtBlockEnd(rest, "");
    NoDataInShortText("");
    assert BLOCK_END + "" == BLOCK_END;
    assert Frame(rest + BLOCK_END).lines + [] == Frame(rest + BLOCK_END).lines;
    assert DataLines(rest) + [] == DataLines(rest);
  }

  lemma FinalFlush(text: string)
    ensures Frame(text + BLOCK_END).lines == DataLines(text)
  {
    FrameSplit(text, BLOCK_END);
    NoSeparatorLeft(text);
    ClosedRemainder(Frame(text).remainder);
    FrameKeepsDataLines(text);
  }

  /** What was delivered while the stream ran, and what its last text adds. */
  lemma DeliveredAndRest(received: string, last: string)
    ensures DataLines(received + last) == Frame(received).lines + DataLines(Frame(received).remainder + last)
  {
    var f := Frame(received);
    var g := Frame(f.remainder + last);
    FrameSplit(received, last);
    FrameKeepsDataLines(received + last);
    FrameKeepsDataLines(f.remainder + last);
    Assoc(f.lines, g.lines, DataLines(g.remainder));
  }

  lemma {:induction false} BlankHasNoDataLines(s: string)
    requires AllSpace(s)
    ensures DataLines(s) == []
    decreases |s|
  {
    match IndexOf(LINE_END, s)
    case None =>
      assert !IsDataLine(s);
      DataLinesOfOne(s);
    case Some(i) =>
      var rest := Split(LINE_END, s[i + 1..]);
      assert !IsDataLine(s[..i]);
      assert ([s[..i]] + rest)[1..] == rest;
      BlankHasNoDataLines(s[i + 1..]);
  }

  /** A remainder that `trim` empties holds no data line, so skipping it loses nothing. */
  lemma SkippedRemainder(s: string)
    requires Trim(s) == ""
    ensures DataLines(s) == []
  {
    TrimIsEmpty(s);
    BlankHasNoDataLines(s);
  }

  // ---------- What a data line says ----------

  /** `JSON.parse` and the three fields read from its result; `NotJson` when it throws. */
  datatype Parsed = NotJson | Json(content: Option<string>, delta: Option<string>, message: Option<string>)

  function ExtractStreamContent(parse: string -> Parsed, rawData: string): (content: string) {
    if rawData == "" || rawData == "[DONE]" then ""
    else
      match parse(rawData)
      case NotJson => rawData
      case Json(Some(content), _, _) => content
      case Json(_, Some(delta), _) => delta
      case Json(_, _, Some(message)) => message
      case _ => ""
  }

  function Content(parse: string -> Parsed, line: string): (content: string) {
    ExtractStreamContent(parse, Trim(if |line| < |DATA_PREFIX| then "" else line[|DATA_PREFIX|..]))
  }

  /** The contents of some data lines, one after the other. */
  function Contents(parse: string -> Parsed, lines: seq<string>): (text: string) {
    if lines == [] then "" else Content(parse, lines[0]) + Contents(parse, lines[1..])
  }

  lemma {:induction false} ContentsAppend(parse: string -> Parsed, a: seq<string>, b: seq<string>)
    ensures Contents(parse, a + b) == Contents(parse, a) + Contents(parse, b)
  {
    if a == [] {
      assert a + b == b;
    } else {
      assert (a + b)[1..] == a[1..] + b;
      ContentsAppend(parse, a[1..], b);
    }
  }

  // ---------- One event ----------

  lemma {:induction false} EndOfLine(text: string, rest: string)
    requires '\n' !in text
    ensures IndexOf(BLOCK_END, text + (BLOCK_END + rest)) == Some(|text|)
  {
    if text == "" {
      assert text + (BLOCK_END + rest) == BLOCK_END + rest;
      assert (BLOCK_END + rest)[..2] == BLOCK_END;
    } else {
      assert (text + (BLOCK_END + rest))[0] == text[0];
      DropAppend(text, BLOCK_END + rest, 1);
      EndOfLine(text[1..], rest);
    }
  }

  /** An event of one data line is delivered as soon as the empty line behind it has come, and leaves nothing. */
  lemma OneEvent(text: string)
    requires '\n' !in text
    ensures Frame("data: " + text + "\n\n") == Framed(["data: " + text], "")
  {
    var line := "data: " + text;
    assert line + (BLOCK_END + "") == line + "\n\n";
    assert forall i | 0 <= i < |line| :: line[i] != '\n';
    EndOfLine(line, "");
    NotFound(LINE_END, line);
    assert line[..6] == DATA_PREFIX;
    DataLinesOfOne(line);
    assert (line + "\n\n")[..|line|] == line && (line + "\n\n")[|line| + 2..] == "";
    assert [line] + [] == [line];
  }

  /** Lines that do not start with `data: ` are passed over. */
  lemma OtherLine(line: string)
    requires '\n' !in line && !("data: " <= line)
    ensures DataLines(line) == []
  {
    NotFound(LINE_END, line);
    DataLinesOfOne(line);
  }

  /** What a data line adds to the answer: nothing for an empty or closing one, else its first text field, else its text. */
  lemma ContentOf(parse: string -> Parsed, text: string)
    ensures var raw, content := Trim(text), Content(parse, "data: " + text);
      && (raw == "" || raw == "[DONE]" ==> content == "")
      && (raw != "" && raw != "[DONE]" ==>
            match parse(raw)
            case NotJson => content == raw
            case Json(c, d, m) =>
              && (c.Some? ==> content == c.value)
              && (c.None? && d.Some? ==> content == d.value)
              && (c.None? && d.None? && m.Some? ==> content == m.value)
              && (c.None? && d.None? && m.None? ==> content == ""))
  {
    assert ("data: " + text)[6..] == text;
  }
}
