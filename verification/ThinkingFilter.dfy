/**
  The incremental filter that hides `<think>...</think>` blocks of a streamed answer
  (frontend/chat-stream.js).  `Strip` is the whole-text meaning, `Scan` what one `feed` does to the
  text it holds; the class is the closure with its two mutable variables.
 */
module ThinkingFilter {
  import opened Text

  const OPEN_TAG := "<think>"
  const CLOSE_TAG := "</think>"

  /** Lower-casing, character by character; any such map will do. */
  type Lowering = char -> char

  function Lower(lower: Lowering, s: string): (t: string)
    ensures |t| == |s|
  {
    seq(|s|, i requires 0 <= i < |s| => lower(s[i]))
  }

  // ---------- The meaning: one pass over the whole text ----------

  /** The visible part of a text that starts outside a block. */
  function Strip(lower: Lowering, s: string): (visible: string)
    decreases |s|
  {
    if s == "" then ""
    else if OPEN_TAG <= Lower(lower, s) then SkipBlock(lower, s[|OPEN_TAG|..])
    else if Lower(lower, s) <= OPEN_TAG then ""
    else [s[0]] + Strip(lower, s[1..])
  }

  /** The visible part of a text that starts inside a block. */
  function SkipBlock(lower: Lowering, s: string): (visible: string)
    decreases |s|
  {
    if s == "" then ""
    else if CLOSE_TAG <= Lower(lower, s) then Strip(lower, s[|CLOSE_TAG|..])
    else SkipBlock(lower, s[1..])
  }

  // ---------- Holding back a tag that may be cut in half ----------

  /** The last `size` characters of `text` could be the beginning of `tag`. */
  predicate IsPartialTag(tag: string, text: string, size: nat) {
    size == 0 || (size < |tag| && size <= |text| && text[|text| - size..] <= tag)
  }

  function LongestPartialTag(tag: string, text: string, limit: nat): (size: nat)
    ensures size <= limit && IsPartialTag(tag, text, size)
    ensures forall k: nat | size < k <= limit :: !IsPartialTag(tag, text, k)
  {
    if IsPartialTag(tag, text, limit) then limit else LongestPartialTag(tag, text, limit - 1)
  }

  function HeldBack(tag: string, text: string): (size: nat)
    ensures IsPartialTag(tag, text, size) && size <= |text|
    ensures forall k: nat | size < k :: !IsPartialTag(tag, text, k)
  {
    LongestPartialTag(tag, text, |text|)
  }

  method GetLongestTagPrefixSuffix(lower: Lowering, text: string, tag: string) returns (size: nat)
    ensures size == HeldBack(tag, Lower(lower, text))
  {
    var lowerText := Lower(lower, text);
    size := if |tag| == 0 then 0 else if |tag| - 1 < |lowerText| then |tag| - 1 else |lowerText|;
    while size > 0
      invariant forall k: nat | size < k :: !IsPartialTag(tag, lowerText, k)
    {
      if lowerText[|lowerText| - size..] <= tag {
        assert IsPartialTag(tag, lowerText, size);
        return;
      }
      size := size - 1;
    }
  }

  // ---------- One feed ----------

  function Tag(inside: bool): (tag: string)
    ensures tag != ""
  {
    if inside then CLOSE_TAG else OPEN_TAG
  }

  datatype Scanned = Scanned(visible: string, buffer: string, insideThinking: bool) {
    function After(shown: string): Scanned {
      this.(visible := shown + visible)
    }
  }

  /**
    What the filter shows of the text it holds, what it keeps for later, and whether it ends inside
    a block: it stops where the rest of the text may be the beginning of the tag it waits for.
   */
  function Scan(lower: Lowering, s: string, inside: bool): (r: Scanned)
    decreases |s|
  {
    if Tag(inside) <= Lower(lower, s) then Scan(lower, s[|Tag(inside)|..], !inside)
    else if Lower(lower, s) <= Tag(inside) then Scanned("", s, inside)
    else Scan(lower, s[1..], inside).After(if inside then "" else [s[0]])
  }

  /** Where the text before `tag` ends, where the text after it starts, and whether it was there. */
  datatype Cut = Cut(keep: nat, resume: nat, found: bool)

  /** The cut that one round of the loop in `feed` makes. */
  function CutAt(tag: string, low: string): (c: Cut)
    requires tag != ""
    ensures c.keep <= c.resume <= |low|
    ensures c.found ==> c.resume == c.keep + |tag|
    ensures !c.found ==> c.keep == c.resume
  {
    match IndexOf(tag, low)
    case Some(i) => Cut(i, i + |tag|, true)
    case None => var keep := |low| - HeldBack(tag, low); Cut(keep, keep, false)
  }

  class AssistantThinkingFilter {
    const lower: Lowering
    var buffer: string
    var insideThinking: bool

    constructor (lower: Lowering)
      ensures this.lower == lower && buffer == "" && !insideThinking
    {
      this.lower := lower;
      buffer, insideThinking := "", false;
    }

    /** One round of the loop in `feed`: what it shows, and whether the loop goes on. */
    method Round() returns (chunk: string, again: bool)
      modifies this
      ensures again ==> |buffer| < |old(buffer)|
      ensures Scan(lower, old(buffer), old(insideThinking)) ==
        (if again then Scan(lower, buffer, insideThinking) else Scanned("", buffer, insideThinking)).After(chunk)
    {
      var lowerBuffer := Lower(lower, buffer);
      ghost var c := CutAt(Tag(insideThinking), lowerBuffer);
      ghost var behind := Behind(lower, buffer, insideThinking, c);
      ScanByCut(lower, buffer, insideThinking);
      if insideThinking {
        chunk := "";
        var closeIndex := IndexOf(CLOSE_TAG, lowerBuffer);
        again := closeIndex.Some?;
        if again {
          assert c.resume == closeIndex.value + |CLOSE_TAG|;
          buffer := buffer[closeIndex.value + |CLOSE_TAG|..];
          insideThinking := false;
        } else {
          var keepSize := GetLongestTagPrefixSuffix(lower, buffer, CLOSE_TAG);
          assert c.resume == |buffer| - keepSize;
          buffer := buffer[|buffer| - keepSize..];
        }
      } else {
        var openIndex := IndexOf(OPEN_TAG, lowerBuffer);
        again := openIndex.Some?;
        if again {
          assert c.keep == openIndex.value && c.resume == openIndex.value + |OPEN_TAG|;
          chunk := buffer[..openIndex.value];
          buffer := buffer[openIndex.value + |OPEN_TAG|..];
          insideThinking := true;
        } else {
          var keepSize := GetLongestTagPrefixSuffix(lower, buffer, OPEN_TAG);
          assert c.keep == c.resume == |buffer| - keepSize;
          chunk := buffer[..|buffer| - keepSize];
          buffer := buffer[|buffer| - keepSize..];
        }
      }
      assert behind == if again then Scan(lower, buffer, insideThinking) else Scanned("", buffer, insideThinking);
    }

    method Feed(value: string) returns (visible: string)
      modifies this
      ensures Scanned(visible, buffer, insideThinking) == Scan(lower, old(buffer) + value, old(insideThinking))
    {
      buffer := buffer + value;
      visible := "";
      AfterTwice(Scan(lower, buffer, insideThinking), "", "");
      while buffer != ""
        invariant Scan(lower, old(buffer) + value, old(insideThinking)) == Scan(lower, buffer, insideThinking).After(visible)
        decreases |buffer|
      {
        var chunk, again := Round();
        AfterTwice(if again then Scan(lower, buffer, insideThinking) else Scanned("", buffer, insideThinking), visible, chunk);
        visible := visible + chunk;
        if !again {
          break;
        }
      }
      assert visible + "" == visible;
    }

    /** The end of the answer: what a filter still holds is shown unless it may be a tag. */
    method Finish() returns (tail: string)
      modifies this
      ensures buffer == "" && !insideThinking
      ensures tail == if old(insideThinking) || Lower(lower, old(buffer)) <= OPEN_TAG then "" else old(buffer)
    {
      if insideThinking {
        buffer, insideThinking := "", false;
        return "";
      }
      if buffer != "" && Lower(lower, buffer) <= OPEN_TAG {
        buffer := "";
        return "";
      }
      tail := buffer;
      buffer := "";
    }
  }

  // ---------- A round of the loop follows the scan ----------

  lemma LowerFrom(lower: Lowering, s: string, i: nat)
    requires i <= |s|
    ensures Lower(lower, s[i..]) == Lower(lower, s)[i..]
  {}

  lemma HeldBackStep(tag: string, s: string)
    requires s != "" && HeldBack(tag, s) < |s|
    ensures HeldBack(tag, s[1..]) == HeldBack(tag, s)
  {
    forall k: nat | k < |s|
      ensures IsPartialTag(tag, s[1..], k) == IsPartialTag(tag, s, k)
    {
      assert s[1..][|s[1..]| - k..] == s[|s| - k..];
    }
  }

  /** The cut is at the very beginning if the text starts with the tag, or the tag with the text. */
  lemma CutHere(tag: string, s: string)
    requires tag != "" && (tag <= s || s <= tag)
    ensures CutAt(tag, s) == if tag <= s then Cut(0, |tag|, true) else Cut(0, 0, false)
  {}

  /** Otherwise the first character belongs to no tag. */
  lemma CutStep(tag: string, s: string)
    requires tag != "" && !(tag <= s) && !(s <= tag)
    ensures var c, k := CutAt(tag, s), CutAt(tag, s[1..]);
      c == Cut(k.keep + 1, k.resume + 1, k.found)
  {
    if IndexOf(tag, s).None? {
      assert s[|s| - |s|..] == s;
      assert !IsPartialTag(tag, s, |s|);
      HeldBackStep(tag, s);
    }
  }

  lemma AfterTwice(r: Scanned, x: string, y: string)
    ensures r.After(y).After(x) == r.After(x + y)
    ensures r.After("") == r
  {
    Assoc(x, y, r.visible);
  }

  /** What is left of the scan behind a cut. */
  function Behind(lower: Lowering, s: string, inside: bool, c: Cut): (r: Scanned)
    requires c.resume <= |s| && (c.found ==> 0 < c.resume)
  {
    if c.found then Scan(lower, s[c.resume..], !inside) else Scanned("", s[c.resume..], inside)
  }

  lemma {:induction false} ScanByCut(lower: Lowering, s: string, inside: bool)
    ensures var c := CutAt(Tag(inside), Lower(lower, s));
      Scan(lower, s, inside) == Behind(lower, s, inside, c).After(if inside then "" else s[..c.keep])
    decreases |s|
  {
    var tag, low := Tag(inside), Lower(lower, s);
    var c := CutAt(tag, low);
    if tag <= low || low <= tag {
      CutHere(tag, low);
      assert s[..0] == "" && s[0..] == s;
      AfterTwice(Behind(lower, s, inside, c), "", "");
    } else {
      LowerFrom(lower, s, 1);
      CutStep(tag, low);
      ScanByCut(lower, s[1..], inside);
      var k := CutAt(tag, low[1..]);
      CutStepped(s, k.keep);
      CutStepped(s, k.resume);
      assert Behind(lower, s[1..], inside, k) == Behind(lower, s, inside, c);
      AfterTwice(Behind(lower, s, inside, c), if inside then "" else [s[0]], if inside then "" else s[1..][..k.keep]);
    }
  }

  // ---------- Cutting the input anywhere changes nothing ----------

  lemma LowerAppend(lower: Lowering, a: string, b: string)
    ensures Lower(lower, a + b) == Lower(lower, a) + Lower(lower, b)
  {}

  /** Once a text and a tag disagree, they still do when the text grows. */
  lemma PrefixGrows(tag: string, a: string, b: string)
    ensures tag <= a ==> tag <= a + b
    ensures !(tag <= a) && !(a <= tag) ==> !(tag <= a + b) && !(a + b <= tag)
  {}

  /** Feeding `a` and then `b` shows the same text and leaves the same state as feeding `a + b`. */
  lemma {:induction false} ScanSplit(lower: Lowering, a: string, b: string, inside: bool)
    ensures var first := Scan(lower, a, inside);
      Scan(lower, a + b, inside) == Scan(lower, first.buffer + b, first.insideThinking).After(first.visible)
    decreases |a|
  {
    var tag, low := Tag(inside), Lower(lower, a);
    var first := Scan(lower, a, inside);
    var second := Scan(lower, first.buffer + b, first.insideThinking);
    LowerAppend(lower, a, b);
    PrefixGrows(tag, low, Lower(lower, b));
    if tag <= low {
      DropAppend(a, b, |tag|);
      ScanSplit(lower, a[|tag|..], b, !inside);
    } else if low <= tag {
      AfterTwice(second, "", "");
    } else {
      DropAppend(a, b, 1);
      ScanSplit(lower, a[1..], b, inside);
      AfterTwice(second, if inside then "" else [a[0]], Scan(lower, a[1..], inside).visible);
    }
  }

  /** What a feed leaves in the buffer is always a proper beginning of the tag it waits for. */
  lemma {:induction false} ScanHoldsPartialTag(lower: Lowering, s: string, inside: bool)
    ensures var r := Scan(lower, s, inside); Lower(lower, r.buffer) < Tag(r.insideThinking)
    decreases |s|
  {
    var tag, low := Tag(inside), Lower(lower, s);
    if tag <= low {
      ScanHoldsPartialTag(lower, s[|tag|..], !inside);
    } else if !(low <= tag) {
      ScanHoldsPartialTag(lower, s[1..], inside);
    }
  }

  // ---------- The online filter computes the whole-text meaning ----------

  lemma {:induction false} SkipsToEnd(lower: Lowering, s: string)
    requires |s| < |CLOSE_TAG|
    ensures SkipBlock(lower, s) == ""
  {
    if s != "" {
      SkipsToEnd(lower, s[1..]);
    }
  }

  lemma {:induction false} ScanIsStrip(lower: Lowering, s: string, inside: bool)
    ensures Scan(lower, s, inside).visible == if inside then SkipBlock(lower, s) else Strip(lower, s)
    decreases |s|
  {
    var tag, low := Tag(inside), Lower(lower, s);
    if tag <= low {
      ScanIsStrip(lower, s[|tag|..], !inside);
    } else if s != "" {
      ScanIsStrip(lower, s[1..], inside);
      if low <= tag && inside {
        LowerFrom(lower, s, 1);
        SkipsToEnd(lower, s);
      }
    }
  }

  lemma MeaningByCut(lower: Lowering, s: string, inside: bool)
    ensures var c := CutAt(Tag(inside), Lower(lower, s));
      if inside then SkipBlock(lower, s) == if c.found then Strip(lower, s[c.resume..]) else ""
      else Strip(lower, s) == if c.found then s[..c.keep] + SkipBlock(lower, s[c.resume..]) else s[..c.keep]
  {
    var c := CutAt(Tag(inside), Lower(lower, s));
    ScanIsStrip(lower, s, inside);
    ScanByCut(lower, s, inside);
    ScanIsStrip(lower, s[c.resume..], !inside);
    var shown := if inside then "" else s[..c.keep];
    assert shown + "" == shown;
    var r := Behind(lower, s, inside, c);
    assert r.After(shown).visible == shown + r.visible;
    assert inside ==> shown + r.visible == r.visible;
  }

  lemma StripByCut(lower: Lowering, s: string, c: Cut)
    requires c == CutAt(OPEN_TAG, Lower(lower, s))
    ensures Strip(lower, s) == if c.found then s[..c.keep] + SkipBlock(lower, s[c.resume..]) else s[..c.keep]
  {
    MeaningByCut(lower, s, false);
  }

  lemma SkipByCut(lower: Lowering, block: string, c: Cut)
    requires c == CutAt(CLOSE_TAG, Lower(lower, block))
    ensures SkipBlock(lower, block) == if c.found then Strip(lower, block[c.resume..]) else ""
  {
    MeaningByCut(lower, block, true);
  }

  lemma CutWithoutTag(tag: string, low: string)
    requires tag != "" && IndexOf(tag, low).None?
    ensures var keep := |low| - HeldBack(tag, low); CutAt(tag, low) == Cut(keep, keep, false)
  {}

  lemma CutAtTag(tag: string, low: string, i: nat)
    requires tag != "" && IndexOf(tag, low) == Some(i)
    ensures CutAt(tag, low) == Cut(i, i + |tag|, true)
  {}

  lemma StripWithoutTag(lower: Lowering, s: string)
    requires IndexOf(OPEN_TAG, Lower(lower, s)).None?
    ensures Strip(lower, s) == s[..|s| - HeldBack(OPEN_TAG, Lower(lower, s))]
  {
    CutWithoutTag(OPEN_TAG, Lower(lower, s));
    StripByCut(lower, s, CutAt(OPEN_TAG, Lower(lower, s)));
  }

  lemma StripAtTag(lower: Lowering, s: string, i: nat)
    requires IndexOf(OPEN_TAG, Lower(lower, s)) == Some(i)
    ensures Strip(lower, s) == s[..i] + SkipBlock(lower, s[i + |OPEN_TAG|..])
  {
    CutAtTag(OPEN_TAG, Lower(lower, s), i);
    StripByCut(lower, s, CutAt(OPEN_TAG, Lower(lower, s)));
  }

  lemma SkipOpenBlock(lower: Lowering, block: string)
    requires IndexOf(CLOSE_TAG, Lower(lower, block)).None?
    ensures SkipBlock(lower, block) == ""
  {
    CutWithoutTag(CLOSE_TAG, Lower(lower, block));
    SkipByCut(lower, block, CutAt(CLOSE_TAG, Lower(lower, block)));
  }

  lemma SkipClosedBlock(lower: Lowering, block: string, j: nat)
    requires IndexOf(CLOSE_TAG, Lower(lower, block)) == Some(j)
    ensures SkipBlock(lower, block) == Strip(lower, block[j + |CLOSE_TAG|..])
  {
    CutAtTag(CLOSE_TAG, Lower(lower, block), j);
    SkipByCut(lower, block, CutAt(CLOSE_TAG, Lower(lower, block)));
  }

  /** What is visible from the first opening tag on. */
  lemma StripBlock(lower: Lowering, s: string, i: nat)
    requires IndexOf(OPEN_TAG, Lower(lower, s)) == Some(i)
    ensures var block := s[i + |OPEN_TAG|..];
      match IndexOf(CLOSE_TAG, Lower(lower, block))
      case None => Strip(lower, s) == s[..i]
      case Some(j) => Strip(lower, s) == s[..i] + Strip(lower, block[j + |CLOSE_TAG|..])
  {
    var block := s[i + |OPEN_TAG|..];
    StripAtTag(lower, s, i);
    match IndexOf(CLOSE_TAG, Lower(lower, block))
    case None =>
      SkipOpenBlock(lower, block);
      assert s[..i] + "" == s[..i];
    case Some(j) => SkipClosedBlock(lower, block, j);
  }

  /**
    The meaning by blocks: the leftmost block goes, up to its first closing tag; a block that is
    never closed goes with all that follows; without a block, only a trailing partial tag goes.
   */
  lemma StripByBlocks(lower: Lowering, s: string)
    ensures match IndexOf(OPEN_TAG, Lower(lower, s))
      case None => Strip(lower, s) == s[..|s| - HeldBack(OPEN_TAG, Lower(lower, s))]
      case Some(i) =>
        var block := s[i + |OPEN_TAG|..];
        match IndexOf(CLOSE_TAG, Lower(lower, block))
        case None => Strip(lower, s) == s[..i]
        case Some(j) => Strip(lower, s) == s[..i] + Strip(lower, block[j + |CLOSE_TAG|..])
  {
    match IndexOf(OPEN_TAG, Lower(lower, s))
    case None => StripWithoutTag(lower, s);
    case Some(i) => StripBlock(lower, s, i);
  }

  // ---------- Tags in the visible text, and stripping twice ----------

  /** The visible pieces: each but the last ends at a block that was removed. */
  function Pieces(lower: Lowering, s: string): (pieces: seq<string>)
    ensures pieces != []
    decreases |s|
  {
    match IndexOf(OPEN_TAG, Lower(lower, s))
    case None => [s[..|s| - HeldBack(OPEN_TAG, Lower(lower, s))]]
    case Some(i) => [s[..i]] + PiecesBehind(lower, s[i + |OPEN_TAG|..])
  }

  /** The visible pieces behind a block: none if it is never closed. */
  function PiecesBehind(lower: Lowering, block: string): (pieces: seq<string>)
    decreases |block|
  {
    match IndexOf(CLOSE_TAG, Lower(lower, block))
    case None => []
    case Some(j) => Pieces(lower, block[j + |CLOSE_TAG|..])
  }

  lemma JoinOne(s: string)
    ensures Join([s]) == s
  {
    assert [s][1..] == [];
  }

  lemma {:induction false} PiecesAreVisible(lower: Lowering, s: string)
    ensures Join(Pieces(lower, s)) == Strip(lower, s)
    decreases |s|
  {
    match IndexOf(OPEN_TAG, Lower(lower, s))
    case None =>
      StripWithoutTag(lower, s);
      JoinOne(s[..|s| - HeldBack(OPEN_TAG, Lower(lower, s))]);
    case Some(i) =>
      StripAtTag(lower, s, i);
      PiecesBehindAreVisible(lower, s[i + |OPEN_TAG|..]);
      JoinStep(s[..i], PiecesBehind(lower, s[i + |OPEN_TAG|..]));
  }

  lemma {:induction false} PiecesBehindAreVisible(lower: Lowering, block: string)
    ensures Join(PiecesBehind(lower, block)) == SkipBlock(lower, block)
    decreases |block|
  {
    match IndexOf(CLOSE_TAG, Lower(lower, block))
    case None => SkipOpenBlock(lower, block);
    case Some(j) =>
      SkipClosedBlock(lower, block, j);
      PiecesAreVisible(lower, block[j + |CLOSE_TAG|..]);
  }

  lemma JoinStep(s: string, parts: seq<string>)
    ensures Join([s] + parts) == s + Join(parts)
  {
    assert ([s] + parts)[1..] == parts;
  }

  predicate NoTag(lower: Lowering, s: string) {
    IndexOf(OPEN_TAG, Lower(lower, s)).None?
  }

  /** There is no tag in front of the first one. */
  lemma NoTagInFront(lower: Lowering, s: string, i: nat)
    requires i <= |s|
    requires match IndexOf(OPEN_TAG, Lower(lower, s)) case None => true case Some(k) => i <= k
    ensures NoTag(lower, s[..i])
  {
    LowerAppend(lower, s[..i], s[i..]);
    assert s[..i] + s[i..] == s;
    if IndexOf(OPEN_TAG, Lower(lower, s[..i])).Some? {
      IndexOfGrows(OPEN_TAG, Lower(lower, s[..i]), Lower(lower, s[i..]));
    }
  }

  predicate AllWithoutTag(lower: Lowering, pieces: seq<string>) {
    pieces == [] || (NoTag(lower, pieces[0]) && AllWithoutTag(lower, pieces[1..]))
  }

  lemma {:induction false} PiecesHaveNoTag(lower: Lowering, s: string)
    ensures AllWithoutTag(lower, Pieces(lower, s))
    decreases |s|
  {
    match IndexOf(OPEN_TAG, Lower(lower, s))
    case None => NoTagInFront(lower, s, |s| - HeldBack(OPEN_TAG, Lower(lower, s)));
    case Some(i) =>
      NoTagInFront(lower, s, i);
      PiecesBehindHaveNoTag(lower, s[i + |OPEN_TAG|..]);
      assert Pieces(lower, s)[1..] == PiecesBehind(lower, s[i + |OPEN_TAG|..]);
  }

  lemma {:induction false} PiecesBehindHaveNoTag(lower: Lowering, block: string)
    ensures AllWithoutTag(lower, PiecesBehind(lower, block))
    decreases |block|
  {
    match IndexOf(CLOSE_TAG, Lower(lower, block))
    case None =>
    case Some(j) => PiecesHaveNoTag(lower, block[j + |CLOSE_TAG|..]);
  }

  lemma {:induction false} TagIsFound(pattern: string, s: string, k: nat)
    requires k <= |s| && pattern <= s[k..]
    ensures IndexOf(pattern, s).Some?
  {
    if !(pattern <= s) {
      assert k > 0 && s != "";
      assert s[1..][k - 1..] == s[k..];
      TagIsFound(pattern, s[1..], k - 1);
    }
  }

  /** A tag that starts at `k`. */
  predicate TagAt(lower: Lowering, s: string, k: nat) {
    k <= |s| && OPEN_TAG <= Lower(lower, s[k..])
  }

  /** A tag across pieces without tags has the end of one of them inside it. */
  lemma {:induction false} TagCrossesPiece(lower: Lowering, pieces: seq<string>, k: nat) returns (n: nat)
    requires AllWithoutTag(lower, pieces) && TagAt(lower, Join(pieces), k)
    ensures 0 < n < |pieces| && k < |Join(pieces[..n])| < k + |OPEN_TAG|
    decreases |pieces|
  {
    var all := Join(pieces);
    assert pieces != [];
    var first, rest := pieces[0], Join(pieces[1..]);
    if k >= |first| {
      assert all[k..] == rest[k - |first|..];
      n := TagCrossesPiece(lower, pieces[1..], k - |first|);
      assert pieces[..n + 1] == [first] + pieces[1..][..n];
      JoinStep(first, pieces[1..][..n]);
      n := n + 1;
    } else {
      n := 1;
      JoinOne(first);
      assert pieces[..1] == [first];
      TagEndsBehind(lower, first, rest, k);
      assert pieces[1..] == [] ==> rest == "";
    }
  }

  lemma TagEndsBehind(lower: Lowering, first: string, rest: string, k: nat)
    requires k < |first| && NoTag(lower, first) && TagAt(lower, first + rest, k)
    ensures |first| < k + |OPEN_TAG| <= |first + rest|
  {
    DropAppend(first, rest, k);
    LowerAppend(lower, first[k..], rest);
    LowerFrom(lower, first, k);
    if k + |OPEN_TAG| <= |first| {
      assert OPEN_TAG <= Lower(lower, first)[k..];
      TagIsFound(OPEN_TAG, Lower(lower, first), k);
    }
  }

  /** An opening tag in the visible text was not there before: a removed block lies inside it. */
  lemma VisibleTagStraddlesBlock(lower: Lowering, s: string, k: nat) returns (n: nat)
    requires TagAt(lower, Strip(lower, s), k)
    ensures 0 < n < |Pieces(lower, s)| && k < |Join(Pieces(lower, s)[..n])| < k + |OPEN_TAG|
  {
    PiecesAreVisible(lower, s);
    PiecesHaveNoTag(lower, s);
    n := TagCrossesPiece(lower, Pieces(lower, s), k);
  }

  lemma {:induction false} StripShortens(lower: Lowering, s: string, inside: bool)
    ensures |if inside then SkipBlock(lower, s) else Strip(lower, s)| <= |s|
    decreases |s|
  {
    var tag, low := Tag(inside), Lower(lower, s);
    if tag <= low {
      StripShortens(lower, s[|tag|..], !inside);
    } else if s != "" {
      StripShortens(lower, s[1..], inside);
    }
  }

  /** Exactly the texts without an opening tag, and without a beginning of one at their end, are left alone. */
  lemma StripsToItselfIff(lower: Lowering, s: string)
    ensures Strip(lower, s) == s <==> NoTag(lower, s) && HeldBack(OPEN_TAG, Lower(lower, s)) == 0
  {
    if NoTag(lower, s) {
      StripWithoutTag(lower, s);
    } else {
      TagShortens(lower, s);
    }
  }

  lemma TagShortens(lower: Lowering, s: string)
    requires !NoTag(lower, s)
    ensures |Strip(lower, s)| < |s|
  {
    var i := IndexOf(OPEN_TAG, Lower(lower, s)).value;
    StripAtTag(lower, s, i);
    StripShortens(lower, s[i + |OPEN_TAG|..], true);
  }

  /** Outside of blocks, `<` stands only at the start of a complete tag, or of a partial one at the end. */
  predicate PlainOutside(lower: Lowering, s: string)
    decreases |s|
  {
    if s == "" then true
    else if OPEN_TAG <= Lower(lower, s) then PlainBehindBlock(lower, s[|OPEN_TAG|..])
    else if Lower(lower, s) <= OPEN_TAG then true
    else lower(s[0]) != '<' && PlainOutside(lower, s[1..])
  }

  predicate PlainBehindBlock(lower: Lowering, s: string)
    decreases |s|
  {
    if s == "" then true
    else if CLOSE_TAG <= Lower(lower, s) then PlainOutside(lower, s[|CLOSE_TAG|..])
    else PlainBehindBlock(lower, s[1..])
  }

  lemma {:induction false} PlainIff(lower: Lowering, s: string, inside: bool)
    ensures (if inside then PlainBehindBlock(lower, s) else PlainOutside(lower, s)) <==>
      '<' !in Lower(lower, if inside then SkipBlock(lower, s) else Strip(lower, s))
    decreases |s|
  {
    var tag, low := Tag(inside), Lower(lower, s);
    if tag <= low {
      PlainIff(lower, s[|tag|..], !inside);
    } else if s != "" && (inside || !(low <= tag)) {
      PlainIff(lower, s[1..], inside);
      if !inside {
        LowerAppend(lower, [s[0]], Strip(lower, s[1..]));
        assert Lower(lower, [s[0]]) == [lower(s[0])];
        LowerFrom(lower, s, 1);
      }
    }
  }

  lemma NoBracketNoTag(lower: Lowering, s: string)
    requires '<' !in Lower(lower, s)
    ensures NoTag(lower, s) && HeldBack(OPEN_TAG, Lower(lower, s)) == 0
  {
    var low := Lower(lower, s);
    NotFound(OPEN_TAG, low);
    if HeldBack(OPEN_TAG, low) > 0 {
      PartialTagHasBracket(low, HeldBack(OPEN_TAG, low));
    }
  }

  lemma PartialTagHasBracket(s: string, size: nat)
    requires size > 0 && IsPartialTag(OPEN_TAG, s, size)
    ensures '<' in s
  {
    assert s[|s| - size..][0] == s[|s| - size];
  }

  /** If `<` stands outside of blocks in tags only, the result has no tag, and stripping again changes nothing. */
  lemma PlainStripsOnce(lower: Lowering, s: string)
    requires PlainOutside(lower, s)
    ensures NoTag(lower, Strip(lower, s)) && Strip(lower, Strip(lower, s)) == Strip(lower, s)
  {
    PlainIff(lower, s, false);
    NoBracketNoTag(lower, Strip(lower, s));
    StripsToItselfIff(lower, Strip(lower, s));
  }

  lemma Mismatch(pattern: string, a: string, b: string, rest: string)
    requires a + b == pattern && b != "" && rest != "" && rest[0] != b[0]
    ensures !(pattern <= a + rest)
  {
    assert pattern[|a|] == b[0] && (a + rest)[|a|] == rest[0];
  }

  lemma FirstBehindPart(pattern: string, a: string, rest: string)
    requires a != "" && !(pattern <= a + rest) && pattern != "" && pattern <= rest && pattern[0] !in a[1..]
    ensures IndexOf(pattern, a + rest) == Some(|a|)
  {
    DropAppend(a, rest, 1);
    FirstBehindPlain(pattern, a[1..], rest);
  }

  /** The beginning of a tag in front of a tag is not taken for one. */
  lemma TagBehindPart(a: string, b: string, rest: string)
    requires a + b == OPEN_TAG && a != "" && b != ""
    ensures IndexOf(OPEN_TAG, a + (OPEN_TAG + rest)) == Some(|a|)
  {
    Assoc(a[..1], a[1..], b);
    assert a[..1] + a[1..] == a;
    NoBracketBehind(a[..1], a[1..] + b);
    NoBracketBehind(a, b);
    Mismatch(OPEN_TAG, a, b, OPEN_TAG + rest);
    FirstBehindPart(OPEN_TAG, a, OPEN_TAG + rest);
  }

  lemma NoBracketBehind(a: string, b: string)
    requires a + b == OPEN_TAG && a != ""
    ensures '<' !in b
  {
    assert forall i | 0 <= i < |b| :: b[i] == (a + b)[|a| + i];
    assert forall i | 1 <= i < |OPEN_TAG| :: OPEN_TAG[i] != '<';
  }

  lemma TagIsHidden(lower: Lowering, tag: string)
    requires Lower(lower, tag) == OPEN_TAG
    ensures Strip(lower, tag) == ""
  {}

  /**
    The text around a block is not looked at again: a block in the middle of an opening tag leaves
    that tag behind, and stripping the result once more would hide it.
   */
  lemma TagAroundBlock(lower: Lowering, a: string, b: string, open: string, x: string, close: string)
    requires Lower(lower, a + b) == Lower(lower, open) == OPEN_TAG && a != "" && b != ""
    requires Lower(lower, close) == CLOSE_TAG && IndexOf(CLOSE_TAG, Lower(lower, x + close)) == Some(|x|)
    ensures var once := Strip(lower, a + (open + (x + (close + b))));
      once == a + b && Strip(lower, once) == ""
  {
    var block := x + (close + b);
    var s := a + (open + block);
    var la, lb := Lower(lower, a), Lower(lower, b);
    LowerAppend(lower, a, b);
    LowerAppend(lower, open, block);
    LowerAppend(lower, a, open + block);
    TagBehindPart(la, lb, Lower(lower, block));
    assert s[..|a|] == a && s[|a| + |open|..] == block;
    Assoc(x, close, b);
    LowerAppend(lower, x + close, b);
    IndexOfGrows(CLOSE_TAG, Lower(lower, x + close), lb);
    assert block[|x| + |close|..] == b;
    StripByBlocks(lower, s);
    NoBracketBehind(la, lb);
    NoBracketNoTag(lower, b);
    StripsToItselfIff(lower, b);
    TagIsHidden(lower, a + b);
  }

  /** Without any block, what is left in front of a dropped partial tag may be one itself. */
  lemma PartInFrontOfPart(lower: Lowering)
    requires lower('<') == '<'
    ensures Strip(lower, "<<") == "<" && Strip(lower, "<") == ""
  {
    assert Lower(lower, "<<") == "<<" && Lower(lower, "<") == "<";
    assert "<<"[1..] == "<" && "<<"[1] != OPEN_TAG[1];
  }

  // ---------- Exactly when the result has no tag, and when stripping again changes nothing ----------

  /** A tag whose first character does not come back in it. */
  predicate StartsOnce(tag: string) {
    tag != "" && forall i | 1 <= i < |tag| :: tag[i] != tag[0]
  }

  /** How much of the tag a text ends with, once a character is added to one that ends with `part` of it. */
  function Next(tag: string, part: nat, c: char): (next: nat)
    requires tag != "" && part <= |tag|
    ensures next <= |tag|
  {
    if part == |tag| then part
    else if c == tag[part] then part + 1
    else if c == tag[0] then 1
    else 0
  }

  /** How much of the tag a text ends with; the whole tag if it stood anywhere. */
  function PartAtEnd(tag: string, s: string): (part: nat)
    requires tag != ""
    ensures part <= |tag|
  {
    if s == "" then 0 else Next(tag, PartAtEnd(tag, s[..|s| - 1]), s[|s| - 1])
  }

  /** `s` ends with the first `size` characters of the tag. */
  predicate EndsWithPart(tag: string, s: string, size: nat) {
    size <= |tag| && size <= |s| && s[|s| - size..] == tag[..size]
  }

  lemma PartialIsEnd(tag: string, s: string, size: nat)
    ensures IsPartialTag(tag, s, size) <==> size == 0 || (size < |tag| && EndsWithPart(tag, s, size))
  {
    if size < |tag| && size <= |s| && s[|s| - size..] <= tag {
      assert s[|s| - size..] == tag[..size];
    }
  }

  lemma EndStep(tag: string, s: string, c: char, size: nat)
    ensures EndsWithPart(tag, s + [c], size + 1) <==> size < |tag| && tag[size] == c && EndsWithPart(tag, s, size)
  {
    var t := s + [c];
    if size < |tag| && size <= |s| {
      assert t[|t| - (size + 1)..] == s[|s| - size..] + [c];
      assert tag[..size + 1] == tag[..size] + [tag[size]];
      assert |s[|s| - size..]| == |tag[..size]|;
      if t[|t| - (size + 1)..] == tag[..size + 1] {
        assert (s[|s| - size..] + [c])[..size] == s[|s| - size..];
        assert (tag[..size] + [tag[size]])[..size] == tag[..size];
        assert (s[|s| - size..] + [c])[size] == c;
      }
    }
  }

  /** Two parts of such a tag cannot both end a text, unless one is empty. */
  lemma OnePart(tag: string, s: string, i: nat, j: nat)
    requires StartsOnce(tag) && EndsWithPart(tag, s, i) && EndsWithPart(tag, s, j) && 0 < i <= j
    ensures i == j
  {
    assert s[|s| - i] == s[|s| - i..][0] == tag[..i][0] == tag[0];
    assert s[|s| - j..][j - i] == tag[..j][j - i] == tag[j - i];
    assert s[|s| - j..][j - i] == s[|s| - i];
  }

  /** The automaton ends where the text ends. */
  lemma {:induction false} PartIsEnd(tag: string, s: string)
    requires StartsOnce(tag)
    ensures IndexOf(tag, s).None? ==> PartAtEnd(tag, s) < |tag| && EndsWithPart(tag, s, PartAtEnd(tag, s))
    ensures IndexOf(tag, s).None? ==> forall k | 0 < k <= |tag| && EndsWithPart(tag, s, k) :: k == PartAtEnd(tag, s)
    ensures IndexOf(tag, s).Some? ==> PartAtEnd(tag, s) == |tag|
  {
    if s != "" {
      var front, c := s[..|s| - 1], s[|s| - 1];
      assert s == front + [c];
      PartIsEnd(tag, front);
      TagAtEnd(tag, front, c);
      if IndexOf(tag, front).None? {
        NextIsEnd(tag, front, c, PartAtEnd(tag, front));
      }
    }
  }

  lemma NextIsEnd(tag: string, s: string, c: char, part: nat)
    requires StartsOnce(tag) && part < |tag| && EndsWithPart(tag, s, part)
    requires forall k | 0 < k <= |tag| && EndsWithPart(tag, s, k) :: k == part
    ensures EndsWithPart(tag, s + [c], Next(tag, part, c))
    ensures forall k | 0 < k <= |tag| && EndsWithPart(tag, s + [c], k) :: k == Next(tag, part, c)
  {
    EndStep(tag, s, c, part);
    EndStep(tag, s, c, 0);
    forall k | 0 < k <= |tag| && EndsWithPart(tag, s + [c], k)
      ensures k == Next(tag, part, c)
    {
      EndStep(tag, s, c, k - 1);
      if k > 1 {
        assert k - 1 == part;
      } else if c == tag[part] {
        OnePart(tag, s + [c], k, part + 1);
      }
    }
  }

  lemma FoundInFront(tag: string, s: string, c: char, k: nat)
    requires k + |tag| <= |s| && (s + [c])[k..k + |tag|] == tag
    ensures IndexOf(tag, s).Some?
  {
    assert s[k..][..|tag|] == (s + [c])[k..k + |tag|];
    TagIsFound(tag, s, k);
  }

  lemma FoundAtEnd(tag: string, s: string)
    requires EndsWithPart(tag, s, |tag|)
    ensures IndexOf(tag, s).Some?
  {
    assert tag[..|tag|] == tag;
    TagIsFound(tag, s, |s| - |tag|);
  }

  /** A longer text has a tag exactly if it had one, or ends with one. */
  lemma TagAtEnd(tag: string, s: string, c: char)
    requires tag != ""
    ensures IndexOf(tag, s + [c]).Some? <==> IndexOf(tag, s).Some? || EndsWithPart(tag, s + [c], |tag|)
  {
    if IndexOf(tag, s).Some? {
      IndexOfGrows(tag, s, [c]);
    } else if EndsWithPart(tag, s + [c], |tag|) {
      FoundAtEnd(tag, s + [c]);
    } else if IndexOf(tag, s + [c]).Some? {
      NewTagEnds(tag, s, c);
    }
  }

  lemma NewTagEnds(tag: string, s: string, c: char)
    requires IndexOf(tag, s + [c]).Some? && IndexOf(tag, s).None?
    ensures EndsWithPart(tag, s + [c], |tag|)
  {
    var t := s + [c];
    var k := IndexOf(tag, t).value;
    FoundIsThere(tag, t);
    if k + |tag| <= |s| {
      FoundInFront(tag, s, c, k);
    } else {
      LastIsEnd(tag, t, k);
    }
  }

  lemma LastIsEnd(tag: string, s: string, k: nat)
    requires k + |tag| == |s| && s[k..k + |tag|] == tag
    ensures EndsWithPart(tag, s, |tag|)
  {
    assert s[k..] == s[k..k + |tag|] && tag[..|tag|] == tag;
  }

  /** How much of an opening tag the visible text ends with, after what showed `part` of one. */
  function PartAfter(lower: Lowering, s: string, part: nat): (r: nat)
    requires part <= |OPEN_TAG|
    decreases |s|
  {
    if s == "" then part
    else if OPEN_TAG <= Lower(lower, s) then PartBehindBlock(lower, s[|OPEN_TAG|..], part)
    else if Lower(lower, s) <= OPEN_TAG then part
    else PartAfter(lower, s[1..], Next(OPEN_TAG, part, lower(s[0])))
  }

  function PartBehindBlock(lower: Lowering, s: string, part: nat): (r: nat)
    requires part <= |OPEN_TAG|
    decreases |s|
  {
    if s == "" then part
    else if CLOSE_TAG <= Lower(lower, s) then PartAfter(lower, s[|CLOSE_TAG|..], part)
    else PartBehindBlock(lower, s[1..], part)
  }

  lemma {:induction false} PartOfVisible(lower: Lowering, v: string, s: string, inside: bool)
    ensures var part := PartAtEnd(OPEN_TAG, Lower(lower, v));
      if inside then PartBehindBlock(lower, s, part) == PartAtEnd(OPEN_TAG, Lower(lower, v + SkipBlock(lower, s)))
      else PartAfter(lower, s, part) == PartAtEnd(OPEN_TAG, Lower(lower, v + Strip(lower, s)))
    decreases |s|
  {
    var tag, low := Tag(inside), Lower(lower, s);
    assert v + "" == v;
    if tag <= low {
      PartOfVisible(lower, v, s[|tag|..], !inside);
    } else if inside && s != "" {
      PartOfVisible(lower, v, s[1..], inside);
    } else if !inside && !(low <= tag) {
      PartOfVisible(lower, v + [s[0]], s[1..], inside);
      Assoc(v, [s[0]], Strip(lower, s[1..]));
      PartOfOneMore(lower, v, s[0]);
    }
  }

  lemma PartOfOneMore(lower: Lowering, v: string, c: char)
    ensures PartAtEnd(OPEN_TAG, Lower(lower, v + [c])) == Next(OPEN_TAG, PartAtEnd(OPEN_TAG, Lower(lower, v)), lower(c))
  {
    LowerAppend(lower, v, [c]);
    assert Lower(lower, [c]) == [lower(c)];
    assert (Lower(lower, v) + [lower(c)])[..|v|] == Lower(lower, v);
  }

  lemma OpenTagStartsOnce()
    ensures StartsOnce(OPEN_TAG)
  {}

  /** The visible text has an opening tag exactly if the scan of the input completes one. */
  lemma VisibleTagIff(lower: Lowering, s: string)
    ensures NoTag(lower, Strip(lower, s)) <==> PartAfter(lower, s, 0) < |OPEN_TAG|
  {
    PartOfVisible(lower, "", s, false);
    assert Lower(lower, "") == "" && "" + Strip(lower, s) == Strip(lower, s);
    OpenTagStartsOnce();
    PartIsEnd(OPEN_TAG, Lower(lower, Strip(lower, s)));
  }

  /** A text is left alone exactly if the automaton is at its start when the text ends. */
  lemma StripsToItselfByPart(lower: Lowering, v: string)
    ensures Strip(lower, v) == v <==> PartAtEnd(OPEN_TAG, Lower(lower, v)) == 0
  {
    var low := Lower(lower, v);
    StripsToItselfIff(lower, v);
    OpenTagStartsOnce();
    PartIsEnd(OPEN_TAG, low);
    PartialIsEnd(OPEN_TAG, low, HeldBack(OPEN_TAG, low));
    if IndexOf(OPEN_TAG, low).None? {
      PartialIsEnd(OPEN_TAG, low, PartAtEnd(OPEN_TAG, low));
    }
  }

  /** Stripping again changes nothing exactly if the scan of the input ends outside of any tag. */
  lemma StripTwiceIff(lower: Lowering, s: string)
    ensures Strip(lower, Strip(lower, s)) == Strip(lower, s) <==> PartAfter(lower, s, 0) == 0
  {
    PartOfVisible(lower, "", s, false);
    assert Lower(lower, "") == "" && "" + Strip(lower, s) == Strip(lower, s);
    StripsToItselfByPart(lower, Strip(lower, s));
  }

  /**
    Thoughts in the middle of a text without `<` are hidden, and nothing else, however the tags are
    written as long as they are lower-cased to the two tags.
   */
  lemma ThoughtIsHidden(lower: Lowering, a: string, open: string, x: string, close: string, b: string)
    requires Lower(lower, open) == "<think>" && Lower(lower, close) == "</think>"
    requires '<' !in Lower(lower, a) && '<' !in Lower(lower, x)
    ensures Strip(lower, a + (open + (x + (close + b)))) == a + Strip(lower, b)
  {
    var block := x + (close + b);
    var s := a + (open + block);
    var la, lx := Lower(lower, a), Lower(lower, x);
    LowerAppend(lower, open, block);
    LowerAppend(lower, a, open + block);
    FirstBehindPlain(OPEN_TAG, la, OPEN_TAG + Lower(lower, block));
    LowerAppend(lower, close, b);
    LowerAppend(lower, x, close + b);
    FirstBehindPlain(CLOSE_TAG, lx, CLOSE_TAG + Lower(lower, b));
    assert s[..|a|] == a && s[|a| + |open|..] == block && block[|x| + |close|..] == b;
    StripBlock(lower, s, |a|);
  }

  /** What was visible of a beginning is a beginning of what is visible of the whole. */
  lemma VisibleGrows(lower: Lowering, a: string, b: string)
    ensures Strip(lower, a) <= Strip(lower, a + b)
  {
    ScanSplit(lower, a, b, false);
    ScanIsStrip(lower, a, false);
    ScanIsStrip(lower, a + b, false);
  }

  /**
    Any number of feeds and one finish show exactly the stripped text.  The finish itself never
    shows anything: what the filter still holds outside a block is the beginning of a tag.
   */
  method FilterChunks(lower: Lowering, chunks: seq<string>) returns (visible: string, tail: string)
    ensures visible + tail == Strip(lower, Join(chunks))
    ensures tail == ""
  {
    var filter := new AssistantThinkingFilter(lower);
    visible := "";
    ghost var fed := "";
    for n := 0 to |chunks|
      invariant fed == Join(chunks[..n])
      invariant Scanned(visible, filter.buffer, filter.insideThinking) == Scan(lower, fed, false)
      invariant filter.lower == lower
    {
      var more := filter.Feed(chunks[n]);
      ScanSplit(lower, fed, chunks[n], false);
      assert chunks[..n + 1] == chunks[..n] + [chunks[n]];
      JoinAppend(chunks[..n], [chunks[n]]);
      assert Join([chunks[n]]) == chunks[n];
      fed := fed + chunks[n];
      visible := visible + more;
    }
    assert chunks[..|chunks|] == chunks;
    ScanHoldsPartialTag(lower, fed, false);
    ScanIsStrip(lower, fed, false);
    tail := filter.Finish();
  }
}
