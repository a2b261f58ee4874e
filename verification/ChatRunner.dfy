/**
  The streaming part of `sendMessage` (frontend/chat-runner.js): network chunks are framed, decoded,
  filtered, and put on the screen in animation frames.  Whatever the chunks and whenever the frames
  come, the answer on the screen is one function of the whole stream.
 */
module ChatRunner {
  import opened Text
  import opened ThinkingFilter
  import opened SseFraming

  datatype Decoder = Decoder(parse: string -> Parsed, lower: Lowering)

  /** The answer a whole stream stands for. */
  function AnswerText(d: Decoder, stream: string): (text: string) {
    Strip(d.lower, Contents(d.parse, DataLines(stream)))
  }

  /** What can be shown of it when only `received` has arrived. */
  function VisibleText(d: Decoder, received: string): (text: string) {
    Scan(d.lower, Contents(d.parse, Frame(received).lines), false).visible
  }

  /** Nothing that was shown is ever taken back: it is the beginning of the answer. */
  lemma VisibleIsPrefixOfAnswer(d: Decoder, received: string, rest: string)
    ensures VisibleText(d, received) <= VisibleText(d, received + rest) <= AnswerText(d, received + rest)
  {
    var shown := Contents(d.parse, Frame(received).lines);
    ScanIsStrip(d.lower, shown, false);
    FrameSplit(received, rest);
    var f := Frame(Frame(received).remainder + rest);
    ContentsAppend(d.parse, Frame(received).lines, f.lines);
    VisibleGrows(d.lower, shown, Contents(d.parse, f.lines));
    var all := Frame(received + rest);
    FrameKeepsDataLines(received + rest);
    ContentsAppend(d.parse, all.lines, DataLines(all.remainder));
    ScanIsStrip(d.lower, Contents(d.parse, all.lines), false);
    VisibleGrows(d.lower, Contents(d.parse, all.lines), Contents(d.parse, DataLines(all.remainder)));
  }

  /** The variables that the callbacks inside `sendMessage` share. */
  class StreamingMessage {
    const decoder: Decoder
    const thinkingFilter: AssistantThinkingFilter
    var buffer: string
    var fullText: string
    var pendingChunk: string
    var messageShown: bool
    var frameScheduled: bool
    ghost var received: string
    ghost var fed: string

    /** Every visible character is on the screen or pending, and pending text has a frame coming. */
    ghost predicate Valid()
      reads this, thinkingFilter
    {
      && thinkingFilter.lower == decoder.lower
      && Scanned(fullText + pendingChunk, thinkingFilter.buffer, thinkingFilter.insideThinking)
         == Scan(decoder.lower, fed, false)
      && (messageShown <==> fullText != "")
      && (frameScheduled <==> pendingChunk != "")
      && (frameScheduled ==> messageShown)
    }

    /** All complete blocks received so far went through the filter. */
    ghost predicate InStep()
      reads this
    {
      && fed == Contents(decoder.parse, Frame(received).lines)
      && buffer == Frame(received).remainder
    }

    constructor (decoder: Decoder)
      ensures Valid() && InStep() && fresh(thinkingFilter)
      ensures received == "" && this.decoder == decoder
    {
      this.decoder := decoder;
      thinkingFilter := new AssistantThinkingFilter(decoder.lower);
      buffer, fullText, pendingChunk, messageShown, frameScheduled := "", "", "", false, false;
      received, fed := "", "";
    }

    method RenderVisibleChunk(chunk: string)
      requires messageShown <==> fullText != ""
      modifies this`fullText, this`messageShown
      ensures fullText == old(fullText) + chunk
      ensures messageShown <==> fullText != ""
    {
      if chunk == "" {
        return;
      }
      if !messageShown {
        fullText := chunk;
        messageShown := true;
        return;
      }
      fullText := fullText + chunk;
    }

    method FlushPendingVisibleChunks()
      requires messageShown <==> fullText != ""
      modifies this`fullText, this`messageShown, this`pendingChunk, this`frameScheduled
      ensures fullText == old(fullText + pendingChunk) && pendingChunk == "" && !frameScheduled
      ensures messageShown <==> fullText != ""
      ensures old(Valid()) ==> Valid()
    {
      if frameScheduled {
        frameScheduled := false;
      }
      var chunk := pendingChunk;
      pendingChunk := "";
      RenderVisibleChunk(chunk);
      assert fullText + pendingChunk == old(fullText + pendingChunk);
    }

    /** The callback given to `requestAnimationFrame`; a cancelled frame does not call it. */
    method FrameFires()
      requires Valid()
      modifies this`fullText, this`messageShown, this`pendingChunk, this`frameScheduled
      ensures Valid()
      ensures fullText == old(fullText + pendingChunk) && pendingChunk == "" && !frameScheduled
    {
      if !frameScheduled {
        assert fullText + pendingChunk == fullText;
        return;
      }
      frameScheduled := false;
      var nextChunk := pendingChunk;
      pendingChunk := "";
      RenderVisibleChunk(nextChunk);
      assert fullText + pendingChunk == old(fullText + pendingChunk);
    }

    method AppendVisibleChunk(chunk: string)
      requires messageShown <==> fullText != ""
      requires frameScheduled <==> pendingChunk != ""
      requires frameScheduled ==> messageShown
      modifies this`fullText, this`messageShown, this`pendingChunk, this`frameScheduled
      ensures fullText + pendingChunk == old(fullText + pendingChunk) + chunk
      ensures fullText == old(fullText) + (if old(messageShown) then "" else chunk)
      ensures messageShown <==> fullText != ""
      ensures frameScheduled <==> pendingChunk != ""
      ensures frameScheduled ==> messageShown
    {
      if chunk == "" {
        assert fullText + pendingChunk == old(fullText + pendingChunk) + chunk;
        return;
      }
      if !messageShown {
        RenderVisibleChunk(chunk);
        return;
      }
      pendingChunk := pendingChunk + chunk;
      if !frameScheduled {
        frameScheduled := true;
      }
    }

    method ApplyChunk(chunk: string)
      requires Valid()
      modifies this`fullText, this`messageShown, this`pendingChunk, this`frameScheduled, this`fed, thinkingFilter
      ensures Valid()
      ensures fed == old(fed) + chunk && old(fullText) <= fullText
    {
      ScanSplit(decoder.lower, fed, chunk, false);
      var visibleChunk := thinkingFilter.Feed(chunk);
      fed := fed + chunk;
      if visibleChunk != "" {
        AppendVisibleChunk(visibleChunk);
      }
    }

    /** Calls `applyChunk` for every data line of one block that says something. */
    method ProcessBlock(eventBlock: string)
      requires Valid()
      modifies this`fullText, this`messageShown, this`pendingChunk, this`frameScheduled, this`fed, thinkingFilter
      ensures Valid()
      ensures fed == old(fed) + Contents(decoder.parse, DataLines(eventBlock)) && old(fullText) <= fullText
    {
      var dataLines := DataLines(eventBlock);
      assert dataLines[0..] == dataLines;
      for l := 0 to |dataLines|
        invariant Valid() && old(fullText) <= fullText
        invariant fed + Contents(decoder.parse, dataLines[l..]) == old(fed) + Contents(decoder.parse, dataLines)
      {
        assert dataLines[l..][1..] == dataLines[l + 1..];
        var content := Content(decoder.parse, dataLines[l]);
        Assoc(fed, content, Contents(decoder.parse, dataLines[l + 1..]));
        if content != "" {
          ApplyChunk(content);
        } else {
          assert fed + content == fed;
        }
      }
      assert fed + "" == fed;
    }

    /** Processes the complete blocks of a buffer, in order, and returns the incomplete rest. */
    method ProcessSseBuffer(text: string) returns (remainder: string)
      requires Valid()
      modifies this`fullText, this`messageShown, this`pendingChunk, this`frameScheduled, this`fed, thinkingFilter
      ensures Valid()
      ensures fed == old(fed) + Contents(decoder.parse, Frame(text).lines) && old(fullText) <= fullText
      ensures remainder == Frame(text).remainder
    {
      var events := Split(BLOCK_END, text);
      FrameIsSplit(text);
      remainder := events[|events| - 1];
      assert events[0..] == events;
      for e := 0 to |events| - 1
        invariant Valid() && old(fullText) <= fullText
        invariant fed + Contents(decoder.parse, BlockLines(events[e..])) == old(fed) + Contents(decoder.parse, BlockLines(events))
      {
        ghost var later := BlockLines(events[e + 1..]);
        assert events[e..][1..] == events[e + 1..];
        ContentsAppend(decoder.parse, DataLines(events[e]), later);
        Assoc(fed, Contents(decoder.parse, DataLines(events[e])), Contents(decoder.parse, later));
        ProcessBlock(events[e]);
      }
      assert fed + "" == fed;
    }

    /** One turn of the read loop. */
    method Receive(value: string)
      requires Valid() && InStep()
      modifies this, thinkingFilter
      ensures Valid() && InStep()
      ensures received == old(received) + value && old(fullText) <= fullText
      ensures fullText + pendingChunk == VisibleText(decoder, received)
    {
      FrameSplit(received, value);
      ContentsAppend(decoder.parse, Frame(received).lines, Frame(buffer + value).lines);
      buffer := buffer + value;
      buffer := ProcessSseBuffer(buffer);
      received := received + value;
    }

    /** The last pass over the buffer; `tail` is what the text decoder still held. */
    method ProcessRest(tail: string)
      requires Valid() && InStep()
      modifies this, thinkingFilter
      ensures Valid() && old(fullText) <= fullText
      ensures fed == Contents(decoder.parse, DataLines(old(received) + tail))
    {
      DeliveredAndRest(received, tail);
      ContentsAppend(decoder.parse, Frame(received).lines, DataLines(buffer + tail));
      if tail != "" {
        buffer := buffer + tail;
      } else {
        assert buffer + tail == buffer;
      }
      if Trim(buffer) != "" {
        FinalFlush(buffer);
        var _ := ProcessSseBuffer(buffer + BLOCK_END);
      } else {
        SkippedRemainder(buffer);
        assert fed + "" == fed;
      }
    }

    /** The end of the stream. */
    method FinishStream(tail: string)
      requires Valid() && InStep()
      modifies this, thinkingFilter
      ensures old(fullText) <= fullText && pendingChunk == "" && !frameScheduled
      ensures fullText == AnswerText(decoder, old(received) + tail)
      ensures messageShown <==> fullText != ""
    {
      ProcessRest(tail);
      ScanHoldsPartialTag(decoder.lower, fed, false);
      ScanIsStrip(decoder.lower, fed, false);
      var visibleTail := thinkingFilter.Finish();
      if visibleTail != "" {
        assert false;  // the filter holds back only what can never be shown
      }
      FlushPendingVisibleChunks();
    }
  }

  // ---------- Whole runs ----------

  datatype Event = Network(text: string) | AnimationFrame

  datatype End = Done(tail: string) | Broken

  /** What the user is left with: `Interrupted` keeps the partial answer and adds a remark. */
  datatype Answer = Complete(text: string) | NothingToShow | Interrupted(partial: string) | Failed

  function Received(events: seq<Event>): (text: string) {
    if events == [] then ""
    else
      var last := events[|events| - 1];
      Received(events[..|events| - 1]) + if last.Network? then last.text else ""
  }

  /** For every way of cutting the stream, every schedule of frames, and both ways of ending. */
  method StreamAnswer(d: Decoder, events: seq<Event>, end: End) returns (answer: Answer)
    ensures end.Done? ==>
      var text := AnswerText(d, Received(events) + end.tail);
      answer == if text == "" then NothingToShow else Complete(text)
    ensures end.Broken? ==>
      var partial := VisibleText(d, Received(events));
      answer == if Trim(partial) == "" then Failed else Interrupted(partial)
  {
    var message := new StreamingMessage(d);
    for n := 0 to |events|
      invariant message.Valid() && message.InStep() && message.decoder == d
      invariant fresh(message) && fresh(message.thinkingFilter)
      invariant message.received == Received(events[..n])
    {
      assert events[..n + 1][..n] == events[..n];
      match events[n]
      case Network(text) => message.Receive(text);
      case AnimationFrame =>
        message.FrameFires();
        assert Received(events[..n]) + "" == Received(events[..n]);
    }
    assert events[..|events|] == events;
    match end
    case Done(tail) =>
      message.FinishStream(tail);
      answer := if message.messageShown then Complete(message.fullText) else NothingToShow;
    case Broken =>
      message.FlushPendingVisibleChunks();
      assert message.fullText + "" == message.fullText;
      if message.messageShown && Trim(message.fullText) != "" {
        answer := Interrupted(message.fullText);
      } else {
        answer := Failed;
      }
  }
}
