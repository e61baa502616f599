/**
 * The streaming relay of `LLMService.chat_stream` in `backend/main.py`: the
 * loop that reads a server-sent-event stream from an OpenAI-compatible
 * `/chat/completions` endpoint, cuts it into lines and forwards the content
 * of each `data:` line as an event.
 *
 * The stream arrives as chunks already decoded to text; JSON decoding of
 * one `data:` payload is the parameter `decode`.
 */
module Relay {
  import opened PyStr
  import opened Retrieval

  // ---------------------------------------------------------------------
  // Events and inputs

  /** What the generator yields, one JSON object each: `{"content": …}`,
      `{"references": […]}`, `{"error": …}` and `{"done": true}`. */
  datatype Event = Content(text: string) | References(refs: seq<Reference>) | Error(message: string) | Done

  /** The result of `json.loads(data)` followed by the look-up of
      `choices[0].delta.content`: `Fields("")` when the payload is an object
      without choices, delta or content, or whose content is empty, `null` or
      any other falsy value (`if content:` skips it); `BadJson` for a
      `json.JSONDecodeError`; `Crash` for any other exception (a payload that
      is not an object, or a truthy content that is not a string, which
      `full_response += content` rejects), which escapes the loop. */
  datatype Decoded = Fields(content: string) | BadJson | Crash(message: string)

  const DataPrefix := "data: "
  const DoneMarker := "[DONE]"

  // ---------------------------------------------------------------------
  // One line of the stream

  /** Where a stream line leads. */
  datatype LineOutcome = Skip | Emit(content: string) | Stop | Fail(message: string)

  /** One line of the inner loop: it is stripped; a line not starting with
      `"data: "` is skipped; `"[DONE]"` stops the inner loop; a payload that
      fails to decode is skipped; a non-empty content is emitted; any other
      exception ends the stream. */
  function Classify(line: string, decode: string -> Decoded): LineOutcome {
    var l := Strip(line);
    if !StartsWith(l, DataPrefix) then Skip
    else
      var data := l[|DataPrefix|..];
      if data == DoneMarker then Stop
      else match decode(data)
        case Fields(c) => if c == "" then Skip else Emit(c)
        case BadJson => Skip
        case Crash(m) => Fail(m)
  }

  /** The body of the inner loop for one line, up to what it does with the
      relay's state: strip, check the prefix, cut it off, compare with
      `[DONE]`, decode and look at the content. */
  method ReadLine(line: string, decode: string -> Decoded) returns (outcome: LineOutcome)
    ensures outcome == Classifier(decode)(line)
  {
    ClassifierApplies(decode, line);
    var l := Strip(line);
    if !StartsWith(l, DataPrefix) {
      return Skip;
    }
    var data := l[|DataPrefix|..];
    if data == DoneMarker {
      return Stop;
    }
    match decode(data)
    case BadJson =>
      return Skip;
    case Crash(m) =>
      return Fail(m);
    case Fields(content) =>
      if content == "" {
        return Skip;
      }
      return Emit(content);
  }

  /** The classification the relay applies to its lines. */
  function Classifier(decode: string -> Decoded): string -> LineOutcome {
    line => Classify(line, decode)
  }

  lemma ClassifierApplies(decode: string -> Decoded, line: string)
    ensures Classifier(decode)(line) == Classify(line, decode)
  {
  }

  /** A line is emitted exactly when, once stripped, it carries the
      `"data: "` prefix, its payload is not `[DONE]`, and the decoder finds a
      non-empty content in it; the content emitted is that one. */
  lemma ClassifyEmit(line: string, decode: string -> Decoded)
    ensures Classify(line, decode).Emit? ==>
      var c := Classify(line, decode).content;
      && c != ""
      && StartsWith(Strip(line), DataPrefix)
      && Strip(line)[|DataPrefix|..] != DoneMarker
      && decode(Strip(line)[|DataPrefix|..]) == Fields(c)
    ensures StartsWith(Strip(line), DataPrefix) && Strip(line)[|DataPrefix|..] != DoneMarker ==>
      var d := decode(Strip(line)[|DataPrefix|..]);
      d.Fields? && d.content != "" ==> Classify(line, decode) == Emit(d.content)
  {
  }

  /** A line is skipped without a `"data: "` prefix, stops the loop exactly
      when it reads `data: [DONE]` once stripped, and raises exactly when the
      decoder raises on a payload other than `[DONE]`. */
  lemma ClassifyCases(line: string, decode: string -> Decoded)
    ensures !StartsWith(Strip(line), DataPrefix) ==> Classify(line, decode) == Skip
    ensures Classify(line, decode) == Stop <==> Strip(line) == DataPrefix + DoneMarker
    ensures Classify(line, decode).Fail? <==>
      && StartsWith(Strip(line), DataPrefix)
      && Strip(line)[|DataPrefix|..] != DoneMarker
      && decode(Strip(line)[|DataPrefix|..]).Crash?
  {
    var l := Strip(line);
    if StartsWith(l, DataPrefix) {
      assert l == DataPrefix + l[|DataPrefix|..];
    }
  }

  /** `"\n" not in s` */
  predicate NoNewline(s: string) {
    forall i :: 0 <= i < |s| ==> s[i] != '\n'
  }

  /** The position of the first newline: `buffer.split("\n", 1)` cuts there. */
  function FirstNewline(s: string): (k: nat)
    requires !NoNewline(s)
    ensures k < |s| && s[k] == '\n'
    ensures forall i :: 0 <= i < k ==> s[i] != '\n'
  {
    if s[0] == '\n' then 0
    else
      assert !NoNewline(s[1..]) by {
        var i :| 0 <= i < |s| && s[i] == '\n';
        assert s[1..][i - 1] == '\n';
      }
      1 + FirstNewline(s[1..])
  }

  // ---------------------------------------------------------------------
  // The inner loop

  /** How the inner `while "\n" in buffer` loop ended: no newline left, a
      `[DONE]` line, or an exception. */
  datatype DrainEnd = Drained | Stopped | Failed(message: string)

  /** The buffer left, the contents emitted in order, and how it ended. */
  datatype Drain = Drain(rest: string, contents: seq<string>, end: DrainEnd)

  /** The buffer `rest` is what follows the last newline of `s` (all of `s`
      when it has none). */
  predicate AfterLastNewline(s: string, rest: string) {
    && |rest| <= |s| && rest == s[|s| - |rest|..]
    && NoNewline(rest)
    && (|rest| < |s| ==> s[|s| - |rest| - 1] == '\n')
  }

  /** The inner loop over `buffer`, line by line. */
  function DrainLines(buffer: string, classify: string -> LineOutcome): Drain
    decreases |buffer|
  {
    if NoNewline(buffer) then Drain(buffer, [], Drained)
    else
      var k := FirstNewline(buffer);
      var rest := buffer[k + 1..];
      match classify(buffer[..k])
      case Skip => DrainLines(rest, classify)
      case Emit(c) =>
        var r := DrainLines(rest, classify);
        Drain(r.rest, [c] + r.contents, r.end)
      case Stop => Drain(rest, [], Stopped)
      case Fail(m) => Drain(rest, [], Failed(m))
  }

  /** The buffer left is a suffix of the buffer drained. */
  lemma {:induction false} DrainSuffix(buffer: string, classify: string -> LineOutcome)
    ensures EndsWith(buffer, DrainLines(buffer, classify).rest)
    decreases |buffer|
  {
    var left := DrainLines(buffer, classify).rest;
    if NoNewline(buffer) {
      assert buffer[0..] == buffer;
    } else {
      var k := FirstNewline(buffer);
      var rest := buffer[k + 1..];
      if classify(buffer[..k]).Skip? || classify(buffer[..k]).Emit? {
        assert left == DrainLines(rest, classify).rest;
        DrainSuffix(rest, classify);
        EndsWithTail(buffer, k + 1, left);
      } else {
        assert left == rest;
        EndsWithTail(buffer, k + 1, left);
      }
    }
  }

  /** A suffix of a suffix is a suffix. */
  lemma EndsWithTail(s: string, a: nat, t: string)
    requires a <= |s|
    requires t == s[a..] || EndsWith(s[a..], t)
    ensures EndsWith(s, t)
  {
    assert s[a..][|s| - a - |t|..] == s[|s| - |t|..];
  }

  /** When the loop ran out of newlines, the buffer holds no newline and is
      exactly the text after the last one. */
  lemma {:induction false} DrainedRest(buffer: string, classify: string -> LineOutcome)
    requires DrainLines(buffer, classify).end == Drained
    ensures AfterLastNewline(buffer, DrainLines(buffer, classify).rest)
  {
    if !NoNewline(buffer) {
      var k := FirstNewline(buffer);
      var rest := buffer[k + 1..];
      var o := classify(buffer[..k]);
      assert o.Skip? || o.Emit?;
      var r := DrainLines(rest, classify);
      assert DrainLines(buffer, classify).rest == r.rest && r.end == Drained;
      DrainedRest(rest, classify);
      TailAfter(buffer, k, r.rest);
    }
  }

  /** The text after the last newline of `s[k + 1..]` is the text after the
      last newline of `s` when `s[k]` is a newline. */
  lemma TailAfter(s: string, k: nat, rest: string)
    requires k < |s| && s[k] == '\n'
    requires AfterLastNewline(s[k + 1..], rest)
    ensures AfterLastNewline(s, rest)
  {
    var t := s[k + 1..];
    assert rest == s[|s| - |rest|..];
    if |rest| == |t| {
      assert s[|s| - |rest| - 1] == s[k];
    } else {
      assert s[|s| - |rest| - 1] == t[|t| - |rest| - 1];
    }
  }

  /** Splitting `line + "\n" + rest` at its first newline gives back `line`
      and `rest`. */
  lemma CutLine(line: string, rest: string)
    requires NoNewline(line)
    ensures !NoNewline(line + "\n" + rest)
    ensures FirstNewline(line + "\n" + rest) == |line|
    ensures (line + "\n" + rest)[..|line|] == line
    ensures (line + "\n" + rest)[|line| + 1..] == rest
  {
    var s := line + "\n" + rest;
    assert s[|line|] == '\n';
  }

  /** A skipped line (no `"data: "` prefix, an undecodable payload, an empty
      content) changes nothing: draining continues with the next line. */
  lemma SkippedLine(line: string, rest: string, classify: string -> LineOutcome)
    requires NoNewline(line)
    requires classify(line) == Skip
    ensures DrainLines(line + "\n" + rest, classify) == DrainLines(rest, classify)
  {
    CutLine(line, rest);
  }

  /** An emitted line puts its content before the contents of what follows. */
  lemma EmittedLine(line: string, rest: string, classify: string -> LineOutcome)
    requires NoNewline(line)
    requires classify(line).Emit?
    ensures var r := DrainLines(rest, classify);
      DrainLines(line + "\n" + rest, classify) == Drain(r.rest, [classify(line).content] + r.contents, r.end)
  {
    CutLine(line, rest);
  }

  /** `[DONE]` leaves the inner loop with the lines after it still in the
      buffer: they are read again when the next chunk arrives. */
  lemma DoneLine(line: string, rest: string, classify: string -> LineOutcome)
    requires NoNewline(line)
    requires classify(line) == Stop
    ensures DrainLines(line + "\n" + rest, classify) == Drain(rest, [], Stopped)
  {
    CutLine(line, rest);
  }

  /** An exception from the decoder ends the loop with nothing emitted by
      that line. */
  lemma FailedLine(line: string, rest: string, classify: string -> LineOutcome)
    requires NoNewline(line)
    requires classify(line).Fail?
    ensures DrainLines(line + "\n" + rest, classify) == Drain(rest, [], Failed(classify(line).message))
  {
    CutLine(line, rest);
  }

  // ---------------------------------------------------------------------
  // The relay state

  /** The concatenation of `contents`. */
  function Concat(contents: seq<string>): string {
    if contents == [] then "" else Concat(contents[..|contents| - 1]) + contents[|contents| - 1]
  }

  /** One content event per fragment, in order. */
  function ContentEvents(contents: seq<string>): (r: seq<Event>)
    ensures |r| == |contents|
    ensures forall i :: 0 <= i < |r| ==> r[i] == Content(contents[i])
  {
    seq(|contents|, i requires 0 <= i < |contents| => Content(contents[i]))
  }

  /** The text of the content events, in order. */
  function Emitted(events: seq<Event>): string {
    if events == [] then ""
    else
      var e := events[|events| - 1];
      Emitted(events[..|events| - 1]) + (if e.Content? then e.text else "")
  }

  /** The text carried by `ContentEvents(contents)` is `Concat(contents)`. */
  lemma {:induction false} EmittedContents(contents: seq<string>)
    ensures Emitted(ContentEvents(contents)) == Concat(contents)
  {
    if contents != [] {
      var n := |contents| - 1;
      EmittedContents(contents[..n]);
      assert ContentEvents(contents)[..n] == ContentEvents(contents[..n]);
    }
  }

  lemma {:induction false} EmittedAppend(a: seq<Event>, b: seq<Event>)
    ensures Emitted(a + b) == Emitted(a) + Emitted(b)
    decreases |b|
  {
    if b != [] {
      var n := |b| - 1;
      assert (a + b)[..|a + b| - 1] == a + b[..n];
      assert (a + b)[|a + b| - 1] == b[n];
      EmittedAppend(a, b[..n]);
    } else {
      assert a + b == a;
    }
  }

  lemma {:induction false} ConcatAppend(a: seq<string>, b: seq<string>)
    ensures Concat(a + b) == Concat(a) + Concat(b)
    decreases |b|
  {
    if b != [] {
      var n := |b| - 1;
      assert (a + b)[..|a + b| - 1] == a + b[..n];
      assert (a + b)[|a + b| - 1] == b[n];
      ConcatAppend(a, b[..n]);
    } else {
      assert a + b == a;
    }
  }

  lemma ContentEventsSnoc(contents: seq<string>, c: string)
    ensures ContentEvents(contents + [c]) == ContentEvents(contents) + [Content(c)]
  {
  }

  lemma Associate<T>(a: seq<T>, b: seq<T>, c: seq<T>)
    ensures a + b + c == a + (b + c)
  {
  }

  lemma ConcatSnoc(contents: seq<string>, c: string)
    ensures Concat(contents + [c]) == Concat(contents) + c
  {
    assert (contents + [c])[..|contents|] == contents;
  }

  /** Draining `start` gives the contents `emitted`, then whatever draining
      `buffer` gives: the inner loop is part-way through `start`. */
  predicate Resumes(start: string, buffer: string, emitted: seq<string>, classify: string -> LineOutcome) {
    var r := DrainLines(buffer, classify);
    DrainLines(start, classify) == Drain(r.rest, emitted + r.contents, r.end)
  }

  lemma ResumeSkip(start: string, buffer: string, emitted: seq<string>, classify: string -> LineOutcome)
    requires Resumes(start, buffer, emitted, classify) && !NoNewline(buffer)
    requires classify(buffer[..FirstNewline(buffer)]) == Skip
    ensures Resumes(start, buffer[FirstNewline(buffer) + 1..], emitted, classify)
  {
  }

  lemma ResumeEmit(start: string, buffer: string, emitted: seq<string>, classify: string -> LineOutcome)
    requires Resumes(start, buffer, emitted, classify) && !NoNewline(buffer)
    requires classify(buffer[..FirstNewline(buffer)]).Emit?
    ensures Resumes(start, buffer[FirstNewline(buffer) + 1..],
                    emitted + [classify(buffer[..FirstNewline(buffer)]).content], classify)
  {
    var c := classify(buffer[..FirstNewline(buffer)]).content;
    var r := DrainLines(buffer[FirstNewline(buffer) + 1..], classify);
    assert emitted + ([c] + r.contents) == emitted + [c] + r.contents;
  }

  lemma ResumeStop(start: string, buffer: string, emitted: seq<string>, classify: string -> LineOutcome)
    requires Resumes(start, buffer, emitted, classify) && !NoNewline(buffer)
    requires classify(buffer[..FirstNewline(buffer)]) == Stop
    ensures DrainLines(start, classify) == Drain(buffer[FirstNewline(buffer) + 1..], emitted, Stopped)
  {
    assert emitted + [] == emitted;
  }

  lemma ResumeFail(start: string, buffer: string, emitted: seq<string>, classify: string -> LineOutcome)
    requires Resumes(start, buffer, emitted, classify) && !NoNewline(buffer)
    requires classify(buffer[..FirstNewline(buffer)]).Fail?
    ensures DrainLines(start, classify)
      == Drain(buffer[FirstNewline(buffer) + 1..], emitted, Failed(classify(buffer[..FirstNewline(buffer)]).message))
  {
    assert emitted + [] == emitted;
  }

  lemma ResumeDrained(start: string, buffer: string, emitted: seq<string>, classify: string -> LineOutcome)
    requires Resumes(start, buffer, emitted, classify) && NoNewline(buffer)
    ensures DrainLines(start, classify) == Drain(buffer, emitted, Drained)
  {
    assert emitted + [] == emitted;
  }

  /** The inner `while "\n" in buffer` loop of `chat_stream`, run on the
      buffer `start`: it returns the buffer left, the content fragments
      yielded in order, and how the loop ended. */
  method DrainBuffer(start: string, decode: string -> Decoded) returns (buffer: string, emitted: seq<string>, end: DrainEnd)
    ensures DrainLines(start, Classifier(decode)) == Drain(buffer, emitted, end)
  {
    buffer := start;
    emitted := [];
    assert Resumes(start, buffer, emitted, Classifier(decode)) by {
      var r := DrainLines(buffer, Classifier(decode));
      assert emitted + r.contents == r.contents;
    }
    while '\n' in buffer
      invariant Resumes(start, buffer, emitted, Classifier(decode))
      decreases |buffer|
    {
      var k := FirstNewline(buffer);
      ghost var before := buffer;
      var line := buffer[..k];
      buffer := buffer[k + 1..];
      var outcome := ReadLine(line, decode);
      match outcome
      case Skip =>
        ResumeSkip(start, before, emitted, Classifier(decode));
      case Stop =>
        ResumeStop(start, before, emitted, Classifier(decode));
        return buffer, emitted, Stopped;
      case Fail(m) =>
        ResumeFail(start, before, emitted, Classifier(decode));
        return buffer, emitted, Failed(m);
      case Emit(content) =>
        ResumeEmit(start, before, emitted, Classifier(decode));
        emitted := emitted + [content];
    }
    ResumeDrained(start, buffer, emitted, Classifier(decode));
    end := Drained;
  }

  // ---------------------------------------------------------------------
  // The whole stream

  /** The outer `async for chunk in resp.content.iter_any()` loop: each chunk
      is appended to the buffer and drained; a `[DONE]` line does not end
      the outer loop, an exception does. */
  function Stream(chunks: seq<string>, classify: string -> LineOutcome): Drain {
    if chunks == [] then Drain("", [], Drained)
    else
      var prev := Stream(chunks[..|chunks| - 1], classify);
      if prev.end.Failed? then prev
      else
        var d := DrainLines(prev.rest + chunks[|chunks| - 1], classify);
        Drain(d.rest, prev.contents + d.contents, d.end)
  }

  /** Once a chunk has raised, later chunks are never read. */
  lemma {:induction false} StreamFailed(chunks: seq<string>, n: nat, classify: string -> LineOutcome)
    requires n <= |chunks|
    requires Stream(chunks[..n], classify).end.Failed?
    ensures Stream(chunks, classify) == Stream(chunks[..n], classify)
    decreases |chunks| - n
  {
    if n < |chunks| {
      var m := |chunks| - 1;
      assert chunks[..m][..n] == chunks[..n];
      StreamFailed(chunks[..m], n, classify);
      assert Stream(chunks, classify) == Stream(chunks[..m], classify);
    } else {
      assert chunks[..n] == chunks;
    }
  }

  /** One more chunk: the stream so far, then the chunk drained after the
      buffer left over. */
  lemma StreamStep(chunks: seq<string>, n: nat, classify: string -> LineOutcome)
    requires n < |chunks|
    requires !Stream(chunks[..n], classify).end.Failed?
    ensures var prev := Stream(chunks[..n], classify);
      var d := DrainLines(prev.rest + chunks[n], classify);
      Stream(chunks[..n + 1], classify) == Drain(d.rest, prev.contents + d.contents, d.end)
  {
    assert chunks[..n + 1][..n] == chunks[..n];
  }

  /** Unless the stream raised or its last chunk ended at `[DONE]`, the
      buffer left holds no newline and is the text after the last newline
      received. */
  lemma {:induction false} StreamRest(chunks: seq<string>, classify: string -> LineOutcome)
    requires Stream(chunks, classify).end == Drained
    ensures NoNewline(Stream(chunks, classify).rest)
    ensures chunks != [] ==> EndsWith(Stream(chunks[..|chunks| - 1], classify).rest + chunks[|chunks| - 1],
                                      Stream(chunks, classify).rest)
  {
    if chunks != [] {
      var prev := Stream(chunks[..|chunks| - 1], classify);
      var buffer := prev.rest + chunks[|chunks| - 1];
      DrainedRest(buffer, classify);
    }
  }

  /** `[DONE]` only leaves the inner loop: a line after it in the same chunk
      stays in the buffer and is relayed as soon as another chunk arrives,
      but is lost if none does. */
  lemma DoneDefers(stop: string, line: string, next: string, classify: string -> LineOutcome)
    requires NoNewline(stop) && NoNewline(line) && NoNewline(next)
    requires classify(stop) == Stop && classify(line).Emit?
    ensures Stream([stop + "\n" + line + "\n"], classify).contents == []
    ensures Stream([stop + "\n" + line + "\n", next], classify).contents == [classify(line).content]
  {
    var first := stop + "\n" + line + "\n";
    assert first == stop + "\n" + (line + "\n");
    assert [first][..0] == [];
    DoneLine(stop, line + "\n", classify);
    var one := Stream([first], classify);
    assert Stream([], classify) == Drain("", [], Drained);
    assert "" + first == first;
    var d := DrainLines(first, classify);
    assert d == Drain(line + "\n", [], Stopped);
    assert one == Drain(d.rest, [] + d.contents, d.end);
    assert [first, next][..1] == [first];
    assert line + "\n" + next == line + "\n" + next;
    EmittedLine(line, next, classify);
    assert NoNewline(next);
    assert DrainLines(next, classify) == Drain(next, [], Drained);
  }

  /** Draining `a + b` is draining `a`, then its leftover followed by `b`. */
  predicate DrainsInTwo(a: string, b: string, classify: string -> LineOutcome) {
    var da := DrainLines(a, classify);
    var db := DrainLines(da.rest + b, classify);
    DrainLines(a + b, classify) == Drain(db.rest, da.contents + db.contents, db.end)
  }

  /** A buffer drained up to its last newline, followed by more text, is
      drained as the first part and then the leftover with the new text. */
  lemma {:induction false} DrainSplit(a: string, b: string, classify: string -> LineOutcome)
    requires DrainLines(a, classify).end == Drained
    ensures DrainsInTwo(a, b, classify)
    decreases |a|
  {
    if NoNewline(a) {
      assert DrainLines(a, classify) == Drain(a, [], Drained);
    } else {
      var k := FirstNewline(a);
      var line, rest := a[..k], a[k + 1..];
      assert a == line + "\n" + rest;
      assert NoNewline(line);
      match classify(line)
      case Skip =>
        SkippedLine(line, rest, classify);
        DrainSplit(rest, b, classify);
        SkipSplits(line, rest, b, classify);
      case Emit(c) =>
        EmittedLine(line, rest, classify);
        DrainSplit(rest, b, classify);
        EmitSplits(line, rest, b, classify);
      case Stop =>
        DoneLine(line, rest, classify);
        assert false;
      case Fail(m) =>
        FailedLine(line, rest, classify);
        assert false;
    }
  }

  lemma SkipSplits(line: string, rest: string, b: string, classify: string -> LineOutcome)
    requires NoNewline(line) && classify(line) == Skip
    requires DrainsInTwo(rest, b, classify)
    ensures DrainsInTwo(line + "\n" + rest, b, classify)
  {
    var head := line + "\n";
    Associate(head, rest, b);
    SkippedLine(line, rest, classify);
    SkippedLine(line, rest + b, classify);
  }

  lemma EmitSplits(line: string, rest: string, b: string, classify: string -> LineOutcome)
    requires NoNewline(line) && classify(line).Emit?
    requires DrainsInTwo(rest, b, classify)
    ensures DrainsInTwo(line + "\n" + rest, b, classify)
  {
    var head := line + "\n";
    Associate(head, rest, b);
    EmittedLine(line, rest, classify);
    EmittedLine(line, rest + b, classify);
    var c := classify(line).content;
    var dr := DrainLines(rest, classify);
    var db := DrainLines(dr.rest + b, classify);
    Associate([c], dr.contents, db.contents);
  }

  /** Every prefix of the stream ended its inner loop for want of a newline:
      no `[DONE]` was met and nothing raised. */
  predicate AllDrained(chunks: seq<string>, classify: string -> LineOutcome) {
    forall n :: 0 <= n <= |chunks| ==> Stream(chunks[..n], classify).end == Drained
  }

  /** Without `[DONE]` and without an exception, the relay does not depend on
      how the text is cut into chunks: it relays what draining all of it at
      once would. */
  lemma {:induction false} ChunkingInvariant(chunks: seq<string>, classify: string -> LineOutcome)
    requires AllDrained(chunks, classify)
    ensures Stream(chunks, classify) == DrainLines(Concat(chunks), classify)
  {
    if chunks != [] {
      var m := |chunks| - 1;
      var init := chunks[..m];
      assert AllDrained(init, classify) by {
        forall n | 0 <= n <= |init|
          ensures Stream(init[..n], classify).end == Drained
        {
          assert init[..n] == chunks[..n];
        }
      }
      assert Stream(chunks[..m], classify).end == Drained;
      ChunkingInvariant(init, classify);
      DrainSplit(Concat(init), chunks[m], classify);
      assert DrainsInTwo(Concat(init), chunks[m], classify);
      assert Concat(chunks) == Concat(init) + chunks[m];
    }
  }

  /** Appending the content events of `emitted` to the events, and their
      text to `full_response`, keeps the two in step. */
  lemma StillValid(events: seq<Event>, full: string, emitted: seq<string>)
    requires full == Emitted(events) && forall i :: 0 <= i < |events| ==> events[i].Content?
    ensures full + Concat(emitted) == Emitted(events + ContentEvents(emitted))
    ensures forall i :: 0 <= i < |events + ContentEvents(emitted)| ==> (events + ContentEvents(emitted))[i].Content?
  {
    EmittedAppend(events, ContentEvents(emitted));
    EmittedContents(emitted);
  }

  /** The state of the streaming loop of `chat_stream`: the undelivered
      `buffer`, `full_response`, and the events yielded so far. */
  class StreamRelay {
    var buffer: string
    var fullResponse: string
    var events: seq<Event>

    /** `full_response` is the concatenation of the content events yielded,
        and the loop yields nothing else. */
    ghost predicate Valid()
      reads this
    {
      && fullResponse == Emitted(events)
      && forall i :: 0 <= i < |events| ==> events[i].Content?
    }

    constructor()
      ensures Valid()
      ensures buffer == "" && fullResponse == "" && events == []
    {
      buffer := "";
      fullResponse := "";
      events := [];
    }

    /** `buffer += chunk`, then the inner loop: every complete line is
        handled; `[DONE]` leaves the loop; an exception from the decoder
        ends it with `Failed`. */
    method Feed(chunk: string, decode: string -> Decoded) returns (end: DrainEnd)
      requires Valid()
      modifies this
      ensures Valid()
      ensures var r := DrainLines(old(buffer) + chunk, Classifier(decode));
        && buffer == r.rest && end == r.end
        && events == old(events) + ContentEvents(r.contents)
        && fullResponse == old(fullResponse) + Concat(r.contents)
    {
      var rest, emitted;
      rest, emitted, end := DrainBuffer(buffer + chunk, decode);
      Commit(rest, emitted);
    }

    /** Leaves `rest` in the buffer, yields one content event per fragment
        of `emitted` and appends them to `full_response`. */
    method Commit(rest: string, emitted: seq<string>)
      requires Valid()
      modifies this
      ensures Valid()
      ensures buffer == rest
      ensures events == old(events) + ContentEvents(emitted)
      ensures fullResponse == old(fullResponse) + Concat(emitted)
    {
      StillValid(events, fullResponse, emitted);
      buffer := rest;
      events := events + ContentEvents(emitted);
      fullResponse := fullResponse + Concat(emitted);
    }
  }
}
