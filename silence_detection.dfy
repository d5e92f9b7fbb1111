/** The detector thread's parsing of the silence detector's error stream:
    reassembly of the chunks it reads into completed lines, and the
    classification of each completed line. */
module SilenceDetection {
  import opened Text
  import opened LineSplitting
  import opened LineReassembly

  const MarkerPrefix := "[silencedetect"
  const StartKeyword := "silence_start"
  const EndKeyword := "silence_end"

  /** What the detector does with one completed line: fire the noise action
      (and log "silence -> noise"), log "noise -> silence", or nothing. */
  datatype Event = SilenceStart(line: string) | SilenceEnd(line: string) | Ignored(line: string)

  /** A line on which the noise action fires. */
  predicate IsStartLine(line: string) {
    StartsWith(line, MarkerPrefix) && Contains(line, StartKeyword)
  }

  /** A line that is only logged as the end of a noise. */
  predicate IsEndLine(line: string) {
    StartsWith(line, MarkerPrefix) && !Contains(line, StartKeyword) && Contains(line, EndKeyword)
  }

  /** The classification of one completed line; the start keyword is
      tested first. */
  function Classify(line: string): (e: Event)
    ensures e.line == line
  {
    if StartsWith(line, MarkerPrefix) then
      if Contains(line, StartKeyword) then SilenceStart(line)
      else if Contains(line, EndKeyword) then SilenceEnd(line)
      else Ignored(line)
    else Ignored(line)
  }

  /** Classify each line, keeping the order. */
  function ClassifyAll(lines: seq<string>): (events: seq<Event>)
    ensures |events| == |lines|
    ensures forall k :: 0 <= k < |lines| ==> events[k].line == lines[k]
  {
    seq(|lines|, k requires 0 <= k < |lines| => Classify(lines[k]))
  }

  /** The events the detector emits for everything read from a stream. */
  function Events(stream: string): (events: seq<Event>)
    ensures events != [] <==> '\n' in stream
    ensures forall k :: 0 <= k < |events| ==> IsLine(events[k].line)
  {
    LinesAreLines(stream);
    ClassifyAll(Lines(stream))
  }

  /** The test order of the source, stated per kind of event: a line with
      both keywords is a start, and without the marker prefix a keyword
      is ignored. */
  lemma ClassifyCases(line: string)
    ensures Classify(line).SilenceStart? <==> IsStartLine(line)
    ensures Classify(line).SilenceEnd? <==> IsEndLine(line)
    ensures Classify(line).Ignored? <==> !IsStartLine(line) && !IsEndLine(line)
  {
  }

  /** The lines on which the noise action fired, in order: never more
      than the events, and each one the line of a start event. */
  function Actions(events: seq<Event>): (lines: seq<string>)
    ensures |lines| <= |events|
    ensures forall k :: 0 <= k < |lines| ==> SilenceStart(lines[k]) in events
  {
    if events == [] then []
    else (if events[0].SilenceStart? then [events[0].line] else []) + Actions(events[1..])
  }

  /** The start lines among `lines`, in order. */
  function StartLines(lines: seq<string>): seq<string> {
    if lines == [] then []
    else (if IsStartLine(lines[0]) then [lines[0]] else []) + StartLines(lines[1..])
  }

  /** The action fires once per start line, in arrival order, and on no
      other line; repeated start lines each fire. */
  lemma {:induction false} ActionsAreStartLines(lines: seq<string>)
    ensures Actions(ClassifyAll(lines)) == StartLines(lines)
  {
    if lines != [] {
      var events := ClassifyAll(lines);
      assert events[1..] == ClassifyAll(lines[1..]);
      ClassifyCases(lines[0]);
      ActionsAreStartLines(lines[1..]);
    }
  }

  datatype Option<T> = None | Some(value: T)

  /** `noiseAction`, once per event: the argument vectors the detector runs,
      in order. `command` is the user command already split into its
      argument vector, or `None` when none is configured; a firing
      without a configured command runs nothing. */
  function Invocations(events: seq<Event>, command: Option<seq<string>>): (runs: seq<seq<string>>)
    ensures command.None? ==> runs == []
    ensures command.Some? ==> |runs| == |Actions(events)|
    ensures forall k :: 0 <= k < |runs| ==> command.Some? && runs[k] == command.value
  {
    if events == [] then []
    else (if events[0].SilenceStart? && command.Some? then [command.value] else [])
         + Invocations(events[1..], command)
  }

  /** A trailing partial line never produces an event. */
  lemma PartialLineSilent(s: string, t: string)
    requires '\n' !in t
    ensures Events(s + t) == Events(s)
  {
    PartialTailCompletesNothing(s, t);
  }

  const StartLine := "[silencedetect @ 0x1] silence_start: -12\n"
  const EndLine := "[silencedetect @ 0x1] silence_end: -8\n"

  lemma StartLineFires()
    ensures Classify(StartLine) == SilenceStart(StartLine)
  {
    assert StartLine[..|MarkerPrefix|] == MarkerPrefix;
    assert OccursAt(StartLine, StartKeyword, 22);
  }

  lemma EndLineLogs()
    ensures Classify(EndLine) == SilenceEnd(EndLine)
  {
    assert EndLine[..|MarkerPrefix|] == MarkerPrefix;
    MissingCharNotContained(EndLine, StartKeyword, 10);
    assert OccursAt(EndLine, EndKeyword, 22);
  }

  lemma StartLineIsLine()
    ensures IsLine(StartLine)
  {
  }

  lemma EndLineIsLine()
    ensures IsLine(EndLine)
  {
  }

  /** A start line then an end line: a start event and an end event,
      and the action fires on the start line only. */
  lemma StartThenEnd(a: string, b: string)
    requires IsLine(a) && IsStartLine(a)
    requires IsLine(b) && IsEndLine(b)
    ensures Events(a + b) == [SilenceStart(a), SilenceEnd(b)]
    ensures Actions(Events(a + b)) == [a]
  {
    TwoLines(a, b);
    ClassifyCases(a);
    ClassifyCases(b);
    var events := Events(a + b);
    assert events == [SilenceStart(a), SilenceEnd(b)];
    assert events[1..] == [SilenceEnd(b)];
    assert Actions(events[1..]) == [];
  }

  /** Two start lines in a row fire twice: there is no deduplication. */
  lemma DuplicateStartsFireTwice(a: string)
    requires IsLine(a) && IsStartLine(a)
    ensures Actions(Events(a + a)) == [a, a]
  {
    TwoLines(a, a);
    ClassifyCases(a);
    var events := Events(a + a);
    assert events == [SilenceStart(a), SilenceStart(a)];
    assert events[1..] == [SilenceStart(a)];
    assert Actions(events[1..]) == [a];
  }

  /** The marker lines of the silence detector's own format. */
  lemma ExampleMarkers()
    ensures IsLine(StartLine) && IsStartLine(StartLine)
    ensures IsLine(EndLine) && IsEndLine(EndLine)
  {
    StartLineIsLine();
    EndLineIsLine();
    StartLineFires();
    EndLineLogs();
    ClassifyCases(StartLine);
    ClassifyCases(EndLine);
  }

  /** Without the marker prefix even a start keyword is ignored. */
  lemma UnprefixedStartIgnored()
    ensures Events("silence_start: 3\n") == [Ignored("silence_start: 3\n")]
  {
    var l := "silence_start: 3\n";
    assert IsLine(l);
    assert Concat([l]) == l;
    Unique([l], "", l);
    assert l[0] != MarkerPrefix[0];
  }

  /** Classifying one more line adds its event at the end. */
  lemma ClassifyAllSnoc(lines: seq<string>, line: string)
    ensures ClassifyAll(lines + [line]) == ClassifyAll(lines) + [Classify(line)]
  {
    assert forall k :: 0 <= k < |lines| ==> (lines + [line])[k] == lines[k];
  }

  /** One pass of the inner loop: appending a piece to the stream read so
      far either completes the line `pending + piece` or extends the
      partial line. */
  lemma FeedPiece(consumed: string, piece: string)
    requires IsPiece(piece)
    ensures var q := Rest(consumed) + piece;
      if q[|q| - 1] == '\n' then
        Events(consumed + piece) == Events(consumed) + [Classify(q)] && Rest(consumed + piece) == ""
      else
        Events(consumed + piece) == Events(consumed) && Rest(consumed + piece) == q
  {
    forall n | 0 <= n < |piece| - 1 ensures piece[n] != '\n' {
      PieceNewlineAtEnd(piece, n);
    }
    Append(consumed, piece);
    ExtendPartial(Rest(consumed), piece);
    var q := Rest(consumed) + piece;
    if q[|q| - 1] == '\n' {
      assert Lines(consumed + piece) == Lines(consumed) + [q];
      ClassifyAllSnoc(Lines(consumed), q);
    } else {
      assert Lines(consumed) + [] == Lines(consumed);
    }
  }

  /** Classifying two runs of lines one after the other. */
  lemma ClassifyAllAppend(a: seq<string>, b: seq<string>)
    ensures ClassifyAll(a + b) == ClassifyAll(a) + ClassifyAll(b)
  {
    assert forall k :: 0 <= k < |a| ==> (a + b)[k] == a[k];
    assert forall k :: |a| <= k < |a| + |b| ==> (a + b)[k] == b[k - |a|];
  }

  /** The body of the polling loop for one chunk: the chunk is cut with
      `splitlines(keepends=True)`, each piece is appended to `pending`, and
      `pending` is classified and cleared whenever it ends in '\n'. The
      events are those of the lines that the chunk completes after the
      partial line `pending`, and what is left is their partial line. */
  method FeedChunk(pending: string, chunk: string) returns (completed: seq<Event>, rest: string)
    requires '\n' !in pending
    ensures completed == Events(pending + chunk)
    ensures rest == Rest(pending + chunk)
  {
    completed, rest := [], pending;
    var pieces := SplitLines(chunk);
    assert FirstNewline(pending) == |pending|;
    assert pieces[..0] == [] && pending + "" == pending;
    for j := 0 to |pieces|
      invariant completed == Events(pending + Concat(pieces[..j]))
      invariant rest == Rest(pending + Concat(pieces[..j]))
    {
      ghost var consumed := pending + Concat(pieces[..j]);
      var piece := pieces[j];
      FeedPiece(consumed, piece);
      ConcatPrefix(pieces, j);
      Assoc(pending, Concat(pieces[..j]), piece);
      rest := rest + piece;
      if rest[|rest| - 1] == '\n' {
        completed := completed + [Classify(rest)];
        rest := "";
      }
    }
    assert pieces[..|pieces|] == pieces;
  }

  /** The loop of the detector thread. `chunks[i]` is what the i-th pass of
      the polling loop read from the error stream (possibly nothing).
      `pending` is returned as the partial line the source drops when the
      loop stops. The events are those of the joined chunks, whatever the
      chunking. */
  method Detect(chunks: seq<string>) returns (events: seq<Event>, pending: string)
    ensures events == Events(Concat(chunks))
    ensures pending == Rest(Concat(chunks))
    ensures forall k :: 0 <= k < |events| ==> IsLine(events[k].line)
    ensures '\n' !in pending
  {
    events, pending := [], "";
    for i := 0 to |chunks|
      invariant events == Events(Concat(chunks[..i]))
      invariant pending == Rest(Concat(chunks[..i]))
    {
      ghost var read := Concat(chunks[..i]);
      var completed;
      completed, pending := FeedChunk(pending, chunks[i]);
      Append(read, chunks[i]);
      ClassifyAllAppend(Lines(read), Lines(Rest(read) + chunks[i]));
      ConcatPrefix(chunks, i);
      events := events + completed;
    }
    assert chunks[..|chunks|] == chunks;
    LinesAreLines(Concat(chunks));
  }
}
