# Open Chicken Coop: device arguments and silence-marker detection

Open Chicken Coop (`occ.py`) supervises a capture pipeline: a capture
process feeds a SoX noise filter, which feeds an FFmpeg `silencedetect`
process. A detector thread reads FFmpeg's error stream and runs a user
command whenever a `silence_start` marker line is seen. This project models the two
pieces of sequential logic in that program, and proves properties of them:

- **Source arguments** (module `DeviceSpec`, `device_spec.dfy`). The
  `--audio-source` and `--video-source` arguments have the form
  `TYPE:DEVICE`. They are split at the first colon with Python's
  `s.split(":", 1)` (`SplitOnce`). An argument without a colon is refused
  with the parser's error message.
- **Line reassembly and marker classification** (modules `LineSplitting`,
  `LineReassembly` and `SilenceDetection`). This is the `pending_line` loop
  of `NoiseDetectionThread.run`. The method `SilenceDetection.Detect` takes
  the chunks that successive passes of the polling loop read from the
  error stream. It cuts each chunk with `str.splitlines(keepends=True)`,
  which is modelled in full (`LineSplitting.SplitLines`, every Python line
  boundary, and `"\r\n"` as one boundary). It grows `pending` one piece at a
  time and classifies `pending` whenever it ends in `'\n'`. It is proved
  equal to a reference reading of the concatenated stream:
  `LineReassembly.Lines` (the `'\n'`-terminated segments) and
  `LineReassembly.Rest` (the unterminated tail). So the events depend only
  on the concatenated text, not on how it was chunked. The other
  boundaries that `splitlines` breaks on (`'\r'`, form feed, `U+2028`, …)
  are glued back together and make no difference.
- **Events.** A completed line yields one `Event`, which carries that line.
  - `SilenceStart`: the line starts with `"[silencedetect"` and contains
    `"silence_start"`. The source logs "silence -> noise" and calls
    `noiseAction`.
  - `SilenceEnd`: the line starts with that prefix and contains
    `"silence_end"` but not `"silence_start"`. This is only logged.
  - `Ignored`: any other line.

  `Actions` lists the lines on which the action fired.
  `Invocations` lists the command vectors that `noiseAction` runs.

Three behaviours of the code shape the model:

- the action fires on `silence_start`, not on `silence_end`;
- there is no quiet/active state, so every start line fires, repeats
  included;
- when `poll()` reports that FFmpeg has exited, the loop stops without a
  last drain of the stream, and the partial line left in `pending` is
  never classified. `Detect` returns that `pending` only so that it can be
  reasoned about.

## Model

| member | source | states |
|---|---|---|
| `DeviceSpec.SplitOnce` | occ.py:28 | `s.split(sep, 1)`: without the separator the result is `[s]`; with it there are two parts, the first has no separator, and `first + sep + second == s` |
| `DeviceSpec.FirstSeparatorUnique` | occ.py:28 | the split at the first separator is unique: two such decompositions of the same string are equal |
| `DeviceSpec.ParseAudioDevice` | occ.py:25-31 | succeeds exactly when the argument has a colon; then `type + ":" + device` is the argument and `type` has no colon; otherwise the error is "Audio source should be in the form TYPE:DEVICE" |
| `DeviceSpec.ParseVideoDevice` | occ.py:34-40 | the same for the video source, with the message "Video source should be in the form TYPE:DEVICE" |
| `DeviceSpec.AudioRoundTrip` | occ.py:27-31 | formatting a device whose type has no colon as `TYPE:DEVICE` and parsing it gives back that device; the device name may contain colons |
| `DeviceSpec.VideoRoundTrip` | occ.py:36-40 | the same round trip for video sources |
| `DeviceSpec.ParseAcceptsEmptyParts` | occ.py:28 | `":x"` and `"alsa:"` are accepted, with an empty type or an empty device |
| `DeviceSpec.ParseSplitsAtFirstColon` | occ.py:28 | `"alsa:hw:1"` parses to type `alsa` and device `hw:1` |
| `DeviceSpec.ParseRefusesMissingColon` | occ.py:27-30 | `"default"` and `""` are refused with the source's message |
| `Text.StartsWith` | occ.py:98 | `str.startswith`: the prefix is no longer than the string and agrees with it character by character |
| `Text.Contains` | occ.py:100-103 | the `in` test on strings: a contained string is no longer than the string; the empty string and every prefix are contained |
| `LineSplitting.FirstBoundary` | occ.py:95 | the index of the first `splitlines` boundary, or the length; no boundary comes before it |
| `LineSplitting.PieceLength` | occ.py:95 | the first piece is non-empty and is a well-formed piece; when more text follows, it ends at a boundary and does not split a `"\r\n"` |
| `LineSplitting.SplitLines` | occ.py:95 | `splitlines(keepends=True)`: joining the pieces gives back the chunk; every piece is non-empty and has no boundary before its end (except the `'\r'` of a final `"\r\n"`); every piece but the last ends at a boundary; `"\r\n"` is never cut |
| `LineSplitting.PieceNewlineAtEnd` | occ.py:95-97 | a piece holds `'\n'` only as its last character, so appending it can complete at most one line |
| `LineSplitting.SplitLinesExamples` | occ.py:95 | an empty chunk gives no pieces; `"a\r\nb"` gives `["a\r\n", "b"]` |
| `LineReassembly.FirstNewline` | occ.py:97 | the index of the first `'\n'`, or the length; no `'\n'` comes before it |
| `LineReassembly.Lines` | occ.py:95-105 | the completed lines of a stream: there is at least one exactly when the stream holds a `'\n'`, and never more lines than characters |
| `LineReassembly.LineCount` | occ.py:96-97 | there are exactly as many completed lines as `'\n'` characters in the stream |
| `LineReassembly.LinesAreLines` | occ.py:96-97 | every completed line ends with `'\n'` and has no other `'\n'` |
| `LineReassembly.Rest` | occ.py:97 | the partial line (what `pending_line` holds between chunks) contains no `'\n'` |
| `LineReassembly.NothingLost` | occ.py:95-97 | the completed lines joined, followed by the partial line, are exactly the stream: nothing is lost or reordered |
| `LineReassembly.Unique` | occ.py:95-105 | any cut of the stream into completed lines and a rest without `'\n'` is the one `Lines` and `Rest` give |
| `LineReassembly.Append` | occ.py:94-97 | reading a stream in two parts gives the lines of the first part, then the lines of its partial line followed by the second part |
| `LineReassembly.ExtendPartial` | occ.py:96-105 | adding a piece to a partial line either completes exactly the line `pending + piece` and clears the partial line, or only extends the partial line |
| `LineReassembly.PartialTailCompletesNothing` | occ.py:97 | text without `'\n'` at the end of a stream completes no line and is added to the partial line |
| `LineReassembly.RechunkingExample` | occ.py:87-105 | `["A\nB\n"]`, `["A\n","B\n"]` and `["A","\nB\n"]` join to the same stream, whose lines are `["A\n","B\n"]` with nothing left over |
| `SilenceDetection.Classify` | occ.py:98-104 | the event of a completed line carries that line |
| `SilenceDetection.ClassifyCases` | occ.py:98-104 | a start event exactly for prefixed lines containing `silence_start`, so a line with both keywords is a start; an end event exactly for prefixed lines with `silence_end` and no `silence_start`; otherwise ignored |
| `SilenceDetection.ClassifyAll` | occ.py:95-105 | one event per completed line, in the same order, each carrying its line |
| `SilenceDetection.Events` | occ.py:95-105 | the events for a whole stream: there is at least one exactly when the stream holds a `'\n'`, and every event carries a completed line |
| `SilenceDetection.Actions` | occ.py:100-102 | the lines on which the action fired: never more than the events, and each is the line of a start event among them |
| `SilenceDetection.ActionsAreStartLines` | occ.py:98-102 | the action fires exactly once per start line, in arrival order, and on no other line; there is no deduplication |
| `SilenceDetection.Invocations` | occ.py:110-115 | with a configured command, one run of it per firing of the action; without one, nothing is run |
| `SilenceDetection.PartialLineSilent` | occ.py:97 | a trailing partial line never produces an event |
| `SilenceDetection.StartLineFires` | occ.py:98-102 | `"[silencedetect @ 0x1] silence_start: -12\n"` is classified as a start |
| `SilenceDetection.EndLineLogs` | occ.py:103-104 | `"[silencedetect @ 0x1] silence_end: -8\n"` is classified as an end |
| `LineReassembly.TwoLines` | occ.py:95-97 | two completed lines in a row are read as those two lines with nothing left over |
| `SilenceDetection.StartThenEnd` | occ.py:98-104 | a start line followed by an end line gives a start event then an end event, and the action fires on the start line only |
| `SilenceDetection.DuplicateStartsFireTwice` | occ.py:100-102 | two start lines in a row fire the action twice |
| `SilenceDetection.ExampleMarkers` | occ.py:98-104 | the two sample marker lines are completed lines, one a start line and one an end line |
| `SilenceDetection.UnprefixedStartIgnored` | occ.py:98 | `"silence_start: 3\n"` has no marker prefix and is ignored |
| `SilenceDetection.FeedPiece` | occ.py:95-105 | one pass of the inner loop: with `q = pending + piece`, if `q` ends in `'\n'` the event of `q` is added and the partial line is cleared, otherwise the partial line becomes `q` |
| `SilenceDetection.FeedChunk` | occ.py:94-105 | the inner loop over the pieces of one chunk: starting from a partial line without `'\n'`, it emits exactly the events of the lines that the chunk completes, and leaves their partial line |
| `SilenceDetection.Detect` | occ.py:87-105 | the loop over chunks and pieces emits exactly the events of the completed lines of the joined chunks, in order. It ends with `pending` equal to their partial line, which contains no `'\n'`. Every classified line ends with `'\n'` |

## Left out

- `readNonBlocking` (occ.py:117-127): polling the stream with a selector and a 50 ms timeout and reading one character at a time is I/O. Each chunk it returns is an element of `Detect`'s input. Decoding and the text stream's newline translation (`universal_newlines=True`) happen before that and are not modelled; the proofs hold for any chunk contents.
- The polling loop's control (occ.py:88-92): `poll()` and `wait(timeout=0.1)` on the FFmpeg process are meant to end the loop. The model takes a finite sequence of chunks instead. Reading occ.py:122-126, once FFmpeg has closed its error stream the selector keeps reporting the pipe readable and `read(1)` keeps returning `""`, so `readNonBlocking` would probably never return and the loop would not get back to `poll()`; this is a reading of the code, not executed, and the model does not capture it.
- Spawning the SoX and FFmpeg processes and their command lines (occ.py:61-84), the capture commands, the temporary directory and the SDP file (occ.py:192-274): these are external tools and OS calls.
- `StreamingServerRequestHandler`, `StreamingServer` and `StreamingServerThread` (occ.py:130-189), including the one-slot `BoundedSemaphore` that admits a single stream: TCP serving and concurrency.
- Running the command in `noiseAction` with `subprocess.call` and splitting it with `shlex.split` (occ.py:52, occ.py:115): these are calls into the library and the OS. `Invocations` takes the command already split and yields the argument vectors to run.
- Logging (occ.py:99, 101, 104, 108): the log lines are stood for by the `SilenceStart` and `SilenceEnd` events. The debug log of every prefixed line is not modelled.
- Invocations: assumes every launch of the command succeeds. In the code, `subprocess.call` (occ.py:115) raises when the command cannot be started (missing or not executable, or an empty argument vector from `shlex.split("")` at occ.py:52). The `except Exception` handler (occ.py:107-108) then logs it and `run()` returns, so the detector stops at its first firing and no later chunk or start line is processed. The model keeps emitting events after such a firing.
- The `except Exception` handler of the thread (occ.py:107-108) for other failures, such as a failing read: the model ends the chunk sequence there.
- Argument parsing, logging setup and colored logging in `__main__`, thread start-up and `KeyboardInterrupt` handling (occ.py:43-56, occ.py:192-274): glue and concurrency.
