# Multi-line deserializer model

A Dafny model of Flume's `MultiLineDeserializer`. This event deserializer
splits a resettable character stream into multi-line log events. An event
ends when one of four things happens:

- the stream is exhausted at the top of the read loop;
- a newline read at the start of an iteration (not as the character after
  another newline) is followed by the configured start prefix (default `^`);
- such a newline is the last character of the stream;
- the number of counted characters reaches `maxLineLength` (default 2048).

The character after a newline is never tested as a newline itself, so in
`"\n\n^B"` the second newline is kept, the `^` after it counts as a prefix in
the middle of a line, and the whole stream is the one event `"\n\nB"`.

A prefix in the middle of a line is dropped and not counted. A newline followed
by any other character is kept together with that character, and only the
character is counted. Around this framing rule sits a two-state lifecycle
(open, then closed), with `mark`, `reset` and `close` delegated to the stream.

Files:

- `wrappers.dfy` holds `Option`, `Result` and `Outcome`. Java's `-1` and
  `null` become `None`. `IllegalStateException` becomes `Failure(IllegalState)`
  (a `Result`) in `ReadEvent` and `ReadEvents`, and `Fail(IllegalState)` (an
  `Outcome`) in `EnsureOpen`, `Mark` and `Reset`.
- `stream.dfy` models the resettable input stream (`ResettableInputStream`).
  It is a class over the whole input `data`, with a read position `pos`, a
  mark `markPos` and a `closed` flag.
- `framing.dfy` holds the default settings (`DefaultMaxLineLength`,
  `DefaultPrefix`) and gives the framing rule as pure functions of the input
  and the read position:
  - `StepAt` is one iteration of the read loop.
  - `ScanLoop` is the loop.
  - `LogAt` is one `readLog` call.
  - `EventsAt` is one `readEvents` call.

  The file also holds the lemmas about them.
- `deserializer.dfy` is the class `MultiLineDeserializer`. Its `ReadLog` and
  `ReadEvents` loops are proved against `LogAt` and `EventsAt`.
- `scenarios.dfy` contains worked inputs whose results are fixed as lemmas.

Two points where the model follows what the code does:

- The comment at `MultiLineDeserializer.java:133` says the prefix is not
  recorded. When the prefix is itself `'\n'`, line 130 appends it anyway: a
  newline followed by an ordinary character is kept, so the event body does
  contain the prefix character. "No event contains the prefix" therefore
  holds only for a prefix other than the newline (`NoPrefixInLog`,
  `Scenarios.NewlineAsPrefix`).
- A plain newline does not split events. Only a newline read at the start of
  an iteration and followed by the prefix or by end of stream does
  (`Scenarios.PrefixLineStartsEvent`, `Scenarios.FollowerNewlineNotTested`).

## Model

| member | source | states |
|---|---|---|
| Stream.CharStream.ReadChar | flume-ng-core/src/main/java/org/apache/flume/serialization/MultiLineDeserializer.java:118-121 | returns the next character and advances by one, or returns the end signal (`-1`) at the end of the input without moving |
| Stream.CharStream.Mark | flume-ng-core/src/main/java/org/apache/flume/serialization/MultiLineDeserializer.java:88 | the replay point becomes the current position |
| Stream.CharStream.Reset | flume-ng-core/src/main/java/org/apache/flume/serialization/MultiLineDeserializer.java:94 | the position returns to the replay point |
| Stream.CharStream.Close | flume-ng-core/src/main/java/org/apache/flume/serialization/MultiLineDeserializer.java:101 | the stream is closed |
| Framing.StepAt | flume-ng-core/src/main/java/org/apache/flume/serialization/MultiLineDeserializer.java:118-136 | one loop iteration consumes at least one character unless it halts; a halt consumes exactly the boundary characters it drops and is never the length limit |
| Framing.ScanLoop | flume-ng-core/src/main/java/org/apache/flume/serialization/MultiLineDeserializer.java:118-148 | the loop consumes at least the boundary characters it dropped and stays inside the input |
| Framing.ScanHalts | flume-ng-core/src/main/java/org/apache/flume/serialization/MultiLineDeserializer.java:118-128 | an iteration that halts ends the loop with nothing more appended and the count unchanged |
| Framing.ScanSkips | flume-ng-core/src/main/java/org/apache/flume/serialization/MultiLineDeserializer.java:133-135 | an iteration that skips a prefix leaves the rest of the loop as if it began one character later |
| Framing.ScanTakes | flume-ng-core/src/main/java/org/apache/flume/serialization/MultiLineDeserializer.java:129-147 | an iteration that takes a chunk appends it, counts one, and stops with `LimitReached` exactly when the count reaches the limit |
| Framing.NewlineBoundaryEnds | flume-ng-core/src/main/java/org/apache/flume/serialization/MultiLineDeserializer.java:120-128 | a newline followed by the prefix or by end of stream ends the event; both characters are consumed, neither is kept, and nothing is counted |
| Framing.NewlineKeepsNext | flume-ng-core/src/main/java/org/apache/flume/serialization/MultiLineDeserializer.java:129-141 | a newline followed by another character (a newline included) keeps both and counts one; reading resumes after the follower without testing it as a newline |
| Framing.MidLinePrefixSkipped | flume-ng-core/src/main/java/org/apache/flume/serialization/MultiLineDeserializer.java:133-135 | a prefix in the middle of a line is consumed, dropped and not counted |
| Framing.OrdinaryCharCounted | flume-ng-core/src/main/java/org/apache/flume/serialization/MultiLineDeserializer.java:138-147 | an ordinary character is appended and counted, and reading stops right after the character that reaches the limit |
| Framing.ScanCounts | flume-ng-core/src/main/java/org/apache/flume/serialization/MultiLineDeserializer.java:138-147 | the count never passes the limit, or one when the limit is below one; the body is empty exactly when nothing was counted; each count stands for one or two body characters; the loop truncates exactly when the count reaches the limit |
| Framing.ScanBoundary | flume-ng-core/src/main/java/org/apache/flume/serialization/MultiLineDeserializer.java:118-128 | the loop stops at end of stream, right after a final newline, or right after a newline and the prefix |
| Framing.LogAt | flume-ng-core/src/main/java/org/apache/flume/serialization/MultiLineDeserializer.java:114-161 | a `readLog` call stays inside the input and consumes at least its dropped boundary |
| Framing.LogCounts | flume-ng-core/src/main/java/org/apache/flume/serialization/MultiLineDeserializer.java:138-160 | `readLog` returns null exactly when it counted nothing and a non-empty body otherwise; at most `maxLineLength` characters are counted, or one when that is below one; it truncates exactly at the limit |
| Framing.ConsumedInput | flume-ng-core/src/main/java/org/apache/flume/serialization/MultiLineDeserializer.java:118-147 | no content is lost: the body is the consumed segment without the dropped boundary characters and without prefix characters (unless the prefix is the newline) |
| Framing.LogKeepsConsumed | flume-ng-core/src/main/java/org/apache/flume/serialization/MultiLineDeserializer.java:114-161 | the same statement for one `readLog` call |
| Framing.RetainedAppend | flume-ng-core/src/main/java/org/apache/flume/serialization/MultiLineDeserializer.java:133-135 | dropping prefixes works character by character, so it distributes over concatenation |
| Framing.RetainedOmits | flume-ng-core/src/main/java/org/apache/flume/serialization/MultiLineDeserializer.java:133-135 | what remains after dropping prefixes contains no prefix, when the prefix is not the newline |
| Framing.RetainedWhole | flume-ng-core/src/main/java/org/apache/flume/serialization/MultiLineDeserializer.java:129-131 | with the newline as prefix, no character between the boundaries is dropped |
| Framing.TakenChunkKept | flume-ng-core/src/main/java/org/apache/flume/serialization/MultiLineDeserializer.java:129-141 | a taken chunk is exactly the input it consumed and contains no prefix to drop |
| Framing.NoPrefixInLog | flume-ng-core/src/main/java/org/apache/flume/serialization/MultiLineDeserializer.java:126-135 | a body returned by `readLog` never contains the prefix, when the prefix is not the newline |
| Framing.TruncationResumes | flume-ng-core/src/main/java/org/apache/flume/serialization/MultiLineDeserializer.java:143-147 | after a truncation the next call resumes exactly where the first stopped; the two bodies together are the retained content of everything both calls consumed |
| Framing.EventsAt | flume-ng-core/src/main/java/org/apache/flume/serialization/MultiLineDeserializer.java:71-83 | `readEvents(n)` returns at most `n` events; for `n <= 0` it returns none and reads nothing |
| Framing.EventsStep | flume-ng-core/src/main/java/org/apache/flume/serialization/MultiLineDeserializer.java:75-81 | asking for at least one event performs one `readLog`: it stops on null, and otherwise puts that body first and reads the rest after it |
| Framing.EventsWellFormed | flume-ng-core/src/main/java/org/apache/flume/serialization/MultiLineDeserializer.java:57-60 | every event of a batch has a non-empty body free of the prefix (when the prefix is not the newline) |
| Framing.EventsExtend | flume-ng-core/src/main/java/org/apache/flume/serialization/MultiLineDeserializer.java:75-81 | asking for more events only extends the batch, so events come in read order |
| Framing.EventsStopAtNull | flume-ng-core/src/main/java/org/apache/flume/serialization/MultiLineDeserializer.java:79-81 | a batch shorter than requested ended on a null read; asking for more yields the same batch and the same position |
| Framing.AtEndOfStream | flume-ng-core/src/main/java/org/apache/flume/serialization/MultiLineDeserializer.java:151-160 | at end of stream `readLog` returns null without moving, and `readEvents` returns nothing |
| Deserializer.MultiLineDeserializer.constructor | flume-ng-core/src/main/java/org/apache/flume/serialization/MultiLineDeserializer.java:39-46 | stores the stream, the length limit and the prefix, and starts open |
| Deserializer.MultiLineDeserializer.EnsureOpen | flume-ng-core/src/main/java/org/apache/flume/serialization/MultiLineDeserializer.java:106-110 | fails with `IllegalState` exactly when the deserializer is closed |
| Deserializer.MultiLineDeserializer.ReadStep | flume-ng-core/src/main/java/org/apache/flume/serialization/MultiLineDeserializer.java:118-136 | reading one iteration's characters from the stream yields `StepAt` at the old position and leaves the stream after them |
| Deserializer.MultiLineDeserializer.ReadLog | flume-ng-core/src/main/java/org/apache/flume/serialization/MultiLineDeserializer.java:114-161 | the loop returns null when `LogAt` counted nothing and its body otherwise, and leaves the stream where `LogAt` says |
| Deserializer.MultiLineDeserializer.ReadEvent | flume-ng-core/src/main/java/org/apache/flume/serialization/MultiLineDeserializer.java:54-62 | when closed, fails with `IllegalState` without reading; otherwise returns null or the event of one `readLog` call |
| Deserializer.MultiLineDeserializer.ReadEvents | flume-ng-core/src/main/java/org/apache/flume/serialization/MultiLineDeserializer.java:71-83 | when closed, fails with `IllegalState` without reading; otherwise returns exactly the batch `EventsAt` gives and leaves the stream at its position |
| Deserializer.MultiLineDeserializer.Mark | flume-ng-core/src/main/java/org/apache/flume/serialization/MultiLineDeserializer.java:86-89 | when open, the replay point becomes the current position; when closed, fails with `IllegalState` and changes nothing |
| Deserializer.MultiLineDeserializer.Reset | flume-ng-core/src/main/java/org/apache/flume/serialization/MultiLineDeserializer.java:91-95 | when open, the position returns to the replay point; when closed, fails with `IllegalState` and changes nothing |
| Deserializer.MultiLineDeserializer.Close | flume-ng-core/src/main/java/org/apache/flume/serialization/MultiLineDeserializer.java:97-104 | the first call rewinds to the replay point, closes the stream and marks the deserializer closed; a later call changes nothing |
| Deserializer.ReplayAfterReset | flume-ng-core/src/main/java/org/apache/flume/serialization/MultiLineDeserializer.java:86-95 | reading a batch after `mark`, then `reset`, then reading again yields the same batch |
| Scenarios.PrefixLineStartsEvent | flume-ng-core/src/main/java/org/apache/flume/serialization/MultiLineDeserializer.java:120-131 | `"A\n^B\nC"` yields `"A"` and then `"B\nC"`; the plain newline stays inside the second event |
| Scenarios.FollowerNewlineNotTested | flume-ng-core/src/main/java/org/apache/flume/serialization/MultiLineDeserializer.java:120-135 | `"\n\n^B"` is the single event `"\n\nB"`: the second newline is taken as the follower and never tested, and the `^` after it is dropped as a mid-line prefix |
| Scenarios.EndOfStreamEndsEvent | flume-ng-core/src/main/java/org/apache/flume/serialization/MultiLineDeserializer.java:118 | `"abc"` is one event ended by end of stream, with three characters counted |
| Scenarios.MidLinePrefixDropped | flume-ng-core/src/main/java/org/apache/flume/serialization/MultiLineDeserializer.java:133-135 | `"ab^cd"` yields `"abcd"` with four characters counted |
| Scenarios.BlankLinesKept | flume-ng-core/src/main/java/org/apache/flume/serialization/MultiLineDeserializer.java:129-141 | `"A\n\n"` yields `"A\n\n"` with two characters counted |
| Scenarios.EmptyEventStopsBatch | flume-ng-core/src/main/java/org/apache/flume/serialization/MultiLineDeserializer.java:151-160 | `"\n^A"` yields null although `"A"` remains, so a batch read returns nothing |
| Scenarios.NewlineAsPrefix | flume-ng-core/src/main/java/org/apache/flume/serialization/MultiLineDeserializer.java:126-131 | with the newline as prefix, `"A\nB"` keeps its newline, and an empty line separates `"A"` from `"B"` |
| Scenarios.LongLineTruncated | flume-ng-core/src/main/java/org/apache/flume/serialization/MultiLineDeserializer.java:143-147 | with a limit of 2, `"abcde"` becomes `"ab"`, `"cd"` and `"e"` |
| Scenarios.NonPositiveLimit | flume-ng-core/src/main/java/org/apache/flume/serialization/MultiLineDeserializer.java:143-147 | a limit of zero or below still lets one counted character through |

## Left out

- Character encoding is not modelled. The event body is the `readLog` string; the `outputCharset` setting and `EventBuilder.withBody` are library encoding calls.
- The `Context` lookup of the settings and the `Builder` class are not modelled. The length limit and the prefix are constructor parameters. The defaults appear as `DefaultMaxLineLength` and `DefaultPrefix`.
- Logging and console output are not modelled. They have no effect on the result.
- `IOException` from the stream is not modelled. The stream's own implementation is not part of this model; it is described only by the contract of `Stream.CharStream`.
- The `volatile` marker on `isOpen` is not modelled. It only matters under concurrent use, which is not modelled.
- `\r\n` gets no special handling, just as in the code. `'\r'` is an ordinary character.
- Framing.LogAt: the input is a sequence of Unicode scalar values, while Java's `readChar` delivers UTF-16 code units. For text outside the Basic Multilingual Plane the model counts one character where Java counts two against `maxLineLength`. It also cannot represent a lone surrogate, so a truncation that splits a surrogate pair is not captured.
- Deserializer.MultiLineDeserializer.ReadLog: the counter is an unbounded integer. A Java `int` overflow of `readChars` cannot happen anyway: `maxLineLength` is an `int`, at most `Integer.MAX_VALUE`, so the `>=` test at line 143 stops the loop first.
- Deserializer.MultiLineDeserializer.ReadLog: one iteration of the Java loop is split out as `ReadStep`. `ReadStep` performs the same reads and tests in the same order.
