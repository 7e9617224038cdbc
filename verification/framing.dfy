/**
 * The framing rule of the multi-line deserializer as pure functions over the
 * whole input `s` and a read position `pos`.
 *
 * One call of `readLog` consumes characters from `pos` on and accumulates an
 * event body. A newline followed by the start prefix, or by end of stream,
 * ends the event and both are dropped; a newline followed by any other
 * character keeps the two together; a prefix anywhere else is dropped without
 * being counted; and reading stops as soon as the counted characters reach the
 * maximum line length.
 */
module Framing {

  /** Why one call of `readLog` stopped reading. */
  datatype Stop =
    | Exhausted          // end of stream at the top of the loop
    | NewlineThenEnd     // a newline was the last character of the stream
    | NewlineThenPrefix  // a newline was followed by the start prefix
    | LimitReached       // the counted characters reached the maximum line length

  /** What one iteration of the read loop does, and the position after it. */
  datatype Step =
    | Halt(stop: Stop, next: nat)
    | Skip(next: nat)
    | Take(chunk: string, next: nat)

  /**
   * The outcome of a read loop: the accumulated body, the position the stream
   * is left at, the counted characters and the reason it stopped.
   */
  datatype Scan = Scan(text: string, pos: nat, counted: nat, stop: Stop)

  /** An event carries its body; the encoding into bytes is not modelled. */
  datatype Event = Event(body: string)

  /** The events of one batch read and the position the stream is left at. */
  datatype Batch = Batch(events: seq<Event>, pos: nat)

  /** Default of the `maxLineLength` setting. */
  const DefaultMaxLineLength: int := 2048
  /** Default of the `newLogStartPrefix` setting (its first character). */
  const DefaultPrefix: char := '^'

  function Max(a: int, b: int): int
  {
    if a < b then b else a
  }

  /** How many consumed boundary characters a stop discards. */
  function Dropped(stop: Stop): nat
  {
    match stop
    case NewlineThenEnd => 1
    case NewlineThenPrefix => 2
    case _ => 0
  }

  /**
   * Whether a consumed character between the boundaries ends up in the body:
   * every prefix character is dropped, unless the prefix is the newline
   * itself, in which case nothing between the boundaries is dropped.
   */
  predicate Kept(c: char, prefix: char)
  {
    c != prefix || prefix == '\n'
  }

  /** The part of a consumed segment that ends up in the event body. */
  function Retained(segment: string, prefix: char): string
  {
    if segment == [] then []
    else (if Kept(segment[0], prefix) then [segment[0]] else []) + Retained(segment[1..], prefix)
  }

  /** Retaining distributes over concatenation: it works character by character. */
  lemma {:induction false} RetainedAppend(a: string, b: string, prefix: char)
    ensures Retained(a + b, prefix) == Retained(a, prefix) + Retained(b, prefix)
  {
    if a == [] {
      assert a + b == b;
    } else {
      assert (a + b)[0] == a[0];
      assert (a + b)[1..] == a[1..] + b;
      RetainedAppend(a[1..], b, prefix);
    }
  }

  /** Retaining leaves no prefix behind, unless the prefix is the newline. */
  lemma {:induction false} RetainedOmits(x: string, prefix: char)
    requires prefix != '\n'
    ensures prefix !in Retained(x, prefix)
  {
    if x != [] {
      RetainedOmits(x[1..], prefix);
    }
  }

  /** With the newline as prefix, a segment is retained whole. */
  lemma {:induction false} RetainedWhole(x: string)
    ensures Retained(x, '\n') == x
  {
    if x != [] {
      RetainedWhole(x[1..]);
      assert x == [x[0]] + x[1..];
    }
  }

  /**
   * One iteration of the read loop at `pos`. After a newline the following
   * character is consumed at once: end of stream or the prefix halts, anything
   * else (a second newline included) is taken together with the newline and
   * is not examined again.
   */
  function StepAt(s: string, pos: nat, prefix: char): (r: Step)
    requires pos <= |s|
    ensures r.next <= |s|
    ensures r.Halt? ==> r.stop != LimitReached && r.next == pos + Dropped(r.stop)
    ensures !r.Halt? ==> pos < r.next
  {
    if pos == |s| then Halt(Exhausted, pos)
    else if s[pos] == '\n' then
      if pos + 1 == |s| then Halt(NewlineThenEnd, pos + 1)
      else if s[pos + 1] == prefix then Halt(NewlineThenPrefix, pos + 2)
      else Take(['\n', s[pos + 1]], pos + 2)
    else if s[pos] == prefix then Skip(pos + 1)
    else Take([s[pos]], pos + 1)
  }

  /**
   * The read loop from `pos` with `counted` characters already counted. Only
   * the character taken by an iteration is counted: a newline kept in front
   * of it is not.
   */
  function ScanLoop(s: string, pos: nat, prefix: char, maxLen: int, counted: nat): (r: Scan)
    requires pos <= |s|
    ensures pos + Dropped(r.stop) <= r.pos <= |s|
    decreases |s| - pos
  {
    match StepAt(s, pos, prefix)
    case Halt(stop, next) => Scan([], next, counted, stop)
    case Skip(next) => ScanLoop(s, next, prefix, maxLen, counted)
    case Take(chunk, next) =>
      if counted + 1 >= maxLen then Scan(chunk, next, counted + 1, LimitReached)
      else
        var rest := ScanLoop(s, next, prefix, maxLen, counted + 1);
        Scan(chunk + rest.text, rest.pos, rest.counted, rest.stop)
  }

  /** The iteration at `pos` halts the loop with an empty remainder. */
  lemma ScanHalts(s: string, pos: nat, prefix: char, maxLen: int, counted: nat)
    requires pos <= |s| && StepAt(s, pos, prefix).Halt?
    ensures var step := StepAt(s, pos, prefix);
            ScanLoop(s, pos, prefix, maxLen, counted) == Scan([], step.next, counted, step.stop)
  {
  }

  /** The iteration at `pos` drops a prefix and the loop goes on uncounted. */
  lemma ScanSkips(s: string, pos: nat, prefix: char, maxLen: int, counted: nat)
    requires pos <= |s| && StepAt(s, pos, prefix).Skip?
    ensures ScanLoop(s, pos, prefix, maxLen, counted) == ScanLoop(s, pos + 1, prefix, maxLen, counted)
  {
  }

  /** The iteration at `pos` takes a chunk, counts one character and stops at the limit. */
  lemma ScanTakes(s: string, pos: nat, prefix: char, maxLen: int, counted: nat)
    requires pos <= |s| && StepAt(s, pos, prefix).Take?
    ensures var step := StepAt(s, pos, prefix);
            var rest := ScanLoop(s, step.next, prefix, maxLen, counted + 1);
            ScanLoop(s, pos, prefix, maxLen, counted)
            == if counted + 1 >= maxLen then Scan(step.chunk, step.next, counted + 1, LimitReached)
               else rest.(text := step.chunk + rest.text)
  {
  }

  /**
   * A newline that is the last character, or is followed by the prefix, ends
   * the event: both are consumed, neither is kept and nothing is counted.
   */
  lemma NewlineBoundaryEnds(s: string, pos: nat, prefix: char, maxLen: int, counted: nat)
    requires pos < |s| && s[pos] == '\n'
    requires pos + 1 == |s| || s[pos + 1] == prefix
    ensures var r := ScanLoop(s, pos, prefix, maxLen, counted);
            r.text == [] && r.counted == counted &&
            r.pos == (if pos + 1 == |s| then |s| else pos + 2) &&
            r.stop == (if pos + 1 == |s| then NewlineThenEnd else NewlineThenPrefix)
  {
  }

  /**
   * A newline followed by any other character, a second newline included,
   * keeps both, counts only the follower, and reading resumes after the
   * follower without examining it again.
   */
  lemma NewlineKeepsNext(s: string, pos: nat, prefix: char, maxLen: int, counted: nat)
    requires pos + 1 < |s| && s[pos] == '\n' && s[pos + 1] != prefix
    ensures var r := ScanLoop(s, pos, prefix, maxLen, counted);
            var rest := ScanLoop(s, pos + 2, prefix, maxLen, counted + 1);
            r == if counted + 1 >= maxLen then Scan(s[pos..pos + 2], pos + 2, counted + 1, LimitReached)
                 else rest.(text := s[pos..pos + 2] + rest.text)
  {
  }

  /** A prefix in the middle of a line is consumed, dropped and not counted. */
  lemma MidLinePrefixSkipped(s: string, pos: nat, prefix: char, maxLen: int, counted: nat)
    requires pos < |s| && s[pos] == prefix && prefix != '\n'
    ensures ScanLoop(s, pos, prefix, maxLen, counted) == ScanLoop(s, pos + 1, prefix, maxLen, counted)
  {
  }

  /** Any other character is kept and counted, and reading stops when the count reaches the limit. */
  lemma OrdinaryCharCounted(s: string, pos: nat, prefix: char, maxLen: int, counted: nat)
    requires pos < |s| && s[pos] != '\n' && s[pos] != prefix
    ensures var r := ScanLoop(s, pos, prefix, maxLen, counted);
            var rest := ScanLoop(s, pos + 1, prefix, maxLen, counted + 1);
            r == if counted + 1 >= maxLen then Scan([s[pos]], pos + 1, counted + 1, LimitReached)
                 else rest.(text := [s[pos]] + rest.text)
  {
  }

  /**
   * Counting: each taken chunk counts one character and holds one or two;
   * the loop stops at the limit and only there.
   */
  lemma {:induction false} ScanCounts(s: string, pos: nat, prefix: char, maxLen: int, counted: nat)
    requires pos <= |s|
    ensures var r := ScanLoop(s, pos, prefix, maxLen, counted);
            && counted <= r.counted <= Max(maxLen, counted + 1)
            && (r.text == [] <==> r.counted == counted)
            && r.counted - counted <= |r.text| <= 2 * (r.counted - counted)
            && (r.stop == LimitReached <==> counted < r.counted && maxLen <= r.counted)
    decreases |s| - pos
  {
    var step := StepAt(s, pos, prefix);
    if step.Skip? {
      ScanCounts(s, step.next, prefix, maxLen, counted);
    } else if step.Take? && counted + 1 < maxLen {
      ScanCounts(s, step.next, prefix, maxLen, counted + 1);
    }
  }

  /**
   * Where the loop stops: at end of stream, or right after a newline that is
   * the last character, or right after a newline and the prefix.
   */
  lemma {:induction false} ScanBoundary(s: string, pos: nat, prefix: char, maxLen: int, counted: nat)
    requires pos <= |s|
    ensures var r := ScanLoop(s, pos, prefix, maxLen, counted);
            && (r.stop == Exhausted ==> r.pos == |s|)
            && (r.stop == NewlineThenEnd ==> r.pos == |s| && s[r.pos - 1] == '\n')
            && (r.stop == NewlineThenPrefix ==> s[r.pos - 2] == '\n' && s[r.pos - 1] == prefix)
    decreases |s| - pos
  {
    var step := StepAt(s, pos, prefix);
    if step.Skip? {
      ScanBoundary(s, step.next, prefix, maxLen, counted);
    } else if step.Take? && counted + 1 < maxLen {
      ScanBoundary(s, step.next, prefix, maxLen, counted + 1);
    }
  }

  /**
   * One call of `readLog` at `pos`: it returns `text` when `counted > 0` and
   * null otherwise, and leaves the stream at `pos` of the result.
   */
  function LogAt(s: string, pos: nat, prefix: char, maxLen: int): (r: Scan)
    requires pos <= |s|
    ensures pos + Dropped(r.stop) <= r.pos <= |s|
  {
    ScanLoop(s, pos, prefix, maxLen, 0)
  }

  /**
   * `readLog` returns null exactly when it counted nothing and a non-empty
   * body otherwise; it never counts more than the maximum line length (one
   * character when that maximum is below one), and it truncates exactly when
   * the count reaches the maximum.
   */
  lemma LogCounts(s: string, pos: nat, prefix: char, maxLen: int)
    requires pos <= |s|
    ensures var r := LogAt(s, pos, prefix, maxLen);
            && (r.text == [] <==> r.counted == 0)
            && (maxLen >= 1 ==> r.counted <= maxLen)
            && (maxLen < 1 ==> r.counted <= 1)
            && (r.stop == LimitReached <==> 0 < r.counted && maxLen <= r.counted)
  {
    ScanCounts(s, pos, prefix, maxLen, 0);
  }

  /**
   * The body is the consumed segment without the boundary characters that
   * stopped the loop, with prefixes removed.
   */
  ghost predicate KeepsConsumed(s: string, pos: nat, prefix: char, maxLen: int, counted: nat)
    requires pos <= |s|
  {
    var r := ScanLoop(s, pos, prefix, maxLen, counted);
    r.text == Retained(s[pos..r.pos - Dropped(r.stop)], prefix)
  }

  /**
   * No content is lost: the body is the consumed segment minus the
   * boundary characters that stopped the loop, with prefixes removed.
   */
  lemma {:induction false} ConsumedInput(s: string, pos: nat, prefix: char, maxLen: int, counted: nat)
    requires pos <= |s|
    ensures KeepsConsumed(s, pos, prefix, maxLen, counted)
    decreases |s| - pos
  {
    var step := StepAt(s, pos, prefix);
    if step.Skip? {
      ConsumedInput(s, step.next, prefix, maxLen, counted);
      ConsumedAfterSkip(s, pos, prefix, maxLen, counted);
    } else if step.Take? && counted + 1 < maxLen {
      var more: nat := counted + 1;
      ConsumedInput(s, step.next, prefix, maxLen, more);
      ConsumedAfterTake(s, pos, prefix, maxLen, counted);
    } else {
      ConsumedAtStop(s, pos, prefix, maxLen, counted);
    }
  }

  /** The base cases: the loop halts or truncates in this iteration. */
  lemma ConsumedAtStop(s: string, pos: nat, prefix: char, maxLen: int, counted: nat)
    requires pos <= |s|
    requires StepAt(s, pos, prefix).Halt? || (StepAt(s, pos, prefix).Take? && counted + 1 >= maxLen)
    ensures KeepsConsumed(s, pos, prefix, maxLen, counted)
  {
    var r := ScanLoop(s, pos, prefix, maxLen, counted);
    var step := StepAt(s, pos, prefix);
    if step.Halt? {
      ScanHalts(s, pos, prefix, maxLen, counted);
      assert s[pos..r.pos - Dropped(r.stop)] == [];
    } else {
      ScanTakes(s, pos, prefix, maxLen, counted);
      TakenChunkKept(s, pos, prefix);
    }
  }

  /** A prefix outside a boundary is consumed and dropped. */
  lemma ConsumedAfterSkip(s: string, pos: nat, prefix: char, maxLen: int, counted: nat)
    requires pos <= |s| && StepAt(s, pos, prefix).Skip?
    requires KeepsConsumed(s, pos + 1, prefix, maxLen, counted)
    ensures KeepsConsumed(s, pos, prefix, maxLen, counted)
  {
    ScanSkips(s, pos, prefix, maxLen, counted);
    var rest := ScanLoop(s, pos + 1, prefix, maxLen, counted);
    var end := rest.pos - Dropped(rest.stop);
    assert rest.text == Retained(s[pos + 1..end], prefix);
    SkippedPrefixDropped(s, pos, prefix);
    SplitSegment(s, pos, pos + 1, end, prefix);
    assert Retained(s[pos..end], prefix) == [] + rest.text;
  }

  /** A skipped character is a lone prefix, and nothing of it is kept. */
  lemma SkippedPrefixDropped(s: string, pos: nat, prefix: char)
    requires pos <= |s| && StepAt(s, pos, prefix).Skip?
    ensures Retained(s[pos..pos + 1], prefix) == []
  {
    var c := s[pos];
    assert !Kept(c, prefix);
    assert s[pos..pos + 1] == [c];
    RetainedSingle(c, prefix);
  }

  lemma RetainedSingle(c: char, prefix: char)
    ensures Retained([c], prefix) == if Kept(c, prefix) then [c] else []
  {
    assert [c][1..] == [];
  }

  /** A taken chunk is kept whole in front of the rest of the body. */
  lemma ConsumedAfterTake(s: string, pos: nat, prefix: char, maxLen: int, counted: nat)
    requires pos <= |s|
    requires StepAt(s, pos, prefix).Take? && counted + 1 < maxLen
    requires KeepsConsumed(s, StepAt(s, pos, prefix).next, prefix, maxLen, counted + 1)
    ensures KeepsConsumed(s, pos, prefix, maxLen, counted)
  {
    var step := StepAt(s, pos, prefix);
    ScanTakes(s, pos, prefix, maxLen, counted);
    var rest := ScanLoop(s, step.next, prefix, maxLen, counted + 1);
    var end := rest.pos - Dropped(rest.stop);
    TakenChunkKept(s, pos, prefix);
    SplitSegment(s, pos, step.next, end, prefix);
  }

  /**
   * A taken chunk is the input it consumed and contains no prefix (the
   * character after a newline aside, which is not one), so it is kept whole.
   */
  lemma TakenChunkKept(s: string, pos: nat, prefix: char)
    requires pos <= |s| && StepAt(s, pos, prefix).Take?
    ensures var step := StepAt(s, pos, prefix);
            step.chunk == s[pos..step.next] && Retained(step.chunk, prefix) == step.chunk
  {
    var c := s[pos];
    if c == '\n' {
      var x := s[pos + 1];
      assert Kept(c, prefix) && Kept(x, prefix);
      assert s[pos..pos + 2] == [c, x];
      RetainedSingle(c, prefix);
      RetainedSingle(x, prefix);
      RetainedAppend([c], [x], prefix);
      assert [c] + [x] == [c, x];
    } else {
      assert Kept(c, prefix);
      assert s[pos..pos + 1] == [c];
      RetainedSingle(c, prefix);
    }
  }

  lemma SplitSegment(s: string, i: nat, j: nat, k: nat, prefix: char)
    requires i <= j <= k <= |s|
    ensures Retained(s[i..k], prefix) == Retained(s[i..j], prefix) + Retained(s[j..k], prefix)
  {
    assert s[i..k] == s[i..j] + s[j..k];
    RetainedAppend(s[i..j], s[j..k], prefix);
  }

  /**
   * What `readLog` returns is what it consumed, less the boundary characters
   * that stopped it and less every prefix (unless the prefix is the newline).
   */
  lemma LogKeepsConsumed(s: string, pos: nat, prefix: char, maxLen: int)
    requires pos <= |s|
    ensures var r := LogAt(s, pos, prefix, maxLen);
            r.text == Retained(s[pos..r.pos - Dropped(r.stop)], prefix)
  {
    ConsumedInput(s, pos, prefix, maxLen, 0);
  }

  /** An event body never holds the start prefix, unless the prefix is the newline. */
  lemma NoPrefixInLog(s: string, pos: nat, prefix: char, maxLen: int)
    requires pos <= |s| && prefix != '\n'
    ensures prefix !in LogAt(s, pos, prefix, maxLen).text
  {
    var r := LogAt(s, pos, prefix, maxLen);
    LogKeepsConsumed(s, pos, prefix, maxLen);
    RetainedOmits(s[pos..r.pos - Dropped(r.stop)], prefix);
  }

  /**
   * A truncated event loses nothing: the next call resumes exactly where it
   * stopped, so the two bodies together are the retained content of the
   * input both calls consumed.
   */
  lemma TruncationResumes(s: string, pos: nat, prefix: char, maxLen: int)
    requires pos <= |s|
    requires LogAt(s, pos, prefix, maxLen).stop == LimitReached
    ensures var first := LogAt(s, pos, prefix, maxLen);
            var second := LogAt(s, first.pos, prefix, maxLen);
            first.text + second.text == Retained(s[pos..second.pos - Dropped(second.stop)], prefix)
  {
    var first := LogAt(s, pos, prefix, maxLen);
    LogKeepsConsumed(s, pos, prefix, maxLen);
    var second := LogAt(s, first.pos, prefix, maxLen);
    LogKeepsConsumed(s, first.pos, prefix, maxLen);
    var end := second.pos - Dropped(second.stop);
    JoinRetained(s, pos, first.pos, end, prefix, first.text, second.text);
  }

  lemma JoinRetained(s: string, i: nat, j: nat, k: nat, prefix: char, a: string, b: string)
    requires i <= j <= k <= |s|
    requires a == Retained(s[i..j], prefix) && b == Retained(s[j..k], prefix)
    ensures a + b == Retained(s[i..k], prefix)
  {
    SplitSegment(s, i, j, k, prefix);
  }

  /**
   * `readEvents(n)`: up to `n` successive `readLog` calls, stopping at the
   * first null. For `n <= 0` nothing is read.
   */
  function EventsAt(s: string, pos: nat, prefix: char, maxLen: int, n: int): (r: Batch)
    requires pos <= |s|
    ensures pos <= r.pos <= |s|
    ensures |r.events| <= Max(n, 0)
    ensures n <= 0 ==> r == Batch([], pos)
    decreases Max(n, 0)
  {
    if n <= 0 then Batch([], pos)
    else
      var scan := LogAt(s, pos, prefix, maxLen);
      if scan.counted == 0 then Batch([], scan.pos)
      else
        var rest := EventsAt(s, scan.pos, prefix, maxLen, n - 1);
        Batch([Event(scan.text)] + rest.events, rest.pos)
  }

  /** One more event is read when one is asked for and `readLog` returns one. */
  lemma EventsStep(s: string, pos: nat, prefix: char, maxLen: int, n: int)
    requires pos <= |s| && n > 0
    ensures var scan := LogAt(s, pos, prefix, maxLen);
            var rest := EventsAt(s, scan.pos, prefix, maxLen, n - 1);
            EventsAt(s, pos, prefix, maxLen, n)
            == if scan.counted == 0 then Batch([], scan.pos)
               else Batch([Event(scan.text)] + rest.events, rest.pos)
  {
  }

  /**
   * Every event of a batch has a non-empty body, and none holds the start
   * prefix unless the prefix is the newline.
   */
  lemma {:induction false} EventsWellFormed(s: string, pos: nat, prefix: char, maxLen: int, n: int)
    requires pos <= |s|
    ensures forall e :: e in EventsAt(s, pos, prefix, maxLen, n).events ==>
              e.body != [] && (prefix != '\n' ==> prefix !in e.body)
    decreases Max(n, 0)
  {
    if n > 0 {
      var scan := LogAt(s, pos, prefix, maxLen);
      if scan.counted > 0 {
        LogCounts(s, pos, prefix, maxLen);
        if prefix != '\n' {
          NoPrefixInLog(s, pos, prefix, maxLen);
        }
        EventsWellFormed(s, scan.pos, prefix, maxLen, n - 1);
      }
    }
  }

  /** Asking for more events only appends to the batch: events come in read order. */
  lemma {:induction false} EventsExtend(s: string, pos: nat, prefix: char, maxLen: int, n: int, m: int)
    requires pos <= |s| && n <= m
    ensures EventsAt(s, pos, prefix, maxLen, n).events <= EventsAt(s, pos, prefix, maxLen, m).events
    decreases Max(n, 0)
  {
    if n > 0 {
      var scan := LogAt(s, pos, prefix, maxLen);
      if scan.counted > 0 {
        EventsExtend(s, scan.pos, prefix, maxLen, n - 1, m - 1);
      }
    }
  }

  /**
   * A batch shorter than asked for ended on a null read: asking for more
   * returns the same events and leaves the stream at the same place.
   */
  lemma {:induction false} EventsStopAtNull(s: string, pos: nat, prefix: char, maxLen: int, n: int, m: int)
    requires pos <= |s| && n <= m
    requires |EventsAt(s, pos, prefix, maxLen, n).events| < n
    ensures EventsAt(s, pos, prefix, maxLen, m) == EventsAt(s, pos, prefix, maxLen, n)
    decreases Max(n, 0)
  {
    var scan := LogAt(s, pos, prefix, maxLen);
    if scan.counted > 0 {
      EventsStopAtNull(s, scan.pos, prefix, maxLen, n - 1, m - 1);
    }
  }

  /** An exhausted stream yields null and no events, and stays where it is. */
  lemma AtEndOfStream(s: string, prefix: char, maxLen: int, n: int)
    ensures LogAt(s, |s|, prefix, maxLen) == Scan([], |s|, 0, Exhausted)
    ensures EventsAt(s, |s|, prefix, maxLen, n) == Batch([], |s|)
  {
  }
}
