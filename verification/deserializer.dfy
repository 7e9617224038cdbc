/**
 * The multi-line deserializer: it reads events from a resettable character
 * stream, one `readLog` call per event, and delegates mark, reset and close
 * to the stream. It is open from construction until the first `Close`; every
 * other operation on a closed deserializer fails with `IllegalState`.
 */
module Deserializer {
  import opened Wrappers
  import opened Stream
  import opened Framing

  /** Java's `IllegalStateException("Serializer has been closed")`. */
  datatype Error = IllegalState

  class MultiLineDeserializer {
    const input: CharStream
    const maxLineLength: int
    const newLogStartPrefix: char
    var isOpen: bool

    ghost predicate Valid()
      reads this, input
    {
      input.Valid()
    }

    constructor (stream: CharStream, maxLineLength: int, newLogStartPrefix: char)
      requires stream.Valid()
      ensures Valid() && isOpen
      ensures input == stream && this.maxLineLength == maxLineLength
      ensures this.newLogStartPrefix == newLogStartPrefix
    {
      input := stream;
      this.maxLineLength := maxLineLength;
      this.newLogStartPrefix := newLogStartPrefix;
      isOpen := true;
    }

    /** Fails exactly when the deserializer has been closed. */
    function EnsureOpen(): (o: Outcome<Error>)
      reads this
      ensures o.Pass? <==> isOpen
      ensures o.Fail? ==> o.error == IllegalState
    {
      if isOpen then Pass else Fail(IllegalState)
    }

    /**
     * One iteration of the read loop of `readLog`: reads a character and,
     * after a newline, the character that follows it, and says whether the
     * loop halts, drops a mid-line prefix, or takes a chunk into the body.
     */
    method ReadStep() returns (step: Step)
      requires Valid()
      modifies input`pos
      ensures Valid()
      ensures step == StepAt(input.data, old(input.pos), newLogStartPrefix)
      ensures input.pos == step.next
    {
      var c := input.ReadChar();
      if c.None? {
        return Halt(Exhausted, input.pos);
      }
      if c.value == '\n' {
        var c2 := input.ReadChar();
        if c2.None? {
          return Halt(NewlineThenEnd, input.pos);
        } else if c2.value == newLogStartPrefix {
          return Halt(NewlineThenPrefix, input.pos);
        } else {
          return Take(['\n', c2.value], input.pos);
        }
      } else if c.value == newLogStartPrefix {
        return Skip(input.pos);
      }
      step := Take([c.value], input.pos);
    }

    /**
     * Reads the next log entry: null (`None`) when no character was counted,
     * otherwise the accumulated body. The stream is left where `LogAt` says.
     */
    method ReadLog() returns (line: Option<string>)
      requires Valid()
      modifies input`pos
      ensures Valid()
      ensures var scan := LogAt(input.data, old(input.pos), newLogStartPrefix, maxLineLength);
              input.pos == scan.pos && line == (if scan.counted > 0 then Some(scan.text) else None)
    {
      ghost var s, prefix := input.data, newLogStartPrefix;
      ghost var whole := LogAt(s, input.pos, prefix, maxLineLength);
      var sb: string := [];
      var readChars: nat := 0;
      while true
        invariant Valid()
        invariant var rest := ScanLoop(s, input.pos, prefix, maxLineLength, readChars);
                  whole == rest.(text := sb + rest.text)
        decreases |s| - input.pos
      {
        ghost var at := input.pos;
        var step := ReadStep();
        if step.Halt? {
          ScanHalts(s, at, prefix, maxLineLength, readChars);
          assert sb + [] == sb;
          break;
        } else if step.Skip? {
          ScanSkips(s, at, prefix, maxLineLength, readChars);
          continue;
        }
        ScanTakes(s, at, prefix, maxLineLength, readChars);
        ghost var before := sb;
        readChars := readChars + 1;
        sb := sb + step.chunk;
        if readChars >= maxLineLength {
          assert whole == Scan(sb, input.pos, readChars, LimitReached);
          break;
        }
        ghost var rest := ScanLoop(s, input.pos, prefix, maxLineLength, readChars);
        assert before + (step.chunk + rest.text) == sb + rest.text;
      }
      assert whole.text == sb && whole.pos == input.pos && whole.counted == readChars;
      if readChars > 0 {
        line := Some(sb);
      } else {
        line := None;
      }
    }

    /** One event, null at the end of the input, or `IllegalState` when closed. */
    method ReadEvent() returns (r: Result<Option<Event>, Error>)
      requires Valid()
      modifies input`pos
      ensures Valid()
      ensures !isOpen ==> r == Failure(IllegalState) && input.pos == old(input.pos)
      ensures isOpen ==>
                var scan := LogAt(input.data, old(input.pos), newLogStartPrefix, maxLineLength);
                input.pos == scan.pos &&
                r == Success(if scan.counted > 0 then Some(Event(scan.text)) else None)
    {
      var o := EnsureOpen();
      if o.Fail? {
        return Failure(o.error);
      }
      var line := ReadLog();
      if line.None? {
        r := Success(None);
      } else {
        r := Success(Some(Event(line.value)));
      }
    }

    /** Up to `numEvents` events, stopping at the first null. */
    method ReadEvents(numEvents: int) returns (r: Result<seq<Event>, Error>)
      requires Valid()
      modifies input`pos
      ensures Valid()
      ensures !isOpen ==> r == Failure(IllegalState) && input.pos == old(input.pos)
      ensures isOpen ==>
                var batch := EventsAt(input.data, old(input.pos), newLogStartPrefix, maxLineLength, numEvents);
                input.pos == batch.pos && r == Success(batch.events)
    {
      var o := EnsureOpen();
      if o.Fail? {
        return Failure(o.error);
      }
      ghost var s, prefix := input.data, newLogStartPrefix;
      ghost var whole := EventsAt(s, input.pos, prefix, maxLineLength, numEvents);
      var events: seq<Event> := [];
      var i := 0;
      while i < numEvents
        invariant Valid() && isOpen && input.data == s
        invariant 0 <= i && (i <= numEvents || i == 0)
        invariant var rest := EventsAt(s, input.pos, prefix, maxLineLength, numEvents - i);
                  whole == Batch(events + rest.events, rest.pos)
      {
        ghost var at := input.pos;
        EventsStep(s, at, prefix, maxLineLength, numEvents - i);
        var event := ReadEvent();
        ghost var scan := LogAt(s, at, prefix, maxLineLength);
        assert input.pos == scan.pos && event.value == (if scan.counted > 0 then Some(Event(scan.text)) else None);
        if event.value.None? {
          assert events + [] == events;
          break;
        }
        var e := event.value.value;
        ghost var rest := EventsAt(s, input.pos, prefix, maxLineLength, numEvents - i - 1);
        assert events + ([e] + rest.events) == (events + [e]) + rest.events;
        events := events + [e];
        i := i + 1;
      }
      assert whole == Batch(events, input.pos);
      r := Success(events);
    }

    /** Fixes the replay point at the current read position. */
    method Mark() returns (o: Outcome<Error>)
      requires Valid()
      modifies input`markPos
      ensures Valid()
      ensures o == EnsureOpen()
      ensures isOpen ==> input.markPos == input.pos
      ensures !isOpen ==> input.markPos == old(input.markPos)
    {
      o := EnsureOpen();
      if o.Pass? {
        input.Mark();
      }
    }

    /** Rewinds the read position to the replay point. */
    method Reset() returns (o: Outcome<Error>)
      requires Valid()
      modifies input`pos
      ensures Valid()
      ensures o == EnsureOpen()
      ensures isOpen ==> input.pos == input.markPos
      ensures !isOpen ==> input.pos == old(input.pos)
    {
      o := EnsureOpen();
      if o.Pass? {
        input.Reset();
      }
    }

    /**
     * The first call rewinds to the replay point, closes the stream and marks
     * the deserializer closed; later calls change nothing.
     */
    method Close()
      requires Valid()
      modifies this`isOpen, input`pos, input`closed
      ensures Valid() && !isOpen
      ensures old(isOpen) ==> input.pos == input.markPos && input.closed
      ensures !old(isOpen) ==> input.pos == old(input.pos) && input.closed == old(input.closed)
    {
      if isOpen {
        var _ := Reset();
        input.Close();
        isOpen := false;
      }
    }
  }

  /**
   * The rewind contract as a caller uses it: after `Mark`, reading a batch,
   * `Reset` and reading again yields the same batch.
   */
  method ReplayAfterReset(d: MultiLineDeserializer, n: int) returns (first: seq<Event>, second: seq<Event>)
    requires d.Valid() && d.isOpen
    modifies d.input`pos, d.input`markPos
    ensures d.Valid() && d.isOpen
    ensures first == second
    ensures first == EventsAt(d.input.data, old(d.input.pos), d.newLogStartPrefix, d.maxLineLength, n).events
  {
    var marked := d.Mark();
    var r1 := d.ReadEvents(n);
    var reset := d.Reset();
    var r2 := d.ReadEvents(n);
    first, second := r1.value, r2.value;
  }
}
