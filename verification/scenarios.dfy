/**
 * Worked inputs for the framing rule, each fixing what `readLog` and
 * `readEvents` return on a small stream with the default settings unless
 * stated otherwise.
 */
module Scenarios {
  import opened Framing

  /** A newline followed by the prefix ends an event; a plain newline does not. */
  lemma PrefixLineStartsEvent()
    ensures LogAt("A\n^B\nC", 0, DefaultPrefix, DefaultMaxLineLength) == Scan("A", 3, 1, NewlineThenPrefix)
    ensures LogAt("A\n^B\nC", 3, DefaultPrefix, DefaultMaxLineLength) == Scan("B\nC", 6, 2, Exhausted)
    ensures EventsAt("A\n^B\nC", 0, DefaultPrefix, DefaultMaxLineLength, 10) == Batch([Event("A"), Event("B\nC")], 6)
  {
  }

  /**
   * A newline read as the follower of another newline is never tested, so a
   * prefix after it is a mid-line prefix: it is dropped and the event goes on.
   */
  lemma FollowerNewlineNotTested()
    ensures LogAt("\n\n^B", 0, DefaultPrefix, DefaultMaxLineLength) == Scan("\n\nB", 4, 2, Exhausted)
  {
  }

  /** A stream without newlines is one event, ended by end of stream. */
  lemma EndOfStreamEndsEvent()
    ensures LogAt("abc", 0, DefaultPrefix, DefaultMaxLineLength) == Scan("abc", 3, 3, Exhausted)
  {
  }

  /** A prefix in the middle of a line is dropped and not counted. */
  lemma MidLinePrefixDropped()
    ensures LogAt("ab^cd", 0, DefaultPrefix, DefaultMaxLineLength) == Scan("abcd", 5, 4, Exhausted)
  {
  }

  /** Blank lines stay in the body; a newline and its follower count once. */
  lemma BlankLinesKept()
    ensures LogAt("A\n\n", 0, DefaultPrefix, DefaultMaxLineLength) == Scan("A\n\n", 3, 2, Exhausted)
  {
  }

  /**
   * A stream that opens with a newline and the prefix yields null although
   * input remains, so a batch read stops there.
   */
  lemma EmptyEventStopsBatch()
    ensures LogAt("\n^A", 0, DefaultPrefix, DefaultMaxLineLength) == Scan([], 2, 0, NewlineThenPrefix)
    ensures EventsAt("\n^A", 0, DefaultPrefix, DefaultMaxLineLength, 5) == Batch([], 2)
  {
  }

  /**
   * With the newline as prefix, a newline followed by another character
   * stays in the body, and an empty line separates events.
   */
  lemma NewlineAsPrefix()
    ensures LogAt("A\nB", 0, '\n', DefaultMaxLineLength) == Scan("A\nB", 3, 2, Exhausted)
    ensures EventsAt("A\n\nB", 0, '\n', DefaultMaxLineLength, 5) == Batch([Event("A"), Event("B")], 4)
  {
    var s := "A\n\nB";
    assert LogAt(s, 0, '\n', DefaultMaxLineLength) == Scan("A", 3, 1, NewlineThenPrefix);
    assert LogAt(s, 3, '\n', DefaultMaxLineLength) == Scan("B", 4, 1, Exhausted);
    AtEndOfStream(s, '\n', DefaultMaxLineLength, 3);
  }

  /** Truncation splits a long line into successive events of the limit's length. */
  lemma LongLineTruncated()
    ensures EventsAt("abcde", 0, DefaultPrefix, 2, 5) == Batch([Event("ab"), Event("cd"), Event("e")], 5)
  {
    var s := "abcde";
    assert LogAt(s, 0, DefaultPrefix, 2) == Scan("ab", 2, 2, LimitReached);
    assert LogAt(s, 2, DefaultPrefix, 2) == Scan("cd", 4, 2, LimitReached);
    assert LogAt(s, 4, DefaultPrefix, 2) == Scan("e", 5, 1, Exhausted);
    AtEndOfStream(s, DefaultPrefix, 2, 2);
  }

  /** A limit of zero or less still lets one counted character through. */
  lemma NonPositiveLimit()
    ensures LogAt("abc", 0, DefaultPrefix, 0) == Scan("a", 1, 1, LimitReached)
    ensures LogAt("abc", 0, DefaultPrefix, -5) == Scan("a", 1, 1, LimitReached)
  {
  }
}
