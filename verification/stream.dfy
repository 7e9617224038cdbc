/**
 * The upstream resettable character source, seen only through the calls the
 * deserializer makes on it: read one character, mark, reset and close.
 * Its contents are a fixed sequence of characters; reading advances a position,
 * `Mark` remembers the position and `Reset` returns to it.
 */
module Stream {
  import opened Wrappers

  class CharStream {
    /** Everything the source will ever deliver, in order. */
    const data: seq<char>
    /** Index of the next character `ReadChar` delivers. */
    var pos: nat
    /** The replay point `Reset` returns to. */
    var markPos: nat
    var closed: bool

    ghost predicate Valid()
      reads this
    {
      pos <= |data| && markPos <= |data|
    }

    /** A source positioned (and marked) at `start`. */
    constructor (data: seq<char>, start: nat)
      requires start <= |data|
      ensures Valid()
      ensures this.data == data && pos == start && markPos == start && !closed
    {
      this.data := data;
      pos := start;
      markPos := start;
      closed := false;
    }

    /** The next character, or `None` at end of stream (Java's `-1`). */
    method ReadChar() returns (c: Option<char>)
      requires Valid()
      modifies this`pos
      ensures Valid()
      ensures old(pos) < |data| ==> c == Some(data[old(pos)]) && pos == old(pos) + 1
      ensures old(pos) == |data| ==> c == None && pos == old(pos)
    {
      if pos < |data| {
        c := Some(data[pos]);
        pos := pos + 1;
      } else {
        c := None;
      }
    }

    method Mark()
      requires Valid()
      modifies this`markPos
      ensures Valid() && markPos == pos
    {
      markPos := pos;
    }

    method Reset()
      requires Valid()
      modifies this`pos
      ensures Valid() && pos == markPos
    {
      pos := markPos;
    }

    method Close()
      modifies this`closed
      ensures closed
    {
      closed := true;
    }
  }
}
