/** utf8_buffered_reader of the bundled toml.hpp: a reader that can step back over its last
    127 codepoints through a ring buffer.  Codepoints are numbers. */
module TomlReaders {
  import opened Words

  const HISTORY: nat := 127  // max_history_length - 1; the head is kept apart

  type Codepoint = int

  /** The reference: codepoint k of the stream, or the end of file. */
  function At(stream: seq<Codepoint>, k: nat): Option<Codepoint> {
    if k < |stream| then Some(stream[k]) else None
  }

  class BufferedReader {
    // the reader underneath: a stream and how much of it was read
    const stream: seq<Codepoint>
    var pos: nat

    const buffer: array<Codepoint>
    var count: nat
    var first: nat
    var head: Option<Codepoint>
    var negativeOffset: nat

    /** The position last returned, -1 before the first read, and the furthest one reached. */
    ghost var cursor: int
    ghost var top: nat

    ghost predicate Valid()
      reads this, buffer
    {
      && buffer.Length == HISTORY
      && (cursor == -1 ==> pos == 0 && count == 0 && first == 0 && head == None && negativeOffset == 0 && top == 0)
      && (cursor != -1 ==>
            && cursor == top - negativeOffset && top <= |stream| && head == At(stream, top)
            && pos == Min(top + 1, |stream|))
      && count == Min(top, HISTORY) && first + count == top && negativeOffset <= count
      && forall k | first <= k < top :: buffer[k % HISTORY] == stream[k]
    }

    constructor (s: seq<Codepoint>)
      ensures Valid() && stream == s && cursor == -1 && top == 0 && fresh(buffer)
    {
      stream := s;
      pos := 0;
      buffer := new Codepoint[HISTORY];
      count, first, head, negativeOffset := 0, 0, None, 0;
      cursor, top := -1, 0;
    }

    /** The reader underneath: the next codepoint, or none at the end, again and again. */
    method ReadUnderlying() returns (c: Option<Codepoint>)
      requires pos <= |stream|
      modifies this`pos
      ensures c == At(stream, old(pos)) && pos == Min(old(pos) + 1, |stream|)
    {
      if pos < |stream| {
        c := Some(stream[pos]);
        pos := pos + 1;
      } else {
        c := None;
      }
    }

    /** Moves the cursor one on, but not past the end of file, and returns what is there. */
    method ReadNext() returns (c: Option<Codepoint>)
      requires Valid()
      modifies this, buffer
      ensures Valid() && cursor == Min(old(cursor) + 1, |stream|) && top == Max(old(top), cursor)
      ensures c == At(stream, cursor)
    {
      if negativeOffset > 0 {
        negativeOffset := negativeOffset - 1;
        cursor := cursor + 1;
        if negativeOffset == 0 {
          c := head;
        } else {
          c := Some(buffer[(first + count - negativeOffset) % HISTORY]);
        }
      } else {
        if count == 0 && head == None {
          head := ReadUnderlying();
          cursor := 0;
        } else if head.Some? {
          if count < HISTORY {
            buffer[count] := head.value;
            count := count + 1;
          } else {
            buffer[(first + HISTORY) % HISTORY] := head.value;
            first := first + 1;
          }
          head := ReadUnderlying();
          cursor, top := cursor + 1, top + 1;
        }
        c := head;
      }
    }

    /** Moves the cursor back.  The asserted bound is that the target is one of the positions kept:
        the last 127 before the furthest one reached. */
    method StepBack(n: nat) returns (c: Option<Codepoint>)
      requires Valid() && count > 0 && negativeOffset + n <= count
      modifies this`negativeOffset, this`cursor
      ensures Valid() && cursor == old(cursor) - n && c == At(stream, cursor)
    {
      negativeOffset := negativeOffset + n;
      cursor := cursor - n;
      if negativeOffset > 0 {
        c := Some(buffer[(first + count - negativeOffset) % HISTORY]);
      } else {
        c := head;
      }
    }

    /** The bound in terms of positions: exactly those from max(0, top - 127) on can be stepped back to. */
    lemma StepBackBound(n: nat)
      requires Valid() && cursor != -1
      ensures count > 0 && negativeOffset + n <= count <==> top > 0 && cursor - n >= Max(0, top - HISTORY)
    {
    }
  }
}
