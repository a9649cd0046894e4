/**
 * The process's standard output stream, seen as the sequence of bytes
 * written to it so far, and output_to_console, which writes a buffer to it
 * one character at a time.
 */
module Console {
  import opened Common

  class Stdout {
    /** Every byte written to standard output, in order. */
    var written: seq<Byte>

    constructor ()
      ensures written == []
    {
      written := [];
    }

    /** fputc(c, stdout): appends one byte. */
    method Putc(c: Byte)
      modifies this
      ensures written == old(written) + [c]
    {
      written := written + [c];
    }

    /**
     * output_to_console(buf, len): counts len down to 0, emitting the byte
     * under the cursor and advancing it each time, so buf[0..len) is
     * appended in order and nothing at all when len is 0.
     */
    method OutputToConsole(buf: array<Byte>, len: int)
      requires 0 <= len <= buf.Length
      modifies this
      ensures written == old(written) + buf[..len]
    {
      var remaining := len;
      var cursor := 0;
      while remaining != 0
        invariant 0 <= cursor <= len && remaining == len - cursor
        invariant written == old(written) + buf[..cursor]
        decreases remaining
      {
        Putc(buf[cursor]);
        assert buf[..cursor + 1] == buf[..cursor] + [buf[cursor]];
        cursor := cursor + 1;
        remaining := remaining - 1;
      }
    }
  }
}
