/**
 * The accepted connection as the request handler uses it: `gets` hands out
 * the lines the peer sent, `write` appends to what the peer receives and
 * `close` ends the connection. Reading or writing a closed socket raises in
 * Ruby, so those operations require an open socket; closing one that is
 * already closed does nothing but is still counted as a call.
 */
module Sockets {
  import opened Text

  class Socket {
    /** Everything the peer sends, cut into lines the way `gets` cuts it. */
    const input: seq<string>
    /** How many of those lines `gets` has handed out. */
    var cursor: nat
    /** Everything written to the peer so far. */
    var output: string
    var closed: bool
    /** How many times `close` was called. */
    var closeCalls: nat

    ghost predicate Valid()
      reads this
    {
      cursor <= |input|
    }

    /** The lines not read yet. */
    function Unread(): seq<string>
      reads this
      requires Valid()
    {
      input[cursor..]
    }

    constructor (lines: seq<string>)
      ensures Valid() && input == lines && cursor == 0
      ensures output == [] && !closed && closeCalls == 0
    {
      input := lines;
      cursor := 0;
      output := [];
      closed := false;
      closeCalls := 0;
    }

    /** `IO#gets`: the next line, or `nil` at end of stream (which reads nothing). */
    method Gets() returns (line: Option<string>)
      requires Valid() && !closed
      modifies this`cursor
      ensures Valid()
      ensures old(cursor) < |input| ==> line == Some(input[old(cursor)]) && cursor == old(cursor) + 1
      ensures old(cursor) == |input| ==> line == None && cursor == old(cursor)
    {
      if cursor < |input| {
        line := Some(input[cursor]);
        cursor := cursor + 1;
      } else {
        line := None;
      }
    }

    /** `IO#write` on a synchronous socket: the bytes reach the peer at once. */
    method Write(data: string)
      requires !closed
      modifies this`output
      ensures output == old(output) + data
    {
      output := output + data;
    }

    /** `IO#close`; a second call on a closed socket has no further effect. */
    method Close()
      modifies this`closed, this`closeCalls
      ensures closed && closeCalls == old(closeCalls) + 1
    {
      closed := true;
      closeCalls := closeCalls + 1;
    }

    /**
     * `exec` with the socket as standard output: the process that replaces
     * this one writes `stdout` to the peer, and the socket is closed when it
     * exits, without any `close` call from this program.
     */
    method HandOver(stdout: string)
      requires !closed
      modifies this`output, this`closed
      ensures output == old(output) + stdout && closed
    {
      output := output + stdout;
      closed := true;
    }
  }
}
