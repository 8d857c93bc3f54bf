/**
 * A connected stream socket as the request handler sees it: the octets the
 * peer sent, a read cursor into them, the octets sent back, and how often the
 * socket was closed. End of stream is the only way a read can fail here.
 */
module Sockets {
  class Socket {
    const incoming: string
    var cursor: nat
    var sent: string
    var closes: nat

    ghost predicate Valid()
      reads this
    {
      cursor <= |incoming|
    }

    constructor (incoming: string)
      ensures Valid()
      ensures this.incoming == incoming && cursor == 0 && sent == [] && closes == 0
    {
      this.incoming := incoming;
      cursor := 0;
      sent := [];
      closes := 0;
    }

    /**
     * recv(sock, &c, 1, 0): takes the next octet, returning 1; at the end of
     * the stream returns 0 and leaves `c` as it was (`into`).
     */
    method Recv(into: char) returns (n: int, c: char)
      requires Valid()
      modifies this`cursor
      ensures Valid()
      ensures old(cursor) < |incoming| ==> n == 1 && c == incoming[old(cursor)] && cursor == old(cursor) + 1
      ensures old(cursor) == |incoming| ==> n == 0 && c == into && cursor == old(cursor)
    {
      if cursor < |incoming| {
        n, c := 1, incoming[cursor];
        cursor := cursor + 1;
      } else {
        n, c := 0, into;
      }
    }

    /** recv(sock, &c, 1, MSG_PEEK): like Recv, but the cursor stays where it is. */
    method Peek(into: char) returns (n: int, c: char)
      requires Valid()
      ensures cursor < |incoming| ==> n == 1 && c == incoming[cursor]
      ensures cursor == |incoming| ==> n == 0 && c == into
    {
      if cursor < |incoming| {
        n, c := 1, incoming[cursor];
      } else {
        n, c := 0, into;
      }
    }

    /** send(sock, data, strlen(data), 0): the whole of `data` is written. */
    method Send(data: string)
      modifies this`sent
      ensures sent == old(sent) + data
    {
      sent := sent + data;
    }

    /** close(sock). */
    method Close()
      modifies this`closes
      ensures closes == old(closes) + 1
    {
      closes := closes + 1;
    }
  }
}
