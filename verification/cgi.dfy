/**
 * HandlerCGI as the request handler sees it: the child process, its pipes
 * and the program it runs are outside the model; what the parent does to
 * the client socket is inside it.
 */
module Cgi {
  import opened CStrings
  import opened Sockets
  import opened Responses

  /** How fork() went, and what the parent then reads from the child's output pipe until EOF. */
  datatype CgiRun = ForkFailed | Forked(output: string)

  const POST: string := "POST"

  /**
   * Where the parent leaves the read cursor: a POST body is read one octet
   * per round, `cl` rounds, and rounds at the end of the stream read nothing.
   */
  function BodyEnd(size: nat, pos: nat, cl: int): (e: nat)
    requires pos <= size
    ensures pos <= e <= size
    ensures cl <= 0 ==> e == pos
    ensures 0 <= cl && pos + cl <= size ==> e == pos + cl
    ensures pos + cl > size ==> e == size
  {
    if cl <= 0 then pos else if pos + cl <= size then pos + cl else size
  }

  /**
   * The cursor after `k` rounds of read(new_sock, &c, 1) from `pos`: each
   * round takes one octet, or nothing once the stream has ended.
   */
  function CursorAfterReads(size: nat, pos: nat, k: nat): (e: nat)
    requires pos <= size
    ensures e <= size
  {
    if k == 0 then pos
    else
      var e := CursorAfterReads(size, pos, k - 1);
      if e < size then e + 1 else e
  }

  /** `k` one-octet reads end where BodyEnd says. */
  lemma {:induction false} ReadsReachBodyEnd(size: nat, pos: nat, k: nat)
    requires pos <= size
    ensures CursorAfterReads(size, pos, k) == BodyEnd(size, pos, k)
  {
    if k > 0 {
      ReadsReachBodyEnd(size, pos, k - 1);
    }
  }

  /** What the parent sends: a status line, a blank line and the child's output. */
  function CgiReply(run: CgiRun): string
  {
    match run
    case ForkFailed => []
    case Forked(output) => StaticReply(output)
  }

  /**
   * int HandlerCGIFather(...): for a POST (case-insensitive) reads
   * `contentLength` rounds of one octet from the socket; then sends the status
   * line, the blank line and `output`, and returns 200.
   */
  method HandlerCGIFather(sock: Socket, verb: string, contentLength: int, output: string) returns (r: int)
    requires sock.Valid()
    modifies sock`cursor, sock`sent
    ensures sock.Valid() && r == 200
    ensures sock.cursor == if EqualsIgnoreCase(verb, POST) then BodyEnd(|sock.incoming|, old(sock.cursor), contentLength) else old(sock.cursor)
    ensures sock.sent == old(sock.sent) + StaticReply(output)
  {
    if EqualsIgnoreCase(verb, POST) {
      ghost var pos := sock.cursor;
      var c := NUL;
      var i := 0;
      while i < contentLength
        invariant sock.Valid() && (if contentLength >= 0 then 0 <= i <= contentLength else i == 0)
        invariant sock.cursor == CursorAfterReads(|sock.incoming|, pos, i) && sock.sent == old(sock.sent)
      {
        var n;
        n, c := sock.Recv(c);
        i := i + 1;
      }
      ReadsReachBodyEnd(|sock.incoming|, pos, i);
    }
    sock.Send(OK_STATUS);
    sock.Send(BLANK_LINE);
    sock.Send(output);
    return 200;
  }

  /**
   * int HandlerCGI(int new_sock, const HttpRequest* req): when fork fails
   * nothing is sent; otherwise the parent's part runs. Either way the result
   * is 404, so the caller follows every CGI reply with the fallback page.
   */
  method HandlerCGI(sock: Socket, verb: string, contentLength: int, run: CgiRun) returns (r: int)
    requires sock.Valid()
    modifies sock`cursor, sock`sent
    ensures sock.Valid() && r == 404
    ensures sock.cursor == if run.Forked? && EqualsIgnoreCase(verb, POST) then BodyEnd(|sock.incoming|, old(sock.cursor), contentLength) else old(sock.cursor)
    ensures sock.sent == old(sock.sent) + CgiReply(run)
  {
    match run {
      case ForkFailed =>
      case Forked(output) =>
        var _ := HandlerCGIFather(sock, verb, contentLength, output);
    }
    return 404;
  }
}
