/**
 * HandlerRequest: one request from the first line to the close of the
 * socket. Every failure on the way sets the error code to 404 and jumps to
 * the end, where any code other than 200 sends the fallback page.
 */
module Dispatcher {
  import opened Wrappers
  import opened CStrings
  import opened Sockets
  import opened LineReader
  import opened RequestLine
  import opened Target
  import opened Headers
  import opened Responses
  import opened Cgi

  const GET: string := "GET"

  /** Which handler a parsed request goes to. */
  datatype Route = Static | Dynamic | Unsupported

  /**
   * The dispatch of HandlerRequest: GET without a query string is static,
   * GET with one (even an empty one) and POST are dynamic, and any other
   * method is unsupported. Methods are compared ignoring case.
   */
  function Choose(verb: string, hasQuery: bool): (r: Route)
    ensures r == Static <==> EqualsIgnoreCase(verb, GET) && !hasQuery
    ensures r == Dynamic <==> (EqualsIgnoreCase(verb, GET) && hasQuery) || EqualsIgnoreCase(verb, POST)
    ensures r == Unsupported <==> !EqualsIgnoreCase(verb, GET) && !EqualsIgnoreCase(verb, POST)
  {
    if EqualsIgnoreCase(verb, GET) && !hasQuery then Static
    else if EqualsIgnoreCase(verb, GET) && hasQuery then Dynamic
    else if EqualsIgnoreCase(verb, POST) then Dynamic
    else Unsupported
  }

  /** What HandlerRequest leaves: its error code, what it sent before the fallback page, and the read cursor. */
  datatype Outcome = Outcome(errCode: int, sent: string, next: nat)

  /** The first line is read into first_line with max_size SIZE - 1, so at most SIZE - 2 octets are stored. */
  const FIRST_LINE_ROOM: nat := SIZE - 2

  /** The request line splits into no more tokens than ParseFirstLine's table holds. */
  predicate RequestLineFits(input: string, pos: nat)
    requires pos <= |input|
  {
    match ReadLineSpec(input, pos, FIRST_LINE_ROOM)
    case ReadFailed => true
    case Line(text, _) => |Tokens(UpToNul(text), SP)| <= MAX_TOKENS
  }

  /** What part 1 of HandlerRequest makes of the request: a failure (with the cursor it leaves) or the parsed request. */
  datatype Parse =
    | ParseFailed(next: nat)
    | Parsed(verb: string, urlPath: string, query: Option<string>, contentLength: int, next: nat)

  /**
   * The request read from `pos`: the first line (read as ReadLine reads it
   * into first_line), its three tokens, the target split at '?', and the
   * headers up to the blank line, starting from content length 0.
   */
  function ParseSpec(input: string, pos: nat): (p: Parse)
    requires pos <= |input|
    ensures p.next <= |input|
  {
    match ReadLineSpec(input, pos, FIRST_LINE_ROOM)
    case ReadFailed => ParseFailed(|input|)
    case Line(text, afterLine) =>
      match SplitRequestLine(UpToNul(text))
      case None => ParseFailed(afterLine)
      case Some((verb, t)) =>
        match ScanHeaders(input, afterLine, 0)
        case HeadersFailed(_) => ParseFailed(|input|)
        case HeadersEnd(cl, afterHeaders) => Parsed(verb, t.path, t.query, cl, afterHeaders)
  }

  /** The handling of a parsed request whose headers end at `next`, by route. */
  function Dispatch(input: string, next: nat, verb: string, urlPath: string, hasQuery: bool, cl: int,
                    isDir: string -> bool, files: map<string, string>, run: CgiRun): Outcome
    requires next <= |input|
  {
    match Choose(verb, hasQuery)
    case Static =>
      var path := FilePath(urlPath, isDir);
      if path in files then Outcome(200, StaticReply(files[path]), next) else Outcome(404, [], next)
    case Dynamic =>
      Outcome(404, CgiReply(run), if run.Forked? && EqualsIgnoreCase(verb, POST) then BodyEnd(|input|, next, cl) else next)
    case Unsupported => Outcome(404, [], next)
  }

  /** The request from `pos` up to the label END of HandlerRequest. */
  function Handle(input: string, pos: nat, isDir: string -> bool, files: map<string, string>, run: CgiRun): Outcome
    requires pos <= |input|
  {
    match ParseSpec(input, pos)
    case ParseFailed(next) => Outcome(404, [], next)
    case Parsed(verb, urlPath, query, cl, next) => Dispatch(input, next, verb, urlPath, query.Some?, cl, isDir, files, run)
  }

  /** The whole request: after END, the fallback page follows whenever the code is not 200. */
  function Serve(input: string, pos: nat, isDir: string -> bool, files: map<string, string>, run: CgiRun): Outcome
    requires pos <= |input|
  {
    var o := Handle(input, pos, isDir, files, run);
    Outcome(o.errCode, o.sent + (if o.errCode != 200 then NotFoundPage() else []), o.next)
  }

  /**
   * void HandlerRequest(int new_sock): reads and parses the request, serves
   * it by route, sends the fallback page unless the code is 200, and closes
   * the socket once. The file system (`isDir`, `files`) and the CGI child
   * (`run`) are parameters.
   */
  method HandlerRequest(sock: Socket, isDir: string -> bool, files: map<string, string>, run: CgiRun)
    requires sock.Valid() && RequestLineFits(sock.incoming, sock.cursor)
    modifies sock
    ensures sock.Valid()
    ensures var o := Serve(sock.incoming, old(sock.cursor), isDir, files, run);
      sock.sent == old(sock.sent) + o.sent && sock.cursor == o.next
    ensures sock.closes == old(sock.closes) + 1
  {
    ghost var sent0 := sock.sent;
    ghost var o := Handle(sock.incoming, sock.cursor, isDir, files, run);
    var errCode := 200;
    label end: {
      var ok, verb, urlPath, query, contentLength := ParseRequest(sock);
      if !ok {
        errCode := 404;
        break end;
      }
      errCode := ServeByRoute(sock, verb, urlPath, query.Some?, contentLength, isDir, files, run);
    }
    assert errCode == o.errCode && sock.sent == sent0 + o.sent;
    if errCode != 200 {
      var _ := Handler404(sock);
      AppendAssoc(sent0, o.sent, NotFoundPage());
    } else {
      assert o.sent + [] == o.sent;
    }
    sock.Close();
  }

  /** Regrouping appended output; stated apart because the solver finds it slowly inside HandlerRequest. */
  lemma AppendAssoc(a: string, b: string, c: string)
    ensures (a + b) + c == a + (b + c)
  {
  }

  /**
   * Part 1 of HandlerRequest, reading and parsing into the zeroed request
   * (HttpRequest req; memset(&req, 0, sizeof(req))): the first line, its
   * method and URL with the query string, then the headers. Each step that
   * fails ends part 1 with `ok` false.
   */
  method ParseRequest(sock: Socket) returns (ok: bool, verb: string, urlPath: string, query: Option<string>, contentLength: int)
    requires sock.Valid() && RequestLineFits(sock.incoming, sock.cursor)
    modifies sock`cursor
    ensures sock.Valid()
    ensures var p := ParseSpec(sock.incoming, old(sock.cursor));
      && sock.cursor == p.next
      && (ok <==> p.Parsed?)
      && (ok ==> verb == p.verb && urlPath == p.urlPath && query == p.query && contentLength == p.contentLength)
  {
    ghost var input := sock.incoming;
    ghost var pos := sock.cursor;
    var firstLine := new char[SIZE](_ => NUL);
    contentLength := 0;
    var n := ReadLine(sock, firstLine, SIZE - 1);
    ghost var l := ReadLineSpec(input, pos, FIRST_LINE_ROOM);
    if n < 0 {
      return false, [], [], None, contentLength;
    }
    CStringOfStored(firstLine, l.text);
    assert firstLine[..][|l.text|] == NUL;
    ok, verb, urlPath, query := ParseRequestLine(firstLine);
    if !ok {
      return;
    }
    var rh;
    rh, contentLength := HandlerHeader(sock, contentLength);
    ok := rh >= 0;
  }

  /** The method and the split target of a request line with exactly three tokens. */
  function SplitRequestLine(line: string): Option<(string, Target)>
  {
    var ts := Tokens(line, SP);
    if |ts| != 3 then None else Some((ts[0], SplitTarget(ts[1])))
  }

  /**
   * Steps b and c of part 1: ParseFirstLine on first_line, then
   * ParseQueryString on the URL, read back as C strings.
   */
  method ParseRequestLine(firstLine: array<char>) returns (ok: bool, verb: string, urlPath: string, query: Option<string>)
    requires NUL in firstLine[..] && |Tokens(CString(firstLine, 0), SP)| <= MAX_TOKENS
    modifies firstLine
    ensures var sl := SplitRequestLine(old(CString(firstLine, 0)));
      && (ok <==> sl.Some?)
      && (ok ==> verb == sl.value.0 && urlPath == sl.value.1.path && query == sl.value.1.query)
  {
    ghost var ts := Tokens(CString(firstLine, 0), SP);
    var r, verbAt, url := ParseFirstLine(firstLine);
    if r < 0 {
      return false, [], [], None;
    }
    verb, urlPath, query := ReadRequestTarget(firstLine, verbAt, url, ts[0], ts[1]);
    return true, verb, urlPath, query;
  }

  /**
   * Step c of part 1 on a split first line: ParseQueryString cuts the URL
   * token in place; the method token, stored before it, is left intact.
   */
  method ReadRequestTarget(firstLine: array<char>, verbAt: nat, url: nat, ghost w: string, ghost u: string)
    returns (verb: string, urlPath: string, query: Option<string>)
    requires StoredAt(firstLine[..], verbAt, w) && StoredAt(firstLine[..], url, u) && verbAt + |w| < url
    modifies firstLine
    ensures verb == w && urlPath == SplitTarget(u).path && query == SplitTarget(u).query
  {
    ghost var before := firstLine[..];
    var r, queryString := ParseQueryString(firstLine, url, u);
    if queryString.Some? {
      StoredElsewhere(firstLine, before, verbAt, w, queryString.value - 1, NUL);
      verb, urlPath := CString(firstLine, verbAt), CString(firstLine, url);
      query := Some(CString(firstLine, queryString.value));
    } else {
      StillStored(firstLine, before, verbAt, w);
      verb, urlPath, query := CString(firstLine, verbAt), CString(firstLine, url), None;
    }
  }

  /**
   * Part 2 of HandlerRequest, the dispatch: GET without a query string goes
   * to HandlerStaticFile, GET with one and POST go to HandlerCGI, and any
   * other method gives 404 without a handler.
   */
  method ServeByRoute(sock: Socket, verb: string, urlPath: string, hasQuery: bool, contentLength: int,
                      isDir: string -> bool, files: map<string, string>, run: CgiRun) returns (errCode: int)
    requires sock.Valid()
    modifies sock`cursor, sock`sent
    ensures sock.Valid()
    ensures var o := Dispatch(sock.incoming, old(sock.cursor), verb, urlPath, hasQuery, contentLength, isDir, files, run);
      errCode == o.errCode && sock.sent == old(sock.sent) + o.sent && sock.cursor == o.next
  {
    if EqualsIgnoreCase(verb, GET) && !hasQuery {
      errCode := HandlerStaticFile(sock, urlPath, isDir, files);
    } else if EqualsIgnoreCase(verb, GET) && hasQuery {
      errCode := HandlerCGI(sock, verb, contentLength, run);
    } else if EqualsIgnoreCase(verb, POST) {
      errCode := HandlerCGI(sock, verb, contentLength, run);
    } else {
      errCode := 404;
    }
  }
}
