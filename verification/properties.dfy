/**
 * What HandlerRequest does with whole requests: how the method and the
 * query string choose the handler, when the fallback page is sent, and what
 * a well-formed request is parsed into and answered with.
 */
module RequestProperties {
  import opened Wrappers
  import opened CStrings
  import opened LineReader
  import opened RequestLine
  import opened Target
  import opened Headers
  import opened Responses
  import opened Cgi
  import opened Dispatcher

  /** strcasecmp: methods that differ only in case take the same route. */
  lemma RouteIgnoresCase(verb: string, verb': string, hasQuery: bool)
    requires EqualsIgnoreCase(verb, verb')
    ensures Choose(verb, hasQuery) == Choose(verb', hasQuery)
  {
    SameCaseFolding(verb, verb', GET);
    SameCaseFolding(verb, verb', POST);
  }

  /** Strings equal ignoring case compare alike with any third string. */
  lemma SameCaseFolding(a: string, b: string, c: string)
    requires EqualsIgnoreCase(a, b)
    ensures EqualsIgnoreCase(a, c) <==> EqualsIgnoreCase(b, c)
  {
    if EqualsIgnoreCase(a, c) {
      forall i | 0 <= i < |b|
        ensures ToLower(b[i]) == ToLower(c[i])
      {
        assert ToLower(a[i]) == ToLower(b[i]);
      }
    }
    if EqualsIgnoreCase(b, c) {
      forall i | 0 <= i < |a|
        ensures ToLower(a[i]) == ToLower(c[i])
      {
        assert ToLower(a[i]) == ToLower(b[i]);
      }
    }
  }

  /** The code stays 200 exactly when a static request finds its file. */
  lemma OkOnlyForServedFiles(input: string, pos: nat, isDir: string -> bool, files: map<string, string>, run: CgiRun)
    requires pos <= |input|
    ensures var p := ParseSpec(input, pos);
      Serve(input, pos, isDir, files, run).errCode == 200
      <==> p.Parsed? && Choose(p.verb, p.query.Some?) == Static && FilePath(p.urlPath, isDir) in files
  {
  }

  /**
   * The fallback page is sent after everything else exactly when the code is
   * not 200; with 200 the reply is the file alone.
   */
  lemma FallbackUnlessOk(input: string, pos: nat, isDir: string -> bool, files: map<string, string>, run: CgiRun)
    requires pos <= |input|
    ensures var o := Serve(input, pos, isDir, files, run);
      var h := Handle(input, pos, isDir, files, run);
      && (o.errCode != 200 ==> o.sent == h.sent + NotFoundPage())
      && (o.errCode == 200 ==> o.sent == h.sent && o.sent == StaticReply(files[FilePath(ParseSpec(input, pos).urlPath, isDir)]))
  {
  }

  /** A request that fails to parse is answered with the fallback page alone. */
  lemma FailedParseGetsFallbackOnly(input: string, pos: nat, isDir: string -> bool, files: map<string, string>, run: CgiRun)
    requires pos <= |input| && ParseSpec(input, pos).ParseFailed?
    ensures Serve(input, pos, isDir, files, run) == Outcome(404, NotFoundPage(), ParseSpec(input, pos).next)
  {
  }

  /** HandlerCGI returns 404, so whatever the CGI reply was, the fallback page follows it. */
  lemma CgiReplyFollowedByFallback(input: string, pos: nat, isDir: string -> bool, files: map<string, string>, run: CgiRun)
    requires pos <= |input|
    requires var p := ParseSpec(input, pos); p.Parsed? && Choose(p.verb, p.query.Some?) == Dynamic
    ensures var o := Serve(input, pos, isDir, files, run);
      o.errCode == 404 && o.sent == CgiReply(run) + NotFoundPage()
  {
  }

  /** A method other than GET and POST is answered with the fallback page alone, without reading further. */
  lemma UnsupportedMethodGetsFallbackOnly(input: string, pos: nat, isDir: string -> bool, files: map<string, string>, run: CgiRun)
    requires pos <= |input|
    requires var p := ParseSpec(input, pos); p.Parsed? && !EqualsIgnoreCase(p.verb, GET) && !EqualsIgnoreCase(p.verb, POST)
    ensures Serve(input, pos, isDir, files, run) == Outcome(404, NotFoundPage(), ParseSpec(input, pos).next)
  {
  }

  /** A token of a request line: non-empty, without space, line end or NUL. */
  predicate Word(w: string)
  {
    w != [] && SP !in w && NoLineEnd(w) && NUL !in w
  }

  /** A request: "METHOD TARGET VERSION", its line end, the header block, then the body. */
  function RequestText(verb: string, target: string, version: string, crlf: bool, lines: seq<string>, body: string): string
  {
    verb + " " + target + " " + version + (if crlf then "\r\n" else "\n") + HeaderBlock(lines, crlf) + body
  }

  /**
   * A well-formed request whose first line fits the buffer parses into its
   * method, the path and query of its target, and the content length its
   * headers leave; the headers are consumed up to the body.
   */
  lemma ParsesWellFormedRequest(verb: string, target: string, version: string, crlf: bool,
                                lines: seq<string>, body: string)
    requires Word(verb) && Word(target) && Word(version)
    requires |verb| + |target| + |version| + 3 <= FIRST_LINE_ROOM
    requires forall k :: 0 <= k < |lines| ==> PlainLine(lines[k])
    ensures var input := RequestText(verb, target, version, crlf, lines, body);
      var t := SplitTarget(target);
      && RequestLineFits(input, 0)
      && ParseSpec(input, 0) == Parsed(verb, t.path, t.query, LastContentLength(lines, 0), |input| - |body|)
  {
    var prefix := verb + " " + target + " " + version + (if crlf then "\r\n" else "\n");
    var input := RequestText(verb, target, version, crlf, lines, body);
    assert input == prefix + (HeaderBlock(lines, crlf) + body);
    ReadsRequestLine(verb, target, version, crlf, HeaderBlock(lines, crlf) + body);
    SplitsRequestLine(verb, target, version);
    assert input == prefix + HeaderBlock(lines, crlf) + body;
    ScansHeaderBlock(prefix, lines, crlf, body, 0);
  }

  /** The first line is read whole, stored with one '\n', and the cursor stops after its line end. */
  lemma ReadsRequestLine(verb: string, target: string, version: string, crlf: bool, rest: string)
    requires Word(verb) && Word(target) && Word(version)
    requires |verb| + |target| + |version| + 3 <= FIRST_LINE_ROOM
    ensures var prefix := verb + " " + target + " " + version + (if crlf then "\r\n" else "\n");
      ReadLineSpec(prefix + rest, 0, FIRST_LINE_ROOM) == Line(verb + " " + target + " " + version + "\n", |prefix|)
  {
    var line := verb + " " + target + " " + version;
    var eol := if crlf then "\r\n" else "\n";
    var input := line + eol + rest;
    RequestLineIsPlain(verb, target, version);
    assert input[0..|line|] == line;
    assert input[|line|] == eol[0];
    if crlf {
      assert input[|line| + 1] == '\n';
      CrLfEndsLine(input, 0, line, FIRST_LINE_ROOM);
    } else {
      LfEndsLine(input, 0, line, FIRST_LINE_ROOM);
    }
  }

  /** The stored first line has exactly three tokens: the method, the target, and the version with its '\n'. */
  lemma SplitsRequestLine(verb: string, target: string, version: string)
    requires Word(verb) && Word(target) && Word(version)
    ensures var text := verb + " " + target + " " + version + "\n";
      && UpToNul(text) == text
      && |Tokens(text, SP)| == 3
      && SplitRequestLine(UpToNul(text)) == Some((verb, SplitTarget(target)))
  {
    var text := verb + " " + target + " " + version + "\n";
    RequestLineIsPlain(verb, target, version);
    UntilUnique(text, NUL, text);
    RequestLineTokens(verb, target, version);
  }

  /** The request line holds no line end and no NUL. */
  lemma RequestLineIsPlain(verb: string, target: string, version: string)
    requires Word(verb) && Word(target) && Word(version)
    ensures var line := verb + " " + target + " " + version;
      NoLineEnd(line) && NUL !in line && NUL !in line + "\n"
  {
    var line := verb + " " + target + " " + version;
    forall i | 0 <= i < |line|
      ensures !IsLineEnd(line[i]) && line[i] != NUL
    {
      if i < |verb| {
        assert line[i] == verb[i];
      } else if i == |verb| || i == |verb| + 1 + |target| {
      } else if i < |verb| + 1 + |target| {
        assert line[i] == target[i - |verb| - 1];
      } else {
        assert line[i] == version[i - |verb| - |target| - 2];
      }
    }
  }

  /** The stored first line, with its '\n', splits into method, target and version with the '\n'. */
  lemma RequestLineTokens(verb: string, target: string, version: string)
    requires Word(verb) && Word(target) && Word(version)
    ensures Tokens(verb + " " + target + " " + version + "\n", SP) == [verb, target, version + "\n"]
  {
    var ts := [verb, target, version + "\n"];
    assert Join(ts, SP) == verb + " " + target + " " + version + "\n" by {
      assert Join(ts[2..], SP) == version + "\n";
      assert Join(ts[1..], SP) == target + " " + (version + "\n");
    }
    TokensOfJoin(ts, SP);
  }

  /**
   * GET for a target without '?' is served from the file system: the file
   * and 200 when FilePath maps it to an openable file, the fallback page and
   * 404 otherwise; the body (if any) is left unread.
   */
  lemma ServesStaticFile(verb: string, target: string, version: string, crlf: bool, lines: seq<string>, body: string,
                         isDir: string -> bool, files: map<string, string>, run: CgiRun)
    requires Word(verb) && Word(target) && Word(version)
    requires |verb| + |target| + |version| + 3 <= FIRST_LINE_ROOM
    requires forall k :: 0 <= k < |lines| ==> PlainLine(lines[k])
    requires EqualsIgnoreCase(verb, GET) && QUERY_MARK !in target
    ensures var input := RequestText(verb, target, version, crlf, lines, body);
      var path := FilePath(target, isDir);
      Serve(input, 0, isDir, files, run) ==
        if path in files then Outcome(200, StaticReply(files[path]), |input| - |body|)
        else Outcome(404, NotFoundPage(), |input| - |body|)
  {
    ParsesWellFormedRequest(verb, target, version, crlf, lines, body);
    WithoutMark(target);
  }

  /**
   * GET with a '?' at the end of the target has an empty query string, and
   * that is still a query: the request goes to HandlerCGI, and the fallback
   * page follows the CGI reply.
   */
  lemma EmptyQueryGoesToCgi(verb: string, path: string, version: string, crlf: bool, lines: seq<string>, body: string,
                            isDir: string -> bool, files: map<string, string>, run: CgiRun)
    requires Word(verb) && Word(path + [QUERY_MARK]) && Word(version) && QUERY_MARK !in path
    requires |verb| + |path| + 1 + |version| + 3 <= FIRST_LINE_ROOM
    requires forall k :: 0 <= k < |lines| ==> PlainLine(lines[k])
    requires EqualsIgnoreCase(verb, GET)
    ensures var input := RequestText(verb, path + [QUERY_MARK], version, crlf, lines, body);
      Serve(input, 0, isDir, files, run) == Outcome(404, CgiReply(run) + NotFoundPage(), |input| - |body|)
  {
    ParsesWellFormedRequest(verb, path + [QUERY_MARK], version, crlf, lines, body);
    TrailingMarkIsQuery(path);
  }

  /**
   * POST goes to HandlerCGI whatever its target; when the child was forked,
   * the parent reads as many body octets as the last Content-Length header
   * says, or up to the end of the stream.
   */
  lemma PostGoesToCgi(verb: string, target: string, version: string, crlf: bool, lines: seq<string>, body: string,
                      isDir: string -> bool, files: map<string, string>, run: CgiRun)
    requires Word(verb) && Word(target) && Word(version)
    requires |verb| + |target| + |version| + 3 <= FIRST_LINE_ROOM
    requires forall k :: 0 <= k < |lines| ==> PlainLine(lines[k])
    requires EqualsIgnoreCase(verb, POST)
    ensures var input := RequestText(verb, target, version, crlf, lines, body);
      var bodyStart := |input| - |body|;
      Serve(input, 0, isDir, files, run) ==
        Outcome(404, CgiReply(run) + NotFoundPage(),
                if run.Forked? then BodyEnd(|input|, bodyStart, LastContentLength(lines, 0)) else bodyStart)
  {
    ParsesWellFormedRequest(verb, target, version, crlf, lines, body);
  }
}
