/**
 * The responses the server writes itself: the fallback 404 page and the
 * static file reply, together with the mapping of a URL path onto a file
 * below ./wwwroot.
 */
module Responses {
  import opened CStrings
  import opened Decimal
  import opened Sockets
  import opened LineReader
  import opened Headers

  const NOT_FOUND_STATUS: string := "HTTP/1.1 404 Not Found\n"
  const OK_STATUS: string := "HTTP/1.1 200 OK\n"
  const BLANK_LINE: string := "\n"
  const CONTENT_LENGTH_PREFIX: string := "Content-Length: "

  /**
   * The fallback page body as octets: the meta element declares UTF-8 and the
   * heading text is stored in its UTF-8 encoding, one char per octet.
   */
  const NOT_FOUND_BODY: string :=
    "<head><meta http-equiv=\"content-type\" content=\"text/html;charset=utf-8\"></head>"
    + "<h1>"
    + "\U{e6}\U{82}\U{a8}\U{e7}\U{9a}\U{84}\U{e9}\U{a1}\U{b5}\U{e9}\U{9d}\U{a2}\U{e8}\U{a2}\U{ab}"
    + "\U{e5}\U{96}\U{b5}\U{e6}\U{98}\U{9f}\U{e4}\U{ba}\U{ba}\U{e5}\U{90}\U{83}\U{e6}\U{8e}\U{89}"
    + "\U{e4}\U{ba}\U{86}\U{ef}\U{bc}\U{81}\U{ef}\U{bc}\U{81}\U{ef}\U{bc}\U{81}"
    + "</h1>"

  /** The Content-Length header line for a body of `n` octets, as sprintf("Content-Length: %lu\n") writes it. */
  function ContentLengthLine(n: nat): string
  {
    CONTENT_LENGTH_PREFIX + Format(n) + "\n"
  }

  /** Everything Handler404 sends: status line, Content-Length, blank line, body. */
  function NotFoundPage(): string
  {
    NOT_FOUND_STATUS + ContentLengthLine(|NOT_FOUND_BODY|) + BLANK_LINE + NOT_FOUND_BODY
  }

  /** int Handler404(int new_sock): sends the fallback page in four writes and returns 0. */
  method Handler404(sock: Socket) returns (r: int)
    modifies sock`sent
    ensures r == 0 && sock.sent == old(sock.sent) + NotFoundPage()
  {
    var contentLength := ContentLengthLine(|NOT_FOUND_BODY|);
    sock.Send(NOT_FOUND_STATUS);
    sock.Send(contentLength);
    sock.Send(BLANK_LINE);
    sock.Send(NOT_FOUND_BODY);
    return 0;
  }

  /** The body is 130 octets, and the page announces exactly that. */
  lemma NotFoundPageText()
    ensures |NOT_FOUND_BODY| == 130
    ensures NotFoundPage() == "HTTP/1.1 404 Not Found\nContent-Length: 130\n\n" + NOT_FOUND_BODY
  {
    assert Format(130) == Format(13) + [Digit(0)];
    assert Format(13) == Format(1) + [Digit(3)];
  }

  /**
   * Read back with the server's own header scan, the lines after the status
   * line end at the blank line with the body's length as Content-Length, and
   * the body follows the blank line.
   */
  lemma NotFoundPageDeclaresItsBody(cl: int)
    ensures var page := NotFoundPage();
      var bodyStart := |page| - |NOT_FOUND_BODY|;
      && page[..|NOT_FOUND_STATUS|] == NOT_FOUND_STATUS
      && page[bodyStart..] == NOT_FOUND_BODY
      && ScanHeaders(page, |NOT_FOUND_STATUS|, cl) == HeadersEnd(|NOT_FOUND_BODY|, bodyStart)
  {
    var n := |NOT_FOUND_BODY|;
    var line := CONTENT_LENGTH_PREFIX + Format(n);
    NotFoundPageText();
    assert Format(n) == "130";
    assert HeaderBlock([line], false) == ContentLengthLine(n) + BLANK_LINE by {
      assert Lines([line], false) == line + "\n" + Lines([], false);
    }
    assert NotFoundPage() == NOT_FOUND_STATUS + HeaderBlock([line], false) + NOT_FOUND_BODY;
    ContentLengthLineIsPlain(n);
    ScansHeaderBlock(NOT_FOUND_STATUS, [line], false, NOT_FOUND_BODY, cl);
    ContentLengthLineReadsBack(n, cl);
  }

  /** The Content-Length line of a 130-octet body is read whole. */
  lemma ContentLengthLineIsPlain(n: nat)
    requires Format(n) == "130"
    ensures PlainLine(CONTENT_LENGTH_PREFIX + Format(n))
  {
  }

  /** The header scan reads back the number sprintf wrote into the Content-Length line. */
  lemma ContentLengthLineReadsBack(n: nat, cl: int)
    ensures LastContentLength([CONTENT_LENGTH_PREFIX + Format(n)], cl) == n
  {
    var line := CONTENT_LENGTH_PREFIX + Format(n);
    assert line[..|CONTENT_LENGTH|] == CONTENT_LENGTH;
    assert line[|CONTENT_LENGTH|..] == " " + Format(n) + [];
    AtoiOfFormat(" ", n, []);
    assert [line][1..] == [];
  }

  const WWWROOT: string := "./wwwroot"
  const INDEX_FILE: string := "index.html"

  predicate EndsWith(s: string, suffix: string)
  {
    |suffix| <= |s| && s[|s| - |suffix|..] == suffix
  }

  /**
   * void HandlerFilePath(const char* url_path, char file_path[]): the path is
   * put below ./wwwroot; a path ending in '/' gets "index.html" appended, and
   * one that `isDir` (stat and S_ISDIR) reports as a directory gets
   * "/index.html" appended. Any other path is kept as it is.
   */
  function FilePath(urlPath: string, isDir: string -> bool): (p: string)
    ensures StartsWith(p, WWWROOT + urlPath)
    ensures p == WWWROOT + urlPath || EndsWith(p, "/" + INDEX_FILE)
  {
    var base := WWWROOT + urlPath;
    if base[|base| - 1] == '/' then
      assert (base + INDEX_FILE)[|base| - 1..] == "/" + INDEX_FILE;
      base + INDEX_FILE
    else if isDir(base) then base + "/" + INDEX_FILE
    else base
  }

  /** A path ending in '/' is a directory whatever the file system says. */
  lemma TrailingSlashIsDirectory(urlPath: string, isDir: string -> bool, isDir': string -> bool)
    requires urlPath != [] && urlPath[|urlPath| - 1] == '/'
    ensures FilePath(urlPath, isDir) == FilePath(urlPath, isDir') == WWWROOT + urlPath + INDEX_FILE
  {
    assert (WWWROOT + urlPath)[|WWWROOT + urlPath| - 1] == urlPath[|urlPath| - 1];
  }

  /**
   * Otherwise the file system decides: a directory gets its index file, and
   * anything else (a plain file, or nothing at all) is mapped as it is.
   */
  lemma DirectoryGetsIndex(urlPath: string, isDir: string -> bool)
    requires urlPath == [] || urlPath[|urlPath| - 1] != '/'
    ensures isDir(WWWROOT + urlPath) ==> FilePath(urlPath, isDir) == WWWROOT + urlPath + "/" + INDEX_FILE
    ensures !isDir(WWWROOT + urlPath) ==> FilePath(urlPath, isDir) == WWWROOT + urlPath
  {
    if urlPath != [] {
      assert (WWWROOT + urlPath)[|WWWROOT + urlPath| - 1] == urlPath[|urlPath| - 1];
    }
  }

  /** The reply WriteStaticFile sends for an openable file with content `content`. */
  function StaticReply(content: string): string
  {
    OK_STATUS + BLANK_LINE + content
  }

  /**
   * int WriteStaticFile(int new_sock, const char* file_path): 404 with nothing
   * sent when the file cannot be opened; otherwise the status line, a blank
   * line and the whole file, and 200. `files` maps the openable paths to
   * their contents.
   */
  method WriteStaticFile(sock: Socket, path: string, files: map<string, string>) returns (r: int)
    modifies sock`sent
    ensures path in files ==> r == 200 && sock.sent == old(sock.sent) + StaticReply(files[path])
    ensures path !in files ==> r == 404 && sock.sent == old(sock.sent)
  {
    if path !in files {
      return 404;
    }
    sock.Send(OK_STATUS);
    sock.Send(BLANK_LINE);
    sock.Send(files[path]);
    return 200;
  }

  /** int HandlerStaticFile(int new_sock, const HttpRequest* req): the file for the URL path, written back. */
  method HandlerStaticFile(sock: Socket, url: string, isDir: string -> bool, files: map<string, string>) returns (r: int)
    modifies sock`sent
    ensures var path := FilePath(url, isDir);
      && (path in files ==> r == 200 && sock.sent == old(sock.sent) + StaticReply(files[path]))
      && (path !in files ==> r == 404 && sock.sent == old(sock.sent))
  {
    var path := FilePath(url, isDir);
    r := WriteStaticFile(sock, path, files);
  }
}
