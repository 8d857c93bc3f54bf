/**
 * HandlerHeader: reads the header lines up to the blank line and keeps the
 * value of the last "Content-Length:" header; every other header is read
 * and dropped.
 */
module Headers {
  import opened CStrings
  import opened Decimal
  import opened Sockets
  import opened LineReader

  /** SIZE, the size of every line buffer of the server. */
  const SIZE: nat := 10240
  const CONTENT_LENGTH: string := "Content-Length:"

  /** How a header scan ends: at the blank line, or with a failed read. */
  datatype HeaderScan = HeadersEnd(contentLength: int, next: nat) | HeadersFailed(contentLength: int)

  /** The value a header line gives the content length (atoi of what follows the name), or `cl` for any other line. */
  function ContentLengthAfter(line: string, cl: int): int
  {
    if StartsWith(line, CONTENT_LENGTH) then Atoi(line[|CONTENT_LENGTH|..]) else cl
  }

  /** A line that is the header name and then anything gives the atoi of what follows the name. */
  lemma ContentLengthHeader(value: string, cl: int)
    ensures ContentLengthAfter(CONTENT_LENGTH + value, cl) == Atoi(value)
  {
    assert (CONTENT_LENGTH + value)[..|CONTENT_LENGTH|] == CONTENT_LENGTH;
    assert (CONTENT_LENGTH + value)[|CONTENT_LENGTH|..] == value;
  }

  /**
   * The name is matched with strncmp, so the name spelt in any other case
   * ("content-length:", "CONTENT-LENGTH:", ...) is just another header.
   */
  lemma ContentLengthNameIsCaseSensitive(name: string, value: string, cl: int)
    requires EqualsIgnoreCase(name, CONTENT_LENGTH) && name != CONTENT_LENGTH
    ensures ContentLengthAfter(name + value, cl) == cl
  {
    assert (name + value)[..|CONTENT_LENGTH|] == name;
  }

  /** atoi keeps the sign and nothing checks it, so a negative value is taken as it is. */
  lemma NegativeContentLength(spaces: string, ds: string, rest: string, cl: int)
    requires forall i :: 0 <= i < |spaces| ==> IsSpace(spaces[i])
    requires AllDigits(ds)
    requires rest != [] ==> !IsDigit(rest[0])
    ensures ContentLengthAfter(CONTENT_LENGTH + spaces + "-" + ds + rest, cl) == -(Value(ds) as int)
  {
    assert CONTENT_LENGTH + spaces + "-" + ds + rest == CONTENT_LENGTH + (spaces + "-" + ds + rest);
    ContentLengthHeader(spaces + "-" + ds + rest, cl);
    AtoiNegative(spaces, ds, rest);
  }

  /**
   * The header scan from `pos`, with `cl` the content length so far: lines
   * are read as ReadLine reads them into a SIZE buffer, a line that reads as
   * "\n" ends the headers, and a failed read ends the scan with an error.
   */
  function ScanHeaders(input: string, pos: nat, cl: int): (s: HeaderScan)
    requires pos <= |input|
    ensures s.HeadersEnd? ==> pos < s.next <= |input|
    decreases |input| - pos
  {
    match ReadLineSpec(input, pos, SIZE - 1)
    case ReadFailed => HeadersFailed(cl)
    case Line(text, next) =>
      var line := UpToNul(text);
      if line == "\n" then HeadersEnd(cl, next)
      else ScanHeaders(input, next, ContentLengthAfter(line, cl))
  }

  /**
   * int HandlerHeader(int new_sock, int* content_length_ptr): 0 once the
   * blank line is read, -1 when a read fails; the content length is updated
   * by every "Content-Length:" line read on the way, in both cases.
   */
  method HandlerHeader(sock: Socket, contentLength: int) returns (r: int, contentLength': int)
    requires sock.Valid()
    modifies sock`cursor
    ensures sock.Valid()
    ensures match ScanHeaders(sock.incoming, old(sock.cursor), contentLength)
      case HeadersEnd(cl, next) => r == 0 && contentLength' == cl && sock.cursor == next
      case HeadersFailed(cl) => r == -1 && contentLength' == cl && sock.cursor == |sock.incoming|
  {
    var buf := new char[SIZE](_ => NUL);
    contentLength' := contentLength;
    while true
      invariant sock.Valid()
      invariant ScanHeaders(sock.incoming, old(sock.cursor), contentLength) == ScanHeaders(sock.incoming, sock.cursor, contentLength')
      decreases |sock.incoming| - sock.cursor
    {
      ghost var pos := sock.cursor;
      var n := ReadLine(sock, buf, SIZE);
      if n < 0 {
        return -1, contentLength';
      }
      ghost var text := ReadLineSpec(sock.incoming, pos, SIZE - 1).text;
      CStringOfStored(buf, text);
      var line := CString(buf, 0);
      if line == "\n" {
        return 0, contentLength';
      }
      if StartsWith(line, CONTENT_LENGTH) {
        contentLength' := Atoi(line[|CONTENT_LENGTH|..]);
      }
    }
  }

  /** The content length a list of header lines leaves, starting from `cl`. */
  function LastContentLength(lines: seq<string>, cl: int): int
  {
    if lines == [] then cl else LastContentLength(lines[1..], ContentLengthAfter(lines[0], cl))
  }

  /** Without a "Content-Length:" line the prior value is kept. */
  lemma {:induction false} NoContentLengthKeepsValue(lines: seq<string>, cl: int)
    requires forall k :: 0 <= k < |lines| ==> !StartsWith(lines[k], CONTENT_LENGTH)
    ensures LastContentLength(lines, cl) == cl
  {
    if lines != [] {
      NoContentLengthKeepsValue(lines[1..], cl);
    }
  }

  /** The last "Content-Length:" line wins. */
  lemma {:induction false} LastContentLengthWins(lines: seq<string>, cl: int, k: nat)
    requires k < |lines| && StartsWith(lines[k], CONTENT_LENGTH)
    requires forall j :: k < j < |lines| ==> !StartsWith(lines[j], CONTENT_LENGTH)
    ensures LastContentLength(lines, cl) == Atoi(lines[k][|CONTENT_LENGTH|..])
    decreases k
  {
    if k == 0 {
      NoContentLengthKeepsValue(lines[1..], ContentLengthAfter(lines[0], cl));
    } else {
      LastContentLengthWins(lines[1..], ContentLengthAfter(lines[0], cl), k - 1);
    }
  }

  /** A header line the server reads whole: non-empty, no line end, no NUL, and short enough for one read. */
  predicate PlainLine(line: string)
  {
    line != [] && NoLineEnd(line) && NUL !in line && |line| + 1 <= SIZE - 1
  }

  /** The lines, each ended by "\r\n" when `crlf` holds and by "\n" otherwise. */
  function Lines(lines: seq<string>, crlf: bool): string
  {
    if lines == [] then [] else lines[0] + (if crlf then "\r\n" else "\n") + Lines(lines[1..], crlf)
  }

  /** A header block: the lines, then the blank line. */
  function HeaderBlock(lines: seq<string>, crlf: bool): string
  {
    Lines(lines, crlf) + (if crlf then "\r\n" else "\n")
  }

  /** One plain line after `prefix` reads as the line and '\n', and the read ends after its terminator. */
  lemma ReadsPlainLine(prefix: string, line: string, crlf: bool, rest: string)
    requires PlainLine(line)
    ensures var eol := if crlf then "\r\n" else "\n";
      var input := prefix + line + eol + rest;
      ReadLineSpec(input, |prefix|, SIZE - 1) == Line(line + "\n", |prefix + line + eol|)
  {
    var eol := if crlf then "\r\n" else "\n";
    var input := prefix + line + eol + rest;
    var p := |prefix|;
    assert input[p..p + |line|] == line;
    assert input[p + |line|] == eol[0];
    if crlf {
      assert input[p + |line| + 1] == '\n';
      CrLfEndsLine(input, p, line, SIZE - 1);
    } else {
      LfEndsLine(input, p, line, SIZE - 1);
    }
  }

  /** A line that reads as "\n" ends the scan right after it. */
  lemma ScanEnds(input: string, pos: nat, next: nat, cl: int)
    requires pos <= |input| && ReadLineSpec(input, pos, SIZE - 1) == Line("\n", next)
    ensures ScanHeaders(input, pos, cl) == HeadersEnd(cl, next)
  {
    UntilUnique("\n", NUL, "\n");
  }

  /** Any other line without NUL updates the content length and the scan goes on after it. */
  lemma ScanGoesOn(input: string, pos: nat, line: string, next: nat, cl: int)
    requires pos <= |input| && ReadLineSpec(input, pos, SIZE - 1) == Line(line + "\n", next)
    requires line != [] && NoLineEnd(line) && NUL !in line
    ensures ScanHeaders(input, pos, cl) == ScanHeaders(input, next, ContentLengthAfter(line, cl))
  {
    UntilUnique(line + "\n", NUL, line + "\n");
    assert (line + "\n")[0] != '\n';
    LineEndIgnored(line, cl);
  }

  /**
   * Scanning a whole header block of plain lines ends right after its blank
   * line, with the content length the lines leave.
   */
  lemma {:induction false} ScansHeaderBlock(prefix: string, lines: seq<string>, crlf: bool, rest: string, cl: int)
    requires forall k :: 0 <= k < |lines| ==> PlainLine(lines[k])
    ensures var input := prefix + HeaderBlock(lines, crlf) + rest;
      ScanHeaders(input, |prefix|, cl) == HeadersEnd(LastContentLength(lines, cl), |input| - |rest|)
    decreases |lines|
  {
    var eol := if crlf then "\r\n" else "\n";
    var input := prefix + HeaderBlock(lines, crlf) + rest;
    if lines == [] {
      assert input == prefix + eol + rest;
      ReadsPlainLineEnd(prefix, crlf, rest);
      ScanEnds(input, |prefix|, |prefix| + |eol|, cl);
    } else {
      var prefix' := prefix + lines[0] + eol;
      var tail := HeaderBlock(lines[1..], crlf) + rest;
      HeaderBlockCons(lines, crlf);
      assert input == prefix + lines[0] + eol + tail;
      assert input == prefix' + HeaderBlock(lines[1..], crlf) + rest;
      ReadsPlainLine(prefix, lines[0], crlf, tail);
      ScanGoesOn(input, |prefix|, lines[0], |prefix'|, cl);
      ScansHeaderBlock(prefix', lines[1..], crlf, rest, ContentLengthAfter(lines[0], cl));
    }
  }

  /** A header block is its first line, the terminator, and the block of the other lines. */
  lemma HeaderBlockCons(lines: seq<string>, crlf: bool)
    requires lines != []
    ensures Lines(lines, crlf) == lines[0] + (if crlf then "\r\n" else "\n") + Lines(lines[1..], crlf)
    ensures HeaderBlock(lines, crlf) == lines[0] + (if crlf then "\r\n" else "\n") + HeaderBlock(lines[1..], crlf)
  {
  }

  /** The blank line alone reads as "\n". */
  lemma ReadsPlainLineEnd(prefix: string, crlf: bool, rest: string)
    ensures var eol := if crlf then "\r\n" else "\n";
      ReadLineSpec(prefix + eol + rest, |prefix|, SIZE - 1) == Line("\n", |prefix| + |eol|)
  {
    var eol := if crlf then "\r\n" else "\n";
    var input := prefix + eol + rest;
    assert input[|prefix|] == eol[0];
    if crlf {
      assert input[|prefix| + 1] == '\n';
    }
  }

  /** The '\n' a line is stored with does not change what it gives the content length. */
  lemma LineEndIgnored(line: string, cl: int)
    requires NoLineEnd(line)
    ensures ContentLengthAfter(line + "\n", cl) == ContentLengthAfter(line, cl)
  {
    var n := |CONTENT_LENGTH|;
    if |line| >= n {
      assert (line + "\n")[..n] == line[..n];
      assert (line + "\n")[n..] == line[n..] + ['\n'];
      AtoiIgnoresLineEnd(line[n..]);
    } else if |line| == n - 1 {
      assert (line + "\n")[n - 1] != CONTENT_LENGTH[n - 1];
    }
  }

  /** Header lines that stop before the blank line make the scan fail once the stream ends. */
  lemma {:induction false} UnterminatedHeadersFail(prefix: string, lines: seq<string>, crlf: bool, cl: int)
    requires forall k :: 0 <= k < |lines| ==> PlainLine(lines[k])
    ensures ScanHeaders(prefix + Lines(lines, crlf), |prefix|, cl) == HeadersFailed(LastContentLength(lines, cl))
    decreases |lines|
  {
    var eol := if crlf then "\r\n" else "\n";
    var input := prefix + Lines(lines, crlf);
    if lines == [] {
      assert input == prefix;
    } else {
      var prefix' := prefix + lines[0] + eol;
      var tail := Lines(lines[1..], crlf);
      HeaderBlockCons(lines, crlf);
      assert input == prefix + lines[0] + eol + tail;
      assert input == prefix' + tail;
      ReadsPlainLine(prefix, lines[0], crlf, tail);
      ScanGoesOn(input, |prefix|, lines[0], |prefix'|, cl);
      UnterminatedHeadersFail(prefix', lines[1..], crlf, ContentLengthAfter(lines[0], cl));
    }
  }
}
