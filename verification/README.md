# A verified model of the request pipeline of `http_server.c`

`HTTP/http_server.c` is a small HTTP/1.x server. It runs one thread per connection, and each thread calls `HandlerRequest` once. `HandlerRequest` does the following:

1. It reads the first line with `ReadLine` and cuts it into tokens with `Split`/`ParseFirstLine`.
2. It cuts the URL at its first `?` with `ParseQueryString`.
3. It drains the headers with `HandlerHeader`, keeping only the last `Content-Length:` value.
4. It dispatches:
   - GET without a query string goes to `HandlerStaticFile`;
   - GET with a query string, and POST, go to `HandlerCGI`;
   - anything else is a failure.
5. At the label `END` it sends the fallback page (`Handler404`) whenever the error code is not 200.
6. It closes the socket.

This project models that pipeline in Dafny and proves what it does.

**Model layout, one module per concern:**

| module | models |
|---|---|
| `CStrings` | C strings in `char` arrays, with pointers as indices |
| `Decimal` | `atoi` and `sprintf("%lu")` |
| `Sockets` | a socket as the octets the peer sent, a read cursor, the octets sent back and a close counter |
| `LineReader` | `ReadLine` |
| `RequestLine` | `strtok_r`, `Split`, `ParseFirstLine` |
| `Target` | `ParseQueryString` |
| `Headers` | `HandlerHeader` |
| `Responses` | `Handler404`, `HandlerFilePath`, `WriteStaticFile`, `HandlerStaticFile` |
| `Cgi` | `HandlerCGIFather`, `HandlerCGI`, as far as they touch the socket |
| `Dispatcher` | `HandlerRequest` |
| `RequestProperties` | properties of whole requests |

**Imperative code stays imperative.** The code that works step by step is written as methods over arrays and the `Socket` object, each proved against a specification function:
- `ReadLine` is a `recv` loop that fills a buffer.
- `Split` is a `strtok_r` loop that writes NULs into the line and pointers into a table.
- `ParseQueryString` overwrites the `?` in place.
- `HandlerHeader` is a `while(1)` read loop.
- `HandlerRequest` threads `err_code` through `goto END`, which is modelled as a labelled block and `break`.

The specification functions are:

| function | specifies |
|---|---|
| `ReadLineSpec` | what one read consumes and stores |
| `Tokens` | the maximal runs of non-delimiters |
| `SplitTarget` | the split of a URL at its first `?` |
| `ScanHeaders` | the header scan |
| `ParseSpec`, `Dispatch`, `Serve` | the whole request |

`HandlerFilePath` and the fallback page are pure string building, so they are functions.

**Stated in terms of the source:**
- **Chars stand for octets.**
  - The fallback body is written as its UTF-8 octets, so its length is `strlen(body)`, which is 130.
  - The Content-Length line is `sprintf("%lu")` of that length, and reading the page back with the server's own header scan gives 130 again.
- **The first line and the header lines are read into buffers of different capacity.**
  - The first line uses `sizeof(first_line) - 1` as `max_size`, so it holds at most `SIZE - 2` octets before the NUL.
  - Header lines use `sizeof(buf)`, so they hold at most `SIZE - 1`.
  - The stored line keeps its normalised `'\n'`, which becomes part of the last token of the request line ("HTTP/1.1\n") and of every header line.
- **`ParseQueryString` never writes its `url_path` out-parameter.** The assignment `url_path_ptr = &url` only changes the local pointer (line 148).
  - After the call, the path is what `req.url` reads as, once the `?` has been overwritten.
  - `HandlerStaticFile` uses `req->url` (line 317), and it only runs without a query string, when `req.url` is the whole path.
  - The model therefore hands the path on as what `url` reads as, and `url_path` has no counterpart.
  - The check `ParseQueryString(...) < 0` in `HandlerRequest` can never be true: the function always returns 0.
- **`HandlerCGI` returns 404 on every path (line 476), whatever `HandlerCGIFather` returned.** So after every CGI reply, and also when `fork` fails, `HandlerRequest` sends the fallback page as well. The model keeps this behaviour (`CgiReplyFollowedByFallback`).
- **A present but empty query string (`GET /x? HTTP/1.1`) is still a query**, so it goes to CGI (`EmptyQueryGoesToCgi`).
- **The model follows the code, including where a reader might expect otherwise:**
  - A line that fills the buffer without a terminator is returned as it is (truncated, with no `'\n'`), not reported as an error.
  - The stored line keeps its `'\n'`.
  - The CGI parent does not check its reads. For a POST it makes `content_length` one-octet reads, and at the end of the stream these simply read nothing.
  - A failed CGI program is followed by the fallback page, not by an empty 200 reply alone.
- **The CGI pipes are wired oddly, and nothing in the model depends on it.** The parent writes the POST body to `fd2[0]`, the read end of its pipe (line 435), and the child's standard input is `fd2[1]`.

**Parameters and abstractions:**
- The file system is a parameter:
  - `isDir` stands for `IsDir` (`stat` and `S_ISDIR`);
  - `files` maps every path `open` accepts to what `sendfile` transfers.
- The CGI child is a parameter `run`: either `fork` failed, or it forked and the parent read `output` from the child's pipe up to EOF.

## Model

| member | source | states |
|---|---|---|
| `Sockets.Socket.Recv` | HTTP/http_server.c:41 | `recv(sock, &c, 1, 0)`: returns 1 and the octet at the cursor and advances the cursor; at the end of the stream returns 0, leaves `c` and the cursor unchanged |
| `Sockets.Socket.Peek` | HTTP/http_server.c:54 | `recv(..., MSG_PEEK)`: the octet at the cursor (or 0 at the end of the stream) without moving the cursor |
| `Sockets.Socket.Send` | HTTP/http_server.c:217-220 | `send` appends all of `data` to what was sent |
| `Sockets.Socket.Close` | HTTP/http_server.c:565 | `close(new_sock)` counts one more close |
| `LineReader.ReadLine` | HTTP/http_server.c:31-90 | returns 0 exactly when `ReadLineSpec` gives a line; then `buf` holds that line followed by a NUL, the rest of `buf` is unchanged, and the cursor is just past the consumed octets. Returns -1 when the stream ends first, with every octet consumed |
| `LineReader.ReadOctet` | HTTP/http_server.c:41-79 | the reads of one loop round: the read fails exactly at the end of the stream, with every octet consumed; `"\n"`, `"\r\n"` or a bare `'\r'` are consumed and come back as one `'\n'` that ends the line right after them; any other octet is the one at the cursor, comes back as itself with the cursor one on, and the line goes on after it |
| `LineReader.LineShape` | HTTP/http_server.c:39-88 | a stored line has no `'\r'` and no `'\n'` before its end; it either ends with the single normalised `'\n'` or fills all `max_size - 1` places |
| `LineReader.FailsOnlyAtEndOfStream` | HTTP/http_server.c:41-48 | a read fails only when the stream ends before any line end and before the capacity is reached |
| `LineReader.FailsAtEndOfStream` | HTTP/http_server.c:41-48 | conversely, a stream that ends that way makes the read fail |
| `LineReader.CopiesContent` | HTTP/http_server.c:80-81 | octets other than `\r`/`\n` are stored verbatim and in order |
| `LineReader.LfEndsLine` | HTTP/http_server.c:81-86 | content ended by `"\n"` is stored as the content and one `'\n'`; exactly the `"\n"` is consumed |
| `LineReader.CrLfEndsLine` | HTTP/http_server.c:50-69 | content ended by `"\r\n"` is stored as the content and one `'\n'`; both octets are consumed |
| `LineReader.BareCrEndsLine` | HTTP/http_server.c:50-77 | content ended by a `'\r'` not followed by `'\n'` is stored as the content and one `'\n'`; only the `'\r'` is consumed, so the next octet is still unread |
| `LineReader.TruncatesAtCapacity` | HTTP/http_server.c:39-89 | with no line end within `max_size - 1` octets, the read returns 0 with exactly those octets and no `'\n'` |
| `RequestLine.TokensAreWords` | HTTP/http_server.c:110-117 | every token `Split` hands out is non-empty and holds no delimiter, so runs of spaces give no empty tokens |
| `RequestLine.TokensKeepEverythingElse` | HTTP/http_server.c:110-117 | the tokens put together are the line without its delimiters: nothing lost, nothing duplicated |
| `RequestLine.TokensOfJoin` | HTTP/http_server.c:95-119 | words joined by single delimiters split back into exactly those words |
| `RequestLine.ResumedTokens` | HTTP/http_server.c:110-116 | one `strtok_r` call returns NULL exactly when no token is left, and otherwise returns the next token of the line, with the rest of the tokens following after its cut |
| `RequestLine.SpanDelims` | HTTP/http_server.c:110-116 | the `strspn` step of `strtok_r`: the first index at or after the saved position that is not a delimiter, with only delimiters skipped before it |
| `RequestLine.SpanWord` | HTTP/http_server.c:110-116 | the `strcspn` step of `strtok_r`: the token runs from its first octet to the next delimiter or the NUL, and holds no delimiter |
| `RequestLine.StrtokR` | HTTP/http_server.c:110-116 | `strtok_r` resumed at the saved position: skips delimiters, returns the start of the next token or NULL, and overwrites only the delimiter that ends the token with NUL |
| `RequestLine.Split` | HTTP/http_server.c:95-119 | returns the number of tokens of the C string; `output[k]` points at token `k`, stored with its NUL, in order and without overlap; only delimiters were overwritten, and the entries of `output` after the last token are unchanged |
| `RequestLine.ParseFirstLine` | HTTP/http_server.c:123-140 | returns 0 exactly when the line has three tokens, and then the method and URL pointers point at tokens 0 and 1; otherwise returns -1. On either path `Split` has only replaced delimiters in the line with NUL |
| `Target.SplitTarget` | HTTP/http_server.c:145-166 | the path has no `?`; the query is absent exactly when the URL has no `?`; path + `?` + query rebuilds the URL |
| `Target.SplitRejoin` | HTTP/http_server.c:145-166 | splitting a rebuilt target gives back its path and its query, present or absent |
| `Target.WithoutMark` | HTTP/http_server.c:162-165 | a URL without `?` is all path, with the query absent (NULL) |
| `Target.TrailingMarkIsQuery` | HTTP/http_server.c:152-159 | a URL ending in `?` has a present, empty query |
| `Target.FindMark` | HTTP/http_server.c:149-153 | the scan stops at the first `?` or at the NUL |
| `Target.CutQuery` | HTTP/http_server.c:156-158 | writing NUL over the first `?` leaves the path at `url` and the query right after it |
| `Target.ParseQueryString` | HTTP/http_server.c:145-166 | returns 0; afterwards `url` reads as the path; the query pointer is NULL exactly when there was no `?`, and otherwise is the index after the `?`, which alone was overwritten with NUL |
| `Decimal.Format` | HTTP/http_server.c:215 | `%lu` writes a non-empty run of digits without a leading zero |
| `Decimal.ValueOfFormat` | HTTP/http_server.c:215 | the digits `%lu` writes denote the number written |
| `Decimal.AtoiOfFormat` | HTTP/http_server.c:188 | `atoi` reads back what `%lu` wrote, after any white space and before any non-digit |
| `Decimal.AtoiIgnoresLineEnd` | HTTP/http_server.c:188 | the `'\n'` stored at the end of a header line does not change what `atoi` reads |
| `Decimal.AtoiNegative` | HTTP/http_server.c:188 | `atoi` skips leading white space, and after a `'-'` reads the following digits as a negative number, stopping at the first non-digit |
| `Decimal.AtoiPlus` | HTTP/http_server.c:188 | after leading white space, a `'+'` is skipped and the following digits are read as they are |
| `Decimal.AtoiNoDigits` | HTTP/http_server.c:188 | text with no sign or digit after its leading white space reads as 0 |
| `Headers.ContentLengthHeader` | HTTP/http_server.c:184-188 | a line that starts with `Content-Length:` sets the content length to the `atoi` of whatever follows the name |
| `Headers.ContentLengthNameIsCaseSensitive` | HTTP/http_server.c:186 | `strncmp` compares the name case-sensitively: a line that starts with the name spelt in any other case (`content-length:`, `CONTENT-LENGTH:`, ...) leaves the content length as it was, whatever follows |
| `Headers.NegativeContentLength` | HTTP/http_server.c:184-188 | nothing rejects a negative value: `Content-Length:`, white space, `'-'` and digits set the content length to minus the value of those digits, whatever non-digit follows |
| `Headers.HandlerHeader` | HTTP/http_server.c:169-197 | returns 0 with the cursor just after the first line that reads as `"\n"`, or -1 with the stream used up when a read fails first; in both cases the content length is what `ScanHeaders` leaves |
| `Headers.LineEndIgnored` | HTTP/http_server.c:184-188 | the stored `'\n'` does not change what a header line gives the content length |
| `Headers.NoContentLengthKeepsValue` | HTTP/http_server.c:184-195 | without a `Content-Length:` line the prior value (0 after the `memset`) is kept |
| `Headers.LastContentLengthWins` | HTTP/http_server.c:184-195 | the `atoi` of the last `Content-Length:` line is the value kept |
| `Headers.ReadsPlainLine` | HTTP/http_server.c:174 | a header line without line ends or NUL is read whole with one `'\n'`, and its `"\n"` or `"\r\n"` is consumed |
| `Headers.ScanEnds` | HTTP/http_server.c:179-183 | a line that reads as `"\n"` ends the scan right after it |
| `Headers.ScanGoesOn` | HTTP/http_server.c:184-196 | any other line updates the content length and the scan continues after it |
| `Headers.ScansHeaderBlock` | HTTP/http_server.c:172-196 | a header block of plain lines ended by a blank line is scanned up to exactly the end of the blank line, leaving the content length of its last `Content-Length:` line |
| `Headers.UnterminatedHeadersFail` | HTTP/http_server.c:172-178 | header lines followed by the end of the stream, with no blank line, make the scan fail |
| `Responses.Handler404` | HTTP/http_server.c:199-222 | returns 0 after sending the status line, the Content-Length line, the blank line and the body, in that order |
| `Responses.NotFoundPageText` | HTTP/http_server.c:204-220 | the body is 130 octets and the page is exactly `"HTTP/1.1 404 Not Found\nContent-Length: 130\n\n"` followed by the body |
| `Responses.NotFoundPageDeclaresItsBody` | HTTP/http_server.c:204-220 | read back with the server's own header scan, the page declares exactly the length of its body, and the body starts right after the blank line |
| `Responses.FilePath` | HTTP/http_server.c:243-263 | the path starts with `./wwwroot` followed by the URL path, and is either exactly that or ends in `/index.html` |
| `Responses.TrailingSlashIsDirectory` | HTTP/http_server.c:250-254 | a URL path ending in `/` gets `index.html` appended, whatever `IsDir` says |
| `Responses.DirectoryGetsIndex` | HTTP/http_server.c:255-262 | otherwise `IsDir` decides: a directory gets `/index.html` appended, anything else is kept as it is |
| `Responses.WriteStaticFile` | HTTP/http_server.c:277-306 | 404 with nothing sent when the file cannot be opened; otherwise 200 after sending the status line, the blank line and the whole file |
| `Responses.HandlerStaticFile` | HTTP/http_server.c:309-321 | writes the file that `HandlerFilePath` maps the URL to, with `WriteStaticFile`'s result |
| `Cgi.ReadsReachBodyEnd` | HTTP/http_server.c:338-344 | `content_length` one-octet reads, each taking the octet at the cursor or nothing at the end of the stream, leave the cursor where `BodyEnd` says: `content_length` octets on, or at the end of the stream, and unmoved for a length of 0 or less |
| `Cgi.HandlerCGIFather` | HTTP/http_server.c:323-365 | for a POST (any case) consumes the body as `BodyEnd` says; always sends the status line, the blank line and the child's output, and returns 200 |
| `Cgi.HandlerCGI` | HTTP/http_server.c:427-477 | returns 404 on every path; sends nothing when `fork` fails, and otherwise what the parent sends |
| `CStrings.ToLower` | HTTP/http_server.c:524-537 | the case folding `strcasecmp` applies: an upper-case ASCII letter becomes its lower-case letter, 32 code points on, and every other octet is kept |
| `CStrings.EqualsIgnoreCaseLowered` | HTTP/http_server.c:524-537 | `strcasecmp` finds two strings equal exactly when their lower-cased forms are equal |
| `Dispatcher.Choose` | HTTP/http_server.c:521-549 | static exactly for GET (any case) without a query; CGI exactly for GET with a query or POST (any case); unsupported exactly for any other method |
| `Dispatcher.ParseRequest` | HTTP/http_server.c:483-520 | part 1 of `HandlerRequest` succeeds exactly when `ParseSpec` parses the request, with its method, path, query and content length, and leaves the cursor where `ParseSpec` says |
| `Dispatcher.ParseRequestLine` | HTTP/http_server.c:496-511 | `ParseFirstLine` and then `ParseQueryString` on the first line succeed exactly when it has three tokens; they give token 0 as the method and token 1 split at its first `?` |
| `Dispatcher.ReadRequestTarget` | HTTP/http_server.c:504-511 | after `ParseQueryString` cuts the URL token in place, the method token stored before it still reads the same, `url` reads as the path, and the query is what follows the first `?` (NULL without one) |
| `Dispatcher.ServeByRoute` | HTTP/http_server.c:521-549 | the dispatch sends and returns what `Dispatch` says for the route `Choose` picks |
| `Dispatcher.HandlerRequest` | HTTP/http_server.c:481-567 | what is sent and where the cursor stops are as `Serve` says, and the socket is closed exactly once |
| `RequestProperties.RouteIgnoresCase` | HTTP/http_server.c:523-537 | methods that `strcasecmp` finds equal take the same route |
| `RequestProperties.OkOnlyForServedFiles` | HTTP/http_server.c:524-528 | the final code is 200 exactly when a parsed GET without a query finds its file |
| `RequestProperties.FallbackUnlessOk` | HTTP/http_server.c:550-555 | the fallback page follows everything else exactly when the code is not 200; with 200 the reply is the file alone |
| `RequestProperties.FailedParseGetsFallbackOnly` | HTTP/http_server.c:485-520 | a request whose line, request line or headers fail is answered with the fallback page alone |
| `RequestProperties.CgiReplyFollowedByFallback` | HTTP/http_server.c:531-541 | every request routed to CGI gets code 404 and its CGI reply followed by the fallback page |
| `RequestProperties.UnsupportedMethodGetsFallbackOnly` | HTTP/http_server.c:542-549 | a method other than GET and POST gets the fallback page alone, and nothing after the headers is read |
| `RequestProperties.ReadsRequestLine` | HTTP/http_server.c:488 | a request line ended by `"\n"` or `"\r\n"` is read whole into `first_line` with one `'\n'` |
| `RequestProperties.SplitsRequestLine` | HTTP/http_server.c:497 | that stored line has exactly three tokens: the method, the target, and the version with its `'\n'` |
| `RequestProperties.ParsesWellFormedRequest` | HTTP/http_server.c:483-520 | a well-formed request parses into its method, the path and query of its target, and the content length of its last `Content-Length:` header; the cursor stops at the body, and the line fits the token table |
| `RequestProperties.ServesStaticFile` | HTTP/http_server.c:524-528 | GET of a target without `?` answers with 200 and the file `HandlerFilePath` maps it to, or with 404 and the fallback page; the body is left unread |
| `RequestProperties.EmptyQueryGoesToCgi` | HTTP/http_server.c:531-535 | GET of `path?` has an empty query, which still goes to CGI, so the CGI reply is followed by the fallback page |
| `RequestProperties.PostGoesToCgi` | HTTP/http_server.c:537-541 | POST goes to CGI; when forked, the parent reads as many body octets as the last `Content-Length:` says, or up to the end of the stream |

## Left out

- **Real sockets.** Socket I/O is a fixed input sequence with a cursor and an output sequence. End of stream is the only read failure modelled. `recv` errors, signals and partial writes are not modelled.
- **The CGI child and the pipes.** `HandlerCGIChild`, `pipe`, `fork`, `dup2`, `putenv`, `execl`, `exit` and the `close` calls on pipe ends are not part of this model, and neither is the forwarding of the POST body to the pipe. The child appears only as its effect on the parent: `fork` failed, or the parent read some output up to EOF. The `sprintf("%s", int)` at line 393 is undefined behaviour and has no counterpart. The child's program path comes from `req->url_path` (line 409), which `ParseQueryString` never writes (line 148), so that pointer is NULL and the path does not come from the URL. The model therefore leaves the child's output `run` unconstrained.
- `Cgi.HandlerCGIFather`: the octets it reads are not recorded, because they go to a pipe that is out of the model. Only the cursor movement is stated.
- **The file system.** `IsDir`, `GetFileSize`, `open`, `sendfile` and `close(fd)` are parameters. `isDir` is an arbitrary predicate, and `files` maps the paths that `open` accepts to their contents. `sendfile` is assumed to transfer the whole file.
- `Responses.FilePath`: `sprintf` into the `SIZE` buffer `file_path` is not bounded in the model. In C, `sprintf` overflows the buffer for a URL path of more than `SIZE - 10` octets. The `strcat` of `index.html` after a trailing `/` overflows it beyond `SIZE - 20` octets, and the `strcat` of `/index.html` for a directory beyond `SIZE - 21`.
- **`atoi` overflow.** `Decimal.Atoi` works on unbounded integers, so a `Content-Length` outside the range of `int` is read as its mathematical value, where C's `atoi` is undefined.
- **The token table.** `RequestLine.ParseFirstLine` requires at most 100 tokens (`char* tokens[100]`), and `Dispatcher.HandlerRequest` requires this of the first line (`RequestLineFits`). A longer line overflows the table in C. `RequestProperties.ParsesWellFormedRequest` shows that every well-formed request line meets this requirement.
- **One delimiter.** `Split` is called only with `" "` as its delimiter set, so `RequestLine.StrtokR`, `SpanDelims` and `SpanWord` take one delimiter character, not a set of them.
- **Everything around `HandlerRequest`.** `ThreadEntry`, `HttpServerStart`, `main`, threads, `signal(SIGCHLD)` and all `printf`/`perror` logging are not part of this model.
