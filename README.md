# NginxDumper HTTP front end, modelled in Dafny

NginxDumper is a small HTTP server in Ruby (`main.rb`). Each accepted
connection runs `accept_proc`. It reads one HTTP/1.0 request with
`http_request`: a request line, then header lines up to a bare CRLF, with
repeated header names merged into one entry. `handle_request` then routes
the request:

- `GET /stats` gets a fixed plain-text statistics page.
- `GET` of any other path gets an FLV header block. The process is then
  replaced, by `exec`, with an `rtmpdump` command that pulls
  `rtmp://localhost<path>` and streams it into the socket.
- Any other method was meant to get `400 Bad Request`.

A malformed request raises `BadRequest`, and `accept_proc` answers it with a
`400` response. Any other exception is only logged. In both cases the socket
is closed afterwards.

The model has seven modules:

- `Text`: character classes of Ruby's regular expressions, the two scans a
  match reduces to, `Integer#to_s` and `String#bytesize`.
- `Grammar`: the request-line and header-line expressions. It has a matcher
  for each, and lemmas for soundness and completeness.
- `Headers`: the header table and how repeated names are merged.
- `Sockets`: the connection as a class. The state it holds is the input
  lines, a read cursor, the bytes written, whether it is closed, and how
  many times `close` was called.
- `RequestParser`: `http_request`. `ParseLines` is a function that says
  what the parser does on a sequence of lines. `HttpRequest` is a method
  with the source's loop, proved to read and return exactly that. Lemmas
  relate `ParseLines` to a declarative description of which inputs carry a
  request.
- `Responses`: the bytes the two handlers write, read back with the
  server's own header grammar.
- `Server`: routing, the handlers, and `accept_proc` as methods on the
  socket. `Serve` is the function that says what a connection comes to.
  The end-to-end lemmas are stated on it.

`Shellwords.escape` and `exec` lie outside the program. Both are fields of
an `Env` parameter.

## Model

| member | source | states |
|---|---|---|
| Text.FindSpec | main.rb:82 | the scan finds the first occurrence of the character in the range: none comes before it, and it stands there unless the range is exhausted |
| Text.FindIs | main.rb:82 | a position with the character and none before it is what the scan returns |
| Text.SkipSpaceSpec | main.rb:93 | `\s*` consumes only `\s` characters and stops at the first one that is not |
| Text.SkipSpaceAtLeast | main.rb:93 | a blank stretch is consumed in full by `\s*` |
| Text.Decimal | main.rb:119 | `Integer#to_s` gives a non-empty string of decimal digits with no leading zero |
| Text.DecimalRoundTrip | main.rb:119 | reading the decimal text back gives the number written |
| Text.ByteSize | main.rb:119 | `bytesize` of UTF-8 text is between one and four bytes per character |
| Text.AsciiByteSize | main.rb:119 | for ASCII text `bytesize` equals the length |
| Grammar.ParseRequestLineSound | main.rb:82 | a matched request line is method, space, path, space, version and CRLF, with `[A-Z]+` and `\S+` fields |
| Grammar.RequestLineSound | main.rb:82-85 | cutting at the two spaces and before the CRLF reassembles the line from the three captures |
| Grammar.RequestLineComplete | main.rb:82-85 | every line of the request-line shape matches, with the same method, path and version |
| Grammar.RequestLineMatchAt | main.rb:82-85 | the matcher on a line laid out as a request line captures exactly its three fields |
| Grammar.ValueStart | main.rb:93 | where `(.+)` starts after greedy `\s*`: inside the rest of the line, leaving at least one character |
| Grammar.ValueStartSpec | main.rb:93 | `\s*` took only blanks, and it gives back one character only when the rest is all blank |
| Grammar.ParseHeaderLineSound | main.rb:93 | a matched header line reassembles from name, colon, whitespace, value and CRLF; the name has no colon, the value no line feed, and the split is greedy |
| Grammar.HeaderLineSound | main.rb:93 | the positions the matcher finds cut the line as the header grammar does |
| Grammar.HeaderLineCuts | main.rb:93 | the pieces between the cuts are a `[^:]+` name, a `\s*` run and a greedy `.+` value |
| Grammar.HeaderLineMatchAt | main.rb:93 | on a line laid out as a header line, the name is captured exactly and the value after the greedy `\s*` |
| Grammar.HeaderLineComplete | main.rb:93 | every line of the header shape matches under the name written; the value is a suffix of the one written, only blanks are dropped, and it is exact when the split is greedy |
| Grammar.CapturedValue | main.rb:93 | what `(.+)` captures is the written value less some leading blanks |
| Headers.MergeHeader | main.rb:94-98 | recording a header adds its name; a repeated name gets `", "` and the new value appended; other entries are unchanged |
| Headers.HeadersOfJoinsRepeats | main.rb:91-98 | a name is in the table exactly when some line carried it, and its entry is all its values in arrival order joined with `", "` |
| Sockets.Socket.Gets | main.rb:82 | `gets` returns the next line and advances, or `nil` at end of stream without advancing |
| Sockets.Socket.Write | main.rb:116-122 | `write` appends its bytes to what the peer receives |
| Sockets.Socket.Close | main.rb:35 | `close` leaves the socket closed and counts the call |
| Sockets.Socket.HandOver | main.rb:139 | `exec` with `out: s`: the new process writes its output to the peer, and its exit closes the socket |
| RequestParser.ParseLines | main.rb:81-105 | the parse of a line sequence reads no more lines than there are |
| RequestParser.ScanHeaders | main.rb:92-102 | the header loop from line `i` reads at least up to `i` and no further than the input |
| RequestParser.ScanLine | main.rb:92 | one turn of the loop on an available line reads that line |
| RequestParser.ScanMatch | main.rb:93-100 | the header match on an available line reads that line |
| RequestParser.HeaderBlock | main.rb:92-101 | a block of header lines yields one header per line |
| RequestParser.HeaderBlockExtend | main.rb:92-98 | one more matching line that is not the bare CRLF extends the block by its header |
| RequestParser.HeaderBlockStops | main.rb:92-101 | a block holding the bare CRLF or a non-matching line is not a header block |
| RequestParser.RejectionNamesTheLine | main.rb:82-101 | the request line is blamed exactly when it is missing or does not match; otherwise the last line read is blamed, either a non-matching line that is not the bare CRLF or `nil` at end of stream |
| RequestParser.ScanRejected | main.rb:92-101 | every rejection by the header loop names a header line, and it is the last line read |
| RequestParser.ScanSound | main.rb:92-104 | when the loop finishes, the last line read is the bare CRLF, the lines before it form a header block, and the table is built from that block |
| RequestParser.ScanLineSound | main.rb:92-104 | the same, one line at a time |
| RequestParser.ScanComplete | main.rb:92-104 | over a well-formed block the loop stops exactly at its bare CRLF, with the block's table |
| RequestParser.ParsedIsAccepted | main.rb:81-105 | a parse that succeeds returns a request the input really carries |
| RequestParser.AcceptedIsParsed | main.rb:81-105 | any request the input carries is the one returned, with the same number of lines read, so it is unique |
| RequestParser.RejectedAcceptsNothing | main.rb:82-101 | `BadRequest` is raised only when the input carries no request |
| RequestParser.EndOfStreamRejected | main.rb:92-101 | input with no bare CRLF after the request line is rejected |
| RequestParser.HeaderTextParses | main.rb:93 | a header written as `Name: value` and CRLF reads back unchanged |
| RequestParser.HeaderTextsBlock | main.rb:92-101 | a sequence of such header lines reads back as the same headers |
| RequestParser.RequestRoundTrip | main.rb:81-105 | a request written out with a bare CRLF parses back to the same method, path, version and merged table; exactly its lines are read, and what follows is left unread |
| RequestParser.FramedRequest | main.rb:81-105 | a request line, a header block and a bare CRLF parse to that request |
| RequestParser.RepeatedHeaderExample | main.rb:94-98 | `X-A: 1` then `X-A: 2` leave `X-A` holding `1, 2` |
| RequestParser.ExampleTable | main.rb:94-98 | the table for those two headers, computed directly |
| RequestParser.HttpRequest | main.rb:81-105 | `http_request` reads exactly the lines `ParseLines` consumes, and returns its request (holding the same socket) or raises `BadRequest` with its failure |
| RequestParser.ReadHeaders | main.rb:91-104 | the header loop reads exactly the lines the loop specification consumes and returns its table |
| RequestParser.ReadHeaderLine | main.rb:92-93 | one `gets` and match decide the loop as the specification's step does |
| RequestParser.Record | main.rb:94-98 | the in-place table update equals the table of all headers so far |
| RequestParser.FirstStep | main.rb:82-88 | a missing or non-matching request line is rejected after the lines read; a matching one hands over to the header loop |
| RequestParser.ScanStep | main.rb:92-101 | a bare CRLF ends the loop; a non-matching line or `nil` raises; a match continues with that header |
| RequestParser.MergeStep | main.rb:94-98 | the table of the headers with one more is that table with the header merged in |
| Responses.StatsHeaderTexts | main.rb:117-119 | the three stats header lines are those headers written as a client writes them |
| Responses.StatsHeadersReadBack | main.rb:117-119 | a client reading the stats header lines with the server's grammar gets the same three headers |
| Responses.StatsHeadersSendable | main.rb:117-119 | each stats header is one a client reads back unchanged |
| Responses.DecimalSendable | main.rb:119 | a `Content-Length` header with a decimal value reads back unchanged |
| Responses.ContentLengthIsByteSize | main.rb:119 | the table a client builds holds `Content-Length` as a decimal numeral whose value is the body's byte size |
| Responses.StatsContentLength | main.rb:107-119 | the stats body is 5 bytes, so the line is `Content-Length: 5` |
| Responses.StatsFraming | main.rb:116-122 | the stats response is the status line, three header lines, the blank line and the body, each line holding no other line feed |
| Responses.ProxyHeaderTexts | main.rb:131-132 | the two proxy header lines are those headers written as a client writes them |
| Responses.ProxyHeadersReadBack | main.rb:131-132 | a client reads the two proxy headers back unchanged |
| Responses.ProxyHeadersSendable | main.rb:131-132 | each proxy header reads back unchanged |
| Responses.ProxyTable | main.rb:130-133 | the proxy header table has exactly `Server` and `Content-Type: video/x-flv`, with no `Content-Length` |
| Responses.ProxyFraming | main.rb:130-133 | the proxy head is the status line, two header lines and the blank line |
| Responses.SourcePathRecovers | main.rb:136 | the locator is `rtmp://localhost` followed by the path, so different paths give different locators |
| Responses.OkIsNotBadRequest | main.rb:26-28 | nothing that starts with the `200` status line is the `400` response |
| Server.RouteOf | main.rb:145-155 | `GET /stats` goes to the stats page, other `GET` paths to the proxy, other methods to the unsupported branch, each if and only if |
| Server.Serve | main.rb:20-36 | a connection reads no more lines than the peer sent |
| Server.HandleStats | main.rb:112-125 | `handle_stats` writes the stats response for the `stats` body, then closes once |
| Server.HandleProxy | main.rb:128-140 | `handle_proxy` writes the header block, then the command's output through `exec`; if `exec` raises, only the header block is sent and the socket stays open |
| Server.HandleRequest | main.rb:143-156 | `handle_request` has the routed handler's effect; the socket is closed afterwards unless the handler raised |
| Server.AcceptProc | main.rb:20-36 | `accept_proc` writes, reads, closes and ends as `Serve` says, and the socket is closed on every path |
| Server.ServeRequest | main.rb:20-36 | for every request the input carries, exactly its lines are read, the routed handler's bytes are written and the connection ends as the handler did; `close` is called once more unless `exec` replaced the process |
| Server.StatsEndToEnd | main.rb:112-125 | any input carrying `GET /stats`, whatever its headers, gets exactly the stats response, has exactly the request's lines read, and `close` is called twice |
| Server.ProxyEndToEnd | main.rb:128-140 | any input carrying `GET` of another path gets the header block and then the output of the `rtmpdump` command for `rtmp://localhost` and the path; if `exec` raises, the block alone, with one close |
| Server.GetIsWellFormed | main.rb:82 | `GET` with token path and version is a well-formed request line |
| Server.UnsupportedMethodAsWritten | main.rb:153 | as written, any input carrying a request with another method gets nothing: the call raises, the generic rescue logs, and one close follows |
| Server.UnsupportedMethodCorrected | main.rb:153-154 | as intended, any input carrying a request with another method gets the `400` response, and `close` is called twice |
| Server.ClientRequestAccepted | main.rb:81-105 | a request line followed by `Name: value` header lines and a bare CRLF carries that request, with those headers merged |
| Server.ClientStatsRequest | main.rb:112-125 | `GET /stats` written out with `Name: value` headers gets exactly the stats response, with the request's lines read and two closes |
| Server.PostGetsNoResponse | main.rb:153 | `POST /live/foo HTTP/1.0` gets no bytes as written, and the `400` response when corrected |
| Server.BadRequestExactlyWhenNoRequest | main.rb:26-28 | the `400` response is written exactly when the input carries no request; it is then all that is written, with one close |
| Server.HandlerNeverSendsBadRequest | main.rb:143-156 | as written, no handler produces the `400` response |
| Server.OtherErrorsWriteNothingMore | main.rb:29-33 | the reader error happens exactly when nothing was written; after an `exec` failure only the header block was written |
| Server.CloseCalls | main.rb:20-36 | `close` is never called when `exec` replaced the process, twice after stats or the corrected `400`, and once otherwise |

## Left out

- The `run` loop (main.rb:38-79) is not modelled: `TCPServer`, `IO.select`, `fork`, reaping children with `Process.wait`, `exit!` and `Interrupt`. Each connection is modelled as one `accept_proc` call on one socket.
- Logging, `peeraddr` and `addr_format` (main.rb:22, 25, 27, 30-33, 144) are left out. They write nothing to the peer.
- `Shellwords.escape` and `exec` are parameters (`Env.escape`, `Env.exec`). The model fixes only what is handed to them and what the peer receives.
- `s.flush` (main.rb:134) is a no-op. `Socket.Write` delivers bytes at once.
- A write that fails because the peer went away is not modelled. Neither is any other I/O error from `gets`, `write` or `close`.
- The socket input is a sequence of the lines `gets` returns. How bytes are split into lines and decoded is not modelled.
- `OpenStruct` becomes the `Request` datatype. Ruby's hash insertion order is not modelled: the table is a `map`.
- `util.rb` is not part of this model.
- `Text.ByteSize` counts UTF-8 bytes per character. Invalid byte sequences are not modelled.
- `RequestParser.ParseLines`, `RequestParser.ScanHeaders`, `RequestParser.ScanLine`, `RequestParser.ScanMatch` and `RequestParser.HeaderBlock` state only bounds in their own contracts. What they mean is stated by the lemmas in the table.
- `Server.Serve` states only a bound in its own contract. What it means is stated by `Server.AcceptProc` and the end-to-end lemmas.

## Findings

| source | as written | input that shows it | evidently intended | confidence | as-written member | corrected member |
|---|---|---|---|---|---|---|
| main.rb:153 | `request.socket "HTTP/1.0 400 Bad Request\r\n\r\n"` passes the response as an argument to the `socket` reader, which takes none. The call raises, the generic rescue in `accept_proc` logs it, and nothing is written before the socket is closed. | `POST /live/foo HTTP/1.0\r\n` followed by `\r\n` | `request.socket.write "HTTP/1.0 400 Bad Request\r\n\r\n"`: the peer receives the `400` response, then the socket is closed | high; not executed | Server.UnsupportedMethodAsWritten | Server.UnsupportedMethodCorrected |
