/**
 * One connection, from the parsed request to the closed socket:
 * `handle_request` routes on method and path, `handle_stats` and
 * `handle_proxy` write their responses, and `accept_proc` turns the outcome
 * into what the peer receives and closes the socket.
 *
 * `Serve` states on the input lines what a connection comes to; the methods
 * are proved to do exactly that to the socket, and the lemmas state what it
 * means for the peer.
 *
 * `Shellwords.escape` and `exec` are outside the program; they are the two
 * functions of an `Env`. main.rb:153 calls the socket reader with an
 * argument, which raises; `Dispatch` chooses between that behaviour and the
 * evidently intended one, which writes the `400` response and closes.
 */
module Server {
  import opened Text
  import opened Grammar
  import opened Headers
  import opened Sockets
  import opened RequestParser
  import opened Responses

  datatype Route = Stats | Proxy | Unsupported

  /** `handle_request`'s case split on method and path. */
  function RouteOf(meth: string, path: string): (r: Route)
    ensures r == Stats <==> meth == "GET" && path == "/stats"
    ensures r == Proxy <==> meth == "GET" && path != "/stats"
    ensures r == Unsupported <==> meth != "GET"
  {
    if meth == "GET" then (if path == "/stats" then Stats else Proxy) else Unsupported
  }

  /** What `exec` does with a command: it is replaced by a process that writes `stdout`, or it raises. */
  datatype ExecResult = Replaced(stdout: string) | SpawnFailed

  datatype Env = Env(escape: string -> string, exec: string -> ExecResult)

  /** The branch for other methods as main.rb:153-154 are written, or as evidently intended. */
  datatype Dispatch = AsWritten | Corrected

  /** An exception that `accept_proc`'s generic rescue catches. */
  datatype Fault = ReaderCalledWithArgument | ExecFailed

  /** How a handler returned: normally, by `exec` replacing the process, or by raising. */
  datatype Handled = Finished | Execed(command: string) | Raised(fault: Fault)

  /** What a handler does to its socket: bytes written, `close` calls, how it returned. */
  datatype Effect = Effect(written: string, closes: nat, handled: Handled)

  /** The effect of handling a request for `meth` and `path`. */
  function HandleEffect(meth: string, path: string, env: Env, dispatch: Dispatch): Effect {
    match RouteOf(meth, path)
    case Stats => Effect(StatsResponse(STATS_BODY), 1, Finished)
    case Proxy =>
      var command := Command(env.escape, path);
      (match env.exec(command)
       case Replaced(out) => Effect(PROXY_HEAD + out, 0, Execed(command))
       case SpawnFailed => Effect(PROXY_HEAD, 0, Raised(ExecFailed)))
    case Unsupported =>
      if dispatch == AsWritten then Effect([], 0, Raised(ReaderCalledWithArgument))
      else Effect(BAD_REQUEST_RESPONSE, 1, Finished)
  }

  /** How a connection ended. */
  datatype Outcome =
    | Served(route: Route)
    | Streaming(command: string)
    | BadRequestSent(failure: Failure)
    | Failed(fault: Fault)

  /** What a connection does: bytes written, lines read, `close` calls, outcome. */
  datatype Transcript = Transcript(written: string, consumed: nat, closes: nat, outcome: Outcome)

  /** What a connection whose peer sends `lines` comes to. */
  function Serve(lines: seq<string>, env: Env, dispatch: Dispatch): (t: Transcript)
    ensures t.consumed <= |lines|
  {
    match ParseLines(lines)
    case Rejected(f, n) => Transcript(BAD_REQUEST_RESPONSE, n, 1, BadRequestSent(f))
    case Parsed(h, n) =>
      var e := HandleEffect(h.meth, h.path, env, dispatch);
      match e.handled
      case Finished => Transcript(e.written, n, e.closes + 1, Served(RouteOf(h.meth, h.path)))
      case Execed(command) => Transcript(e.written, n, e.closes, Streaming(command))
      case Raised(fault) => Transcript(e.written, n, e.closes + 1, Failed(fault))
  }

  /** `handle_stats`: the status line, three headers, the blank line and the body; then `close`. */
  method HandleStats(request: Request)
    requires !request.socket.closed
    modifies request.socket`output, request.socket`closed, request.socket`closeCalls
    ensures request.socket.output == old(request.socket.output) + StatsResponse(STATS_BODY)
    ensures request.socket.closed && request.socket.closeCalls == old(request.socket.closeCalls) + 1
  {
    var s := request.socket;
    var body := STATS_BODY;
    s.Write(STATUS_OK);
    s.Write(SERVER_LINE);
    s.Write(STATS_TYPE_LINE);
    s.Write(ContentLengthLine(body));
    s.Write(CRLF);
    s.Write(body);
    AppendSix(old(s.output), STATUS_OK, SERVER_LINE, STATS_TYPE_LINE, ContentLengthLine(body), CRLF, body);
    s.Close();
  }

  /**
   * `handle_proxy`: the header block, then `exec` of the `rtmpdump` command
   * with the socket as its standard output. When `exec` raises, the header
   * block has already been sent.
   */
  method HandleProxy(request: Request, env: Env) returns (handled: Handled)
    requires !request.socket.closed
    modifies request.socket`output, request.socket`closed
    ensures var command := Command(env.escape, request.path);
      match env.exec(command)
      case Replaced(out) =>
        && handled == Execed(command)
        && request.socket.output == old(request.socket.output) + PROXY_HEAD + out
        && request.socket.closed
      case SpawnFailed =>
        && handled == Raised(ExecFailed)
        && request.socket.output == old(request.socket.output) + PROXY_HEAD
        && !request.socket.closed
  {
    var s := request.socket;
    s.Write(STATUS_OK);
    s.Write(SERVER_LINE);
    s.Write(FLV_TYPE_LINE);
    s.Write(CRLF);
    AppendFour(old(s.output), STATUS_OK, SERVER_LINE, FLV_TYPE_LINE, CRLF);
    var command := Command(env.escape, request.path);
    match env.exec(command)
    case Replaced(out) =>
      s.HandOver(out);
      handled := Execed(command);
    case SpawnFailed =>
      handled := Raised(ExecFailed);
  }

  /**
   * `handle_request`: routes the request and reports how the handler
   * returned. The socket is closed afterwards unless the handler raised.
   */
  method HandleRequest(request: Request, env: Env, dispatch: Dispatch) returns (handled: Handled)
    requires !request.socket.closed
    modifies request.socket`output, request.socket`closed, request.socket`closeCalls
    ensures var e := HandleEffect(request.meth, request.path, env, dispatch);
      && handled == e.handled
      && request.socket.output == old(request.socket.output) + e.written
      && request.socket.closeCalls == old(request.socket.closeCalls) + e.closes
      && request.socket.closed == !e.handled.Raised?
  {
    if request.meth == "GET" {
      if request.path == "/stats" {
        HandleStats(request);
        handled := Finished;
      } else {
        handled := HandleProxy(request, env);
      }
    } else if dispatch == AsWritten {
      handled := Raised(ReaderCalledWithArgument);
    } else {
      request.socket.Write(BAD_REQUEST_RESPONSE);
      request.socket.Close();
      handled := Finished;
    }
  }

  /**
   * `accept_proc`: parses the request and handles it; on `BadRequest`
   * writes the `400` response; any other exception is only logged; then
   * closes the socket, unless `exec` replaced the process, whose exit closes
   * it. The socket ends up closed on every path.
   */
  method AcceptProc(s: Socket, env: Env, dispatch: Dispatch) returns (outcome: Outcome)
    requires s.Valid() && !s.closed
    modifies s
    ensures var t := Serve(old(s.Unread()), env, dispatch);
      && s.output == old(s.output) + t.written
      && s.cursor == old(s.cursor) + t.consumed
      && s.closeCalls == old(s.closeCalls) + t.closes
      && outcome == t.outcome
    ensures s.closed
  {
    var request := HttpRequest(s);
    match request
    case BadRequest(failure) =>
      s.Write(BAD_REQUEST_RESPONSE);
      s.Close();
      outcome := BadRequestSent(failure);
    case Ok(r) =>
      var handled := HandleRequest(r, env, dispatch);
      match handled
      case Finished =>
        s.Close();
        outcome := Served(RouteOf(r.meth, r.path));
      case Execed(command) =>
        outcome := Streaming(command);
      case Raised(fault) =>
        s.Close();
        outcome := Failed(fault);
  }

  /** The lines a client sends for a request with the given fields and headers, then `rest`. */
  function RequestText(meth: string, path: string, version: string, hs: seq<Header>, rest: seq<string>): seq<string> {
    [RequestLineText(RequestLine(meth, path, version))] + HeaderTexts(hs) + [CRLF] + rest
  }

  /**
   * What `Serve` does with any request the input carries: exactly its lines
   * are read, the handler's bytes are written, and `accept_proc` calls
   * `close` once more unless `exec` replaced the process.
   */
  lemma ServeRequest(lines: seq<string>, head: Head, n: nat, env: Env, dispatch: Dispatch)
    requires Accepts(lines, head, n)
    ensures var t := Serve(lines, env, dispatch);
      var e := HandleEffect(head.meth, head.path, env, dispatch);
      && t.consumed == n
      && t.written == e.written
      && t.closes == e.closes + (if e.handled.Execed? then 0 else 1)
      && t.outcome == match e.handled
                      case Finished => Served(RouteOf(head.meth, head.path))
                      case Execed(command) => Streaming(command)
                      case Raised(fault) => Failed(fault)
  {
    AcceptedIsParsed(lines, head, n);
  }

  /**
   * `GET /stats`: the peer receives exactly the stats response, the request
   * and its headers are consumed and nothing after them, and `close` is
   * called twice, by `handle_stats` and by `accept_proc`.
   */
  lemma StatsEndToEnd(lines: seq<string>, head: Head, n: nat, env: Env, dispatch: Dispatch)
    requires Accepts(lines, head, n) && head.meth == "GET" && head.path == "/stats"
    ensures Serve(lines, env, dispatch) == Transcript(StatsResponse(STATS_BODY), n, 2, Served(Stats))
  {
    AcceptedIsParsed(lines, head, n);
  }

  /**
   * `GET` of any other path: the peer receives the proxy header block, then
   * whatever the `rtmpdump` command for `rtmp://localhost` and the path
   * writes; if `exec` raises, the header block is all it receives and the
   * socket is closed once.
   */
  lemma ProxyEndToEnd(lines: seq<string>, head: Head, n: nat, env: Env, dispatch: Dispatch)
    requires Accepts(lines, head, n) && head.meth == "GET" && head.path != "/stats"
    ensures var t := Serve(lines, env, dispatch);
      var command := "rtmpdump --live --timeout=20 --quiet -r " + env.escape("rtmp://localhost" + head.path) + " -o -";
      match env.exec(command)
      case Replaced(out) => t == Transcript(PROXY_HEAD + out, n, 0, Streaming(command))
      case SpawnFailed => t == Transcript(PROXY_HEAD, n, 1, Failed(ExecFailed))
  {
    AcceptedIsParsed(lines, head, n);
  }

  /**
   * Any method but `GET`, as main.rb:153 is written: reading the socket
   * with an argument raises, the generic rescue only logs, and `accept_proc`
   * closes the socket. The peer receives nothing, not the `400` response.
   */
  lemma UnsupportedMethodAsWritten(lines: seq<string>, head: Head, n: nat, env: Env)
    requires Accepts(lines, head, n) && head.meth != "GET"
    ensures Serve(lines, env, AsWritten) == Transcript([], n, 1, Failed(ReaderCalledWithArgument))
  {
    AcceptedIsParsed(lines, head, n);
  }

  /**
   * Any method but `GET`, as evidently intended: the peer receives the
   * `400` response, and `close` is called twice.
   */
  lemma UnsupportedMethodCorrected(lines: seq<string>, head: Head, n: nat, env: Env)
    requires Accepts(lines, head, n) && head.meth != "GET"
    ensures Serve(lines, env, Corrected) == Transcript(BAD_REQUEST_RESPONSE, n, 2, Served(Unsupported))
  {
    AcceptedIsParsed(lines, head, n);
  }

  /** A request a client writes out with `Name: value` headers is one the input carries. */
  lemma ClientRequestAccepted(meth: string, path: string, version: string, hs: seq<Header>, rest: seq<string>)
    requires WellFormed(RequestLine(meth, path, version))
    requires forall k :: 0 <= k < |hs| ==> Sendable(hs[k])
    ensures Accepts(RequestText(meth, path, version, hs, rest), Head(meth, path, version, HeadersOf(hs)), |hs| + 2)
  {
    RequestRoundTrip(RequestLine(meth, path, version), hs, rest);
    ParsedIsAccepted(RequestText(meth, path, version, hs, rest));
  }

  /** `GET /stats` written out by a client with `Name: value` headers gets the stats response. */
  lemma ClientStatsRequest(version: string, hs: seq<Header>, rest: seq<string>, env: Env, dispatch: Dispatch)
    requires IsToken(version)
    requires forall k :: 0 <= k < |hs| ==> Sendable(hs[k])
    ensures Serve(RequestText("GET", "/stats", version, hs, rest), env, dispatch)
         == Transcript(StatsResponse(STATS_BODY), |hs| + 2, 2, Served(Stats))
  {
    GetIsWellFormed("/stats", version);
    ClientRequestAccepted("GET", "/stats", version, hs, rest);
    StatsEndToEnd(RequestText("GET", "/stats", version, hs, rest),
                  Head("GET", "/stats", version, HeadersOf(hs)), |hs| + 2, env, dispatch);
  }

  lemma GetIsWellFormed(path: string, version: string)
    requires IsToken(path) && IsToken(version)
    ensures WellFormed(RequestLine("GET", path, version))
  {
    assert IsUpper("GET"[0]) && IsUpper("GET"[1]) && IsUpper("GET"[2]);
  }

  /** `POST /live/foo HTTP/1.0` with no headers gets no response at all. */
  lemma PostGetsNoResponse(env: Env)
    ensures Serve(["POST /live/foo HTTP/1.0\r\n", "\r\n"], env, AsWritten).written == []
    ensures Serve(["POST /live/foo HTTP/1.0\r\n", "\r\n"], env, Corrected).written == BAD_REQUEST_RESPONSE
  {
    PostText();
    ClientRequestAccepted("POST", "/live/foo", "HTTP/1.0", [], []);
    var head := Head("POST", "/live/foo", "HTTP/1.0", HeadersOf([]));
    UnsupportedMethodAsWritten(["POST /live/foo HTTP/1.0\r\n", "\r\n"], head, 2, env);
    UnsupportedMethodCorrected(["POST /live/foo HTTP/1.0\r\n", "\r\n"], head, 2, env);
  }

  lemma PostText()
    ensures WellFormed(RequestLine("POST", "/live/foo", "HTTP/1.0"))
    ensures RequestText("POST", "/live/foo", "HTTP/1.0", [], []) == ["POST /live/foo HTTP/1.0\r\n", "\r\n"]
  {
    PostLine();
    assert HeaderTexts([]) == [];
  }

  lemma PostLine()
    ensures WellFormed(RequestLine("POST", "/live/foo", "HTTP/1.0"))
    ensures RequestLineText(RequestLine("POST", "/live/foo", "HTTP/1.0")) == "POST /live/foo HTTP/1.0\r\n"
  {
    assert forall k :: 0 <= k < 4 ==> IsUpper("POST"[k]);
  }

  /**
   * The `400` response is written exactly when the input carries no
   * request; then it is all that is written, and the socket is closed once.
   */
  lemma BadRequestExactlyWhenNoRequest(lines: seq<string>, env: Env)
    ensures var t := Serve(lines, env, AsWritten);
      && (t.written == BAD_REQUEST_RESPONSE <==> forall head, n :: !Accepts(lines, head, n))
      && (t.written == BAD_REQUEST_RESPONSE ==> t.closes == 1 && t.outcome.BadRequestSent?)
  {
    match ParseLines(lines)
    case Rejected(_, _) =>
      forall head, n ensures !Accepts(lines, head, n) {
        RejectedAcceptsNothing(lines, head, n);
      }
    case Parsed(h, n) =>
      ParsedIsAccepted(lines);
      HandlerNeverSendsBadRequest(h.meth, h.path, env);
  }

  /** As written, no handler sends the `400` response: the ones that write begin with `200`. */
  lemma HandlerNeverSendsBadRequest(meth: string, path: string, env: Env)
    ensures HandleEffect(meth, path, env, AsWritten).written != BAD_REQUEST_RESPONSE
  {
    var e := HandleEffect(meth, path, env, AsWritten);
    if RouteOf(meth, path) != Unsupported {
      var rest := e.written[|STATUS_OK|..];
      assert e.written == STATUS_OK + rest;
      OkIsNotBadRequest(rest);
    }
  }

  /**
   * Any other exception writes nothing more: after the reader raised, the
   * peer has received nothing; after `exec` raised, only the header block.
   */
  lemma OtherErrorsWriteNothingMore(lines: seq<string>, env: Env)
    ensures var t := Serve(lines, env, AsWritten);
      && (t.outcome == Failed(ReaderCalledWithArgument) <==> t.written == [])
      && (t.outcome == Failed(ExecFailed) ==> t.written == PROXY_HEAD)
  {
    var t := Serve(lines, env, AsWritten);
    if ParseLines(lines).Parsed? {
      var h := ParseLines(lines).head;
      if RouteOf(h.meth, h.path) == Stats {
        assert |StatsResponse(STATS_BODY)| > 0;
      } else if RouteOf(h.meth, h.path) == Proxy {
        assert |PROXY_HEAD| > 0;
      }
    }
  }

  /**
   * `close` is called once on every path but two: twice when a handler
   * closed the socket itself and returned (the stats response, and the
   * corrected `400`), and never when `exec` replaced the process, whose exit
   * closes the socket.
   */
  lemma CloseCalls(lines: seq<string>, env: Env, dispatch: Dispatch)
    ensures var t := Serve(lines, env, dispatch);
      && (t.closes == 0 <==> t.outcome.Streaming?)
      && (t.closes == 2 <==> t.outcome == Served(Stats) || t.outcome == Served(Unsupported))
      && t.closes <= 2
  {
  }
}
