/**
 * `http_request`: reads one request line and then header lines up to a bare
 * CRLF, and either returns the request or raises `BadRequest`. No body is
 * read. `ParseLines` states on a sequence of lines what the method does on
 * the socket; `Accepts` states declaratively which inputs form a request,
 * and the lemmas tie the two together.
 */
module RequestParser {
  import opened Text
  import opened Grammar
  import opened Headers
  import opened Sockets

  /** Why `BadRequest` was raised, with the offending line (`None` for `nil`). */
  datatype Failure =
    | InvalidRequestLine(line: Option<string>)
    | InvalidHeaderLine(line: Option<string>)

  datatype Head = Head(meth: string, path: string, version: string, headers: map<string, string>)

  /** The parse of a line sequence, with the number of lines `gets` handed out. */
  datatype Parse =
    | Parsed(head: Head, consumed: nat)
    | Rejected(failure: Failure, consumed: nat)

  /** The record `http_request` returns; it refers to the socket it was read from. */
  datatype Request = Request(meth: string, path: string, version: string,
                             headers: map<string, string>, socket: Socket)

  datatype ParseOutcome = Ok(request: Request) | BadRequest(failure: Failure)

  /** The request carried by the first lines of `lines`, or why there is none. */
  function ParseLines(lines: seq<string>): (r: Parse)
    ensures r.consumed <= |lines|
  {
    if lines == [] then Rejected(InvalidRequestLine(None), 0)
    else match ParseRequestLine(lines[0])
      case None => Rejected(InvalidRequestLine(Some(lines[0])), 1)
      case Some(rl) => ScanHeaders(lines, 1, rl, [])
  }

  /**
   * The header loop from line `i` on, `hs` being the header lines already
   * read. A rejection names the line that failed, or `None` at end of stream.
   */
  function ScanHeaders(lines: seq<string>, i: nat, rl: RequestLine, hs: seq<Header>): (r: Parse)
    requires 1 <= i <= |lines|
    ensures i <= r.consumed <= |lines|
    decreases |lines| - i, 2
  {
    if i == |lines| then Rejected(InvalidHeaderLine(None), i)
    else ScanLine(lines, i, rl, hs)
  }

  /** One turn of the header loop, on the line `gets` returned. */
  function ScanLine(lines: seq<string>, i: nat, rl: RequestLine, hs: seq<Header>): (r: Parse)
    requires 1 <= i < |lines|
    ensures i < r.consumed <= |lines|
    decreases |lines| - i, 1
  {
    if lines[i] == CRLF then Parsed(Head(rl.meth, rl.path, rl.version, HeadersOf(hs)), i + 1)
    else ScanMatch(lines, i, rl, hs)
  }

  /** The match of a line that is not the bare CRLF. */
  function ScanMatch(lines: seq<string>, i: nat, rl: RequestLine, hs: seq<Header>): (r: Parse)
    requires 1 <= i < |lines|
    ensures i < r.consumed <= |lines|
    decreases |lines| - i, 0
  {
    match ParseHeaderLine(lines[i])
    case None => Rejected(InvalidHeaderLine(Some(lines[i])), i + 1)
    case Some(h) => ScanHeaders(lines, i + 1, rl, hs + [h])
  }

  /**
   * The headers of `block` when every line of it is a header line and none
   * is the bare CRLF; `None` otherwise.
   */
  function HeaderBlock(block: seq<string>): (r: Option<seq<Header>>)
    ensures r.Some? ==> |r.value| == |block|
  {
    if block == [] then Some([])
    else
      var last := block[|block| - 1];
      match HeaderBlock(block[..|block| - 1])
      case None => None
      case Some(hs) =>
        if last != CRLF && ParseHeaderLine(last).Some? then Some(hs + [ParseHeaderLine(last).value])
        else None
  }

  /**
   * The first `n` lines form a request with head `head`: a request line,
   * header lines, and the bare CRLF as line `n - 1`.
   */
  ghost predicate Accepts(lines: seq<string>, head: Head, n: nat) {
    && 2 <= n <= |lines|
    && ParseRequestLine(lines[0]) == Some(RequestLine(head.meth, head.path, head.version))
    && lines[n - 1] == CRLF
    && HeaderBlock(lines[1..n - 1]).Some?
    && head.headers == HeadersOf(HeaderBlock(lines[1..n - 1]).value)
  }

  /** One more header line extends the block and its headers. */
  lemma HeaderBlockExtend(lines: seq<string>, i: nat, hs: seq<Header>, h: Header)
    requires 1 <= i < |lines| && HeaderBlock(lines[1..i]) == Some(hs)
    requires lines[i] != CRLF && ParseHeaderLine(lines[i]) == Some(h)
    ensures HeaderBlock(lines[1..i + 1]) == Some(hs + [h])
  {
    var block := lines[1..i + 1];
    assert block[..|block| - 1] == lines[1..i];
    assert block[|block| - 1] == lines[i];
  }

  /** A block with a line that is not a header line, or is the bare CRLF, has no headers. */
  lemma {:induction false} HeaderBlockStops(lines: seq<string>, i: nat, n: nat)
    requires 1 <= i < n <= |lines|
    requires lines[i] == CRLF || ParseHeaderLine(lines[i]).None?
    ensures HeaderBlock(lines[1..n]).None?
    decreases n - i
  {
    var block := lines[1..n];
    assert block[..|block| - 1] == lines[1..n - 1];
    assert block[|block| - 1] == lines[n - 1];
    if i < n - 1 {
      HeaderBlockStops(lines, i, n - 1);
    }
  }

  /**
   * The request line is blamed exactly when there is none or it does not
   * match; a header line is blamed otherwise, and it is the last line read:
   * one that is not the bare CRLF and does not match, or `nil` at the end
   * of the stream.
   */
  lemma RejectionNamesTheLine(lines: seq<string>)
    ensures var r := ParseLines(lines);
      && (r.Rejected? && r.failure.InvalidRequestLine? <==> lines == [] || ParseRequestLine(lines[0]).None?)
      && (r.Rejected? && r.failure.InvalidRequestLine? ==> r.failure.line == if lines == [] then None else Some(lines[0]))
      && (r.Rejected? && r.failure.InvalidHeaderLine? ==> HeaderLineBlamed(lines, r.failure.line, r.consumed))
  {
    if lines != [] && ParseRequestLine(lines[0]).Some? {
      ScanRejected(lines, 1, ParseRequestLine(lines[0]).value, []);
    }
  }

  /** `BadRequest` for the header line `line`, raised after reading `consumed` lines. */
  predicate HeaderLineBlamed(lines: seq<string>, line: Option<string>, consumed: nat) {
    && 1 <= consumed <= |lines|
    && match line
       case None => consumed == |lines|
       case Some(l) => l == lines[consumed - 1] && l != CRLF && ParseHeaderLine(l).None?
  }

  /** Every rejection by the header loop blames a header line. */
  lemma {:induction false} ScanRejected(lines: seq<string>, i: nat, rl: RequestLine, hs: seq<Header>)
    requires 1 <= i <= |lines|
    ensures var r := ScanHeaders(lines, i, rl, hs);
      r.Rejected? ==> r.failure.InvalidHeaderLine? && HeaderLineBlamed(lines, r.failure.line, r.consumed)
    decreases |lines| - i
  {
    if i < |lines| {
      ScanAt(lines, i, rl, hs);
    }
    if i < |lines| && lines[i] != CRLF {
      var h := ParseHeaderLine(lines[i]);
      if h.Some? {
        ScanRejected(lines, i + 1, rl, hs + [h.value]);
      }
    }
  }

  /** A parse `r` of the header loop begun at line `i` ends on a bare CRLF closing a well-formed block. */
  ghost predicate ClosesBlock(lines: seq<string>, i: nat, rl: RequestLine, r: Parse) {
    r.Parsed? ==>
      && 1 <= i < r.consumed <= |lines|
      && lines[r.consumed - 1] == CRLF
      && HeaderBlock(lines[1..r.consumed - 1]).Some?
      && r.head == Head(rl.meth, rl.path, rl.version, HeadersOf(HeaderBlock(lines[1..r.consumed - 1]).value))
  }

  /** A bare CRLF that the header loop reaches closes a well-formed block. */
  lemma {:induction false} ScanSound(lines: seq<string>, i: nat, rl: RequestLine, hs: seq<Header>)
    requires 1 <= i <= |lines| && HeaderBlock(lines[1..i]) == Some(hs)
    ensures ClosesBlock(lines, i, rl, ScanHeaders(lines, i, rl, hs))
    decreases |lines| - i, 1
  {
    if i < |lines| {
      ScanLineSound(lines, i, rl, hs);
    }
  }

  /** The same, one line at a time. */
  lemma {:induction false} ScanLineSound(lines: seq<string>, i: nat, rl: RequestLine, hs: seq<Header>)
    requires 1 <= i < |lines| && HeaderBlock(lines[1..i]) == Some(hs)
    ensures ClosesBlock(lines, i, rl, ScanLine(lines, i, rl, hs))
    decreases |lines| - i, 0
  {
    var r := ScanLine(lines, i, rl, hs);
    ScanAt(lines, i, rl, hs);
    if lines[i] == CRLF {
      assert r == Parsed(Head(rl.meth, rl.path, rl.version, HeadersOf(hs)), i + 1);
      assert lines[1..r.consumed - 1] == lines[1..i];
    } else {
      var h := ParseHeaderLine(lines[i]);
      if h.Some? {
        assert r == ScanHeaders(lines, i + 1, rl, hs + [h.value]);
        HeaderBlockExtend(lines, i, hs, h.value);
        ScanSound(lines, i + 1, rl, hs + [h.value]);
        ClosesBlockEarlier(lines, i, rl, r);
      }
    }
  }

  /** Closing a block is a fact about the parse that starting earlier keeps. */
  lemma ClosesBlockEarlier(lines: seq<string>, i: nat, rl: RequestLine, r: Parse)
    requires 1 <= i && ClosesBlock(lines, i + 1, rl, r)
    ensures ClosesBlock(lines, i, rl, r)
  {
  }

  /** Over a well-formed block, the header loop stops at its bare CRLF. */
  lemma {:induction false} ScanComplete(lines: seq<string>, i: nat, rl: RequestLine, hs: seq<Header>, n: nat)
    requires 1 <= i < n <= |lines| && lines[n - 1] == CRLF && HeaderBlock(lines[1..n - 1]).Some?
    requires HeaderBlock(lines[1..i]) == Some(hs)
    ensures ScanHeaders(lines, i, rl, hs)
         == Parsed(Head(rl.meth, rl.path, rl.version, HeadersOf(HeaderBlock(lines[1..n - 1]).value)), n)
    decreases n - i
  {
    ScanAt(lines, i, rl, hs);
    if i < n - 1 {
      if lines[i] == CRLF || ParseHeaderLine(lines[i]).None? {
        HeaderBlockStops(lines, i, n - 1);
      }
      var h := ParseHeaderLine(lines[i]).value;
      HeaderBlockExtend(lines, i, hs, h);
      ScanComplete(lines, i + 1, rl, hs + [h], n);
    }
  }

  /** What the parser returns is a request the input really carries. */
  lemma ParsedIsAccepted(lines: seq<string>)
    ensures ParseLines(lines).Parsed? ==>
              Accepts(lines, ParseLines(lines).head, ParseLines(lines).consumed)
  {
    if lines != [] && ParseRequestLine(lines[0]).Some? {
      assert lines[1..1] == [];
      assert HeaderBlock([]) == Some([]);
      ScanSound(lines, 1, ParseRequestLine(lines[0]).value, []);
    }
  }

  /** A request the input carries is returned, and it is the only one. */
  lemma AcceptedIsParsed(lines: seq<string>, head: Head, n: nat)
    requires Accepts(lines, head, n)
    ensures ParseLines(lines) == Parsed(head, n)
  {
    var rl := RequestLine(head.meth, head.path, head.version);
    assert lines[1..1] == [];
    ScanComplete(lines, 1, rl, [], n);
  }

  /** A rejection leaves no request behind: the input carries none. */
  lemma RejectedAcceptsNothing(lines: seq<string>, head: Head, n: nat)
    requires ParseLines(lines).Rejected?
    ensures !Accepts(lines, head, n)
  {
    if Accepts(lines, head, n) {
      AcceptedIsParsed(lines, head, n);
    }
  }

  /** Input that ends before a bare CRLF follows the request line is rejected. */
  lemma EndOfStreamRejected(lines: seq<string>)
    requires forall k :: 1 <= k < |lines| ==> lines[k] != CRLF
    ensures ParseLines(lines).Rejected?
  {
    ParsedIsAccepted(lines);
  }

  /** A header line as a client writes it: `Name: value` and CRLF. */
  function HeaderText(h: Header): string {
    HeaderLineText(h.name, " ", h.value)
  }

  function HeaderTexts(hs: seq<Header>): (lines: seq<string>)
    ensures |lines| == |hs|
  {
    if hs == [] then [] else HeaderTexts(hs[..|hs| - 1]) + [HeaderText(hs[|hs| - 1])]
  }

  /** A header a client can send so that it is read back unchanged. */
  predicate Sendable(h: Header) {
    IsHeaderName(h.name) && IsHeaderValue(h.value) && Greedy(h.value)
  }

  /** A sendable header, written as a client writes it, reads back unchanged. */
  lemma HeaderTextParses(h: Header)
    requires Sendable(h)
    ensures HeaderText(h) != CRLF && ParseHeaderLine(HeaderText(h)) == Some(h)
  {
    assert AllSpace(" ");
    HeaderLineComplete(h.name, " ", h.value);
    var text := HeaderText(h);
    assert text[|h.name|] == ':';
  }

  lemma {:induction false} HeaderTextsBlock(hs: seq<Header>)
    requires forall k :: 0 <= k < |hs| ==> Sendable(hs[k])
    ensures HeaderBlock(HeaderTexts(hs)) == Some(hs)
  {
    if hs != [] {
      var init, last := hs[..|hs| - 1], hs[|hs| - 1];
      HeaderTextsBlock(init);
      HeaderTextParses(last);
      var block := HeaderTexts(hs);
      assert block[..|block| - 1] == HeaderTexts(init);
      assert hs == init + [last];
    }
  }

  /**
   * Round trip: a request written out line by line and ended by a bare CRLF
   * parses back to the same method, path, version and header table, and
   * whatever follows the blank line is left unread.
   */
  lemma RequestRoundTrip(rl: RequestLine, hs: seq<Header>, rest: seq<string>)
    requires WellFormed(rl)
    requires forall k :: 0 <= k < |hs| ==> Sendable(hs[k])
    ensures ParseLines([RequestLineText(rl)] + HeaderTexts(hs) + [CRLF] + rest)
         == Parsed(Head(rl.meth, rl.path, rl.version, HeadersOf(hs)), |hs| + 2)
  {
    var lines := [RequestLineText(rl)] + HeaderTexts(hs) + [CRLF] + rest;
    Framed(RequestLineText(rl), HeaderTexts(hs), CRLF, rest);
    RequestLineComplete(rl);
    HeaderTextsBlock(hs);
    FramedRequest(lines, rl, hs);
  }

  /** Where the pieces of `[first] + middle + [last] + rest` are. */
  lemma Framed<T>(first: T, middle: seq<T>, last: T, rest: seq<T>)
    ensures var s := [first] + middle + [last] + rest;
      s[0] == first && s[1..|middle| + 1] == middle && s[|middle| + 1] == last
  {
    var s := [first] + middle + [last] + rest;
    assert s == [first] + (middle + ([last] + rest));
  }

  /** Lines made of a request line, the lines of `hs` and a bare CRLF parse to that request. */
  lemma FramedRequest(lines: seq<string>, rl: RequestLine, hs: seq<Header>)
    requires |hs| + 2 <= |lines|
    requires ParseRequestLine(lines[0]) == Some(rl)
    requires HeaderBlock(lines[1..|hs| + 1]) == Some(hs)
    requires lines[|hs| + 1] == CRLF
    ensures ParseLines(lines) == Parsed(Head(rl.meth, rl.path, rl.version, HeadersOf(hs)), |hs| + 2)
  {
    AcceptedIsParsed(lines, Head(rl.meth, rl.path, rl.version, HeadersOf(hs)), |hs| + 2);
  }

  /** `X-A: 1` then `X-A: 2` leave `X-A` holding `"1, 2"`. */
  lemma RepeatedHeaderExample()
    ensures ParseLines(["GET /live/foo HTTP/1.0\r\n", "X-A: 1\r\n", "X-A: 2\r\n", "\r\n"])
         == Parsed(Head("GET", "/live/foo", "HTTP/1.0", map["X-A" := "1, 2"]), 4)
  {
    var rl := RequestLine("GET", "/live/foo", "HTTP/1.0");
    var hs := [Header("X-A", "1"), Header("X-A", "2")];
    assert WellFormed(rl) by {
      assert IsUpper('G') && IsUpper('E') && IsUpper('T');
    }
    assert ':' !in "X-A";
    assert Sendable(hs[0]) && Sendable(hs[1]);
    RequestRoundTrip(rl, hs, []);
    ExampleTable();
    ExampleLines();
  }

  lemma ExampleTable()
    ensures HeadersOf([Header("X-A", "1"), Header("X-A", "2")]) == map["X-A" := "1, 2"]
  {
    var h1, h2 := Header("X-A", "1"), Header("X-A", "2");
    var one := HeadersOf([h1]);
    assert [h1][..0] == [];
    assert one == MergeHeader(HeadersOf([]), h1);
    assert one == map["X-A" := "1"];
    assert [h1, h2][..1] == [h1];
    assert one["X-A"] + ", " + "2" == "1, 2";
  }

  lemma ExampleLines()
    ensures [RequestLineText(RequestLine("GET", "/live/foo", "HTTP/1.0"))]
            + HeaderTexts([Header("X-A", "1"), Header("X-A", "2")]) + [CRLF] + []
         == ["GET /live/foo HTTP/1.0\r\n", "X-A: 1\r\n", "X-A: 2\r\n", "\r\n"]
  {
    ExampleHeaderTexts();
    ExampleRequestLineText();
  }

  lemma ExampleHeaderTexts()
    ensures HeaderTexts([Header("X-A", "1"), Header("X-A", "2")]) == ["X-A: 1\r\n", "X-A: 2\r\n"]
  {
    var h1, h2 := Header("X-A", "1"), Header("X-A", "2");
    assert [h1, h2][..1] == [h1] && [h1][..0] == [];
    assert HeaderTexts([h1, h2]) == [HeaderText(h1), HeaderText(h2)];
    assert HeaderText(h1) == "X-A: 1\r\n";
    assert HeaderText(h2) == "X-A: 2\r\n";
  }

  lemma ExampleRequestLineText()
    ensures RequestLineText(RequestLine("GET", "/live/foo", "HTTP/1.0")) == "GET /live/foo HTTP/1.0\r\n"
  {
  }

  /**
   * `http_request`: reads the request line, then header lines until a bare
   * CRLF, merging repeated names; raises `BadRequest` on a line that does
   * not match or on end of stream. It reads exactly the lines `ParseLines`
   * consumes and touches nothing else of the socket.
   */
  method HttpRequest(s: Socket) returns (r: ParseOutcome)
    requires s.Valid() && !s.closed
    modifies s`cursor
    ensures s.Valid()
    ensures var p := ParseLines(old(s.Unread()));
      && s.cursor == old(s.cursor) + p.consumed
      && r == match p
              case Parsed(h, _) => Ok(Request(h.meth, h.path, h.version, h.headers, s))
              case Rejected(f, _) => BadRequest(f)
  {
    ghost var lines := s.Unread();
    ghost var start := s.cursor;
    var line := s.Gets();
    var rl := if line.Some? then ParseRequestLine(line.value) else None;
    FirstStep(lines, line, rl);
    if rl.None? {
      return BadRequest(InvalidRequestLine(line));
    }
    r := ReadHeaders(s, rl.value, start);
  }

  /**
   * The header loop of `http_request`, entered after the request line `rl`
   * was read from the lines starting at `start`.
   */
  method ReadHeaders(s: Socket, rl: RequestLine, ghost start: nat) returns (r: ParseOutcome)
    requires s.Valid() && !s.closed && start < s.cursor
    modifies s`cursor
    ensures s.Valid()
    ensures var p := ScanHeaders(s.input[start..], old(s.cursor) - start, rl, []);
      && s.cursor == start + p.consumed
      && r == match p
              case Parsed(h, _) => Ok(Request(h.meth, h.path, h.version, h.headers, s))
              case Rejected(f, _) => BadRequest(f)
  {
    ghost var lines := s.input[start..];
    ghost var p := ScanHeaders(lines, s.cursor - start, rl, []);
    var headers: map<string, string> := map[];
    ghost var hs: seq<Header> := [];
    while true
      invariant s.Valid() && start + 1 <= s.cursor
      invariant p == ScanHeaders(lines, s.cursor - start, rl, hs)
      invariant headers == HeadersOf(hs)
      decreases |s.input| - s.cursor
    {
      var line, h := ReadHeaderLine(s, rl, start, hs);
      if line == Some(CRLF) {
        break;
      }
      if h.None? {
        return BadRequest(InvalidHeaderLine(line));
      }
      headers := Record(headers, hs, h.value);
      hs := hs + [h.value];
    }
    r := Ok(Request(rl.meth, rl.path, rl.version, headers, s));
  }

  /** One `gets` of the header loop and the match of the line it returned. */
  method ReadHeaderLine(s: Socket, ghost rl: RequestLine, ghost start: nat, ghost hs: seq<Header>)
    returns (line: Option<string>, h: Option<Header>)
    requires s.Valid() && !s.closed && start < s.cursor
    modifies s`cursor
    ensures s.Valid()
    ensures var lines, i := s.input[start..], old(s.cursor) - start;
      && s.cursor == old(s.cursor) + (if line.Some? then 1 else 0)
      && (line == Some(CRLF) ==>
            ScanHeaders(lines, i, rl, hs) == Parsed(Head(rl.meth, rl.path, rl.version, HeadersOf(hs)), i + 1))
      && (line != Some(CRLF) && h.None? ==>
            ScanHeaders(lines, i, rl, hs) == Rejected(InvalidHeaderLine(line), s.cursor - start))
      && (h.Some? ==> line.Some? && ScanHeaders(lines, i, rl, hs) == ScanHeaders(lines, i + 1, rl, hs + [h.value]))
  {
    ghost var lines, i := s.input[start..], s.cursor - start;
    line := s.Gets();
    assert line == if i < |lines| then Some(lines[i]) else None;
    h := if line.Some? && line.value != CRLF then ParseHeaderLine(line.value) else None;
    ScanStep(lines, i, rl, hs, line, h);
  }

  /** The update of the header table: a repeated name has the new value appended after a comma. */
  method Record(headers: map<string, string>, ghost hs: seq<Header>, h: Header) returns (table: map<string, string>)
    requires headers == HeadersOf(hs)
    ensures table == HeadersOf(hs + [h])
  {
    var name, value := h.name, h.value;
    if name in headers {
      table := headers[name := headers[name] + ", " + value];
    } else {
      table := headers[name := value];
    }
    MergeStep(hs, h);
  }

  /** What the first `gets` and the request-line match decide. */
  lemma FirstStep(lines: seq<string>, line: Option<string>, rl: Option<RequestLine>)
    requires line == if lines == [] then None else Some(lines[0])
    requires rl == if line.Some? then ParseRequestLine(line.value) else None
    ensures rl.None? ==> ParseLines(lines) == Rejected(InvalidRequestLine(line), if line.Some? then 1 else 0)
    ensures rl.Some? ==> ParseLines(lines) == ScanHeaders(lines, 1, rl.value, [])
  {
  }

  /** What one turn of the header loop decides, given the line `gets` returned. */
  lemma ScanStep(lines: seq<string>, i: nat, rl: RequestLine, hs: seq<Header>, line: Option<string>, h: Option<Header>)
    requires 1 <= i <= |lines|
    requires line == if i < |lines| then Some(lines[i]) else None
    requires h == if line.Some? && line.value != CRLF then ParseHeaderLine(line.value) else None
    ensures line == Some(CRLF) ==>
      ScanHeaders(lines, i, rl, hs) == Parsed(Head(rl.meth, rl.path, rl.version, HeadersOf(hs)), i + 1)
    ensures line != Some(CRLF) && h.None? ==>
      ScanHeaders(lines, i, rl, hs) == Rejected(InvalidHeaderLine(line), if line.Some? then i + 1 else i)
    ensures h.Some? ==> ScanHeaders(lines, i, rl, hs) == ScanHeaders(lines, i + 1, rl, hs + [h.value])
  {
    if i < |lines| {
      ScanAt(lines, i, rl, hs);
    }
  }

  /** The three steps of one turn of the header loop, taken one after the other. */
  lemma ScanAt(lines: seq<string>, i: nat, rl: RequestLine, hs: seq<Header>)
    requires 1 <= i < |lines|
    ensures ScanHeaders(lines, i, rl, hs) == ScanLine(lines, i, rl, hs)
    ensures lines[i] != CRLF ==> ScanLine(lines, i, rl, hs) == ScanMatch(lines, i, rl, hs)
  {
  }

  /** Recording one more header updates the table as the loop body does. */
  lemma MergeStep(hs: seq<Header>, h: Header)
    ensures HeadersOf(hs + [h]) == MergeHeader(HeadersOf(hs), h)
  {
    assert (hs + [h])[..|hs|] == hs;
  }
}
