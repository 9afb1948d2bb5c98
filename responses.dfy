/**
 * The bytes the two handlers send before the body: the status line, the
 * header lines and the blank line, exactly as `handle_stats` and
 * `handle_proxy` spell them, and the command line the proxy hands to
 * `rtmpdump`. The lemmas read the responses back with the server's own
 * header grammar.
 */
module Responses {
  import opened Text
  import opened Grammar
  import opened Headers
  import opened RequestParser

  const SERVER_NAME: string := "NginxDumper/0.0.1"

  const STATUS_OK: string := "HTTP/1.0 200 OK\r\n"
  const BAD_REQUEST_RESPONSE: string := "HTTP/1.0 400 Bad Request\r\n\r\n"

  const SERVER_LINE: string := "Server: " + SERVER_NAME + CRLF
  const STATS_TYPE: string := "text/plain; charset=UTF-8"
  const STATS_TYPE_LINE: string := "Content-Type: " + STATS_TYPE + CRLF
  const FLV_TYPE: string := "video/x-flv"
  const FLV_TYPE_LINE: string := "Content-Type: " + FLV_TYPE + CRLF

  /** `stats_body`: the statistics page, the same whatever the request. */
  const STATS_BODY: string := "stats"

  /** The `Content-Length` line for `body`: its size in bytes, in decimal. */
  function ContentLengthLine(body: string): string {
    "Content-Length: " + Decimal(ByteSize(body)) + CRLF
  }

  /** Everything `handle_stats` writes for `body`, in order. */
  function StatsResponse(body: string): string {
    STATUS_OK + SERVER_LINE + STATS_TYPE_LINE + ContentLengthLine(body) + CRLF + body
  }

  /** Everything `handle_proxy` writes before handing the socket over. */
  const PROXY_HEAD: string := STATUS_OK + SERVER_LINE + FLV_TYPE_LINE + CRLF

  const LOCATOR_PREFIX: string := "rtmp://localhost"

  /** The upstream locator for a request path. */
  function SourcePath(path: string): string {
    LOCATOR_PREFIX + path
  }

  /** The command line, `escape` standing for `Shellwords.escape`. */
  function Command(escape: string -> string, path: string): string {
    "rtmpdump --live --timeout=20 --quiet -r " + escape(SourcePath(path)) + " -o -"
  }

  /** The headers of the stats response, as a client reads them. */
  function StatsHeaders(body: string): seq<Header> {
    [Header("Server", SERVER_NAME), Header("Content-Type", STATS_TYPE),
     Header("Content-Length", Decimal(ByteSize(body)))]
  }

  /** The headers of the proxy response, as a client reads them. */
  function ProxyHeaders(): seq<Header> {
    [Header("Server", SERVER_NAME), Header("Content-Type", FLV_TYPE)]
  }

  /** A line that ends with CRLF, holds no other line feed and is not blank. */
  predicate IsTextLine(l: string) {
    EndsWithCrlf(l) && l != CRLF && '\n' !in l[..|l| - 2]
  }

  /** `HeaderTexts` of three headers, spelled out. */
  lemma ThreeTexts(a: Header, b: Header, c: Header)
    ensures HeaderTexts([a, b, c]) == [HeaderText(a), HeaderText(b), HeaderText(c)]
  {
    assert [a, b, c][..2] == [a, b];
    TwoTexts(a, b);
  }

  /** `HeaderTexts` of two headers, spelled out. */
  lemma TwoTexts(a: Header, b: Header)
    ensures HeaderTexts([a, b]) == [HeaderText(a), HeaderText(b)]
  {
    assert [a, b][..1] == [a];
    assert [a][..0] == [];
  }

  /** A decimal numeral is a value `(.+)` captures unchanged. */
  lemma DecimalSendable(n: nat)
    ensures Sendable(Header("Content-Length", Decimal(n)))
  {
    var d := Decimal(n);
    assert IsDigit(d[0]);
    forall k | 0 <= k < |d| ensures d[k] != '\n' {
      assert IsDigit(d[k]);
    }
    assert ':' !in "Content-Length";
  }

  /** The stats header lines are the headers written as a client writes them. */
  lemma StatsHeaderTexts(body: string)
    ensures HeaderTexts(StatsHeaders(body)) == [SERVER_LINE, STATS_TYPE_LINE, ContentLengthLine(body)]
  {
    var hs := StatsHeaders(body);
    ThreeTexts(hs[0], hs[1], hs[2]);
    ServerLineText();
    StatsTypeLineText();
    HeaderTextSpelling(hs[2]);
    assert "Content-Length" + ": " == "Content-Length: ";
  }

  /** A header line as a client writes it is the name, `": "`, the value and CRLF. */
  lemma HeaderTextSpelling(h: Header)
    ensures HeaderText(h) == h.name + ": " + h.value + CRLF
  {
    assert h.name + ":" + " " == h.name + ": ";
  }

  lemma ServerLineText()
    ensures HeaderText(Header("Server", SERVER_NAME)) == SERVER_LINE
  {
    HeaderTextSpelling(Header("Server", SERVER_NAME));
    assert "Server" + ": " == "Server: ";
  }

  lemma StatsTypeLineText()
    ensures HeaderText(Header("Content-Type", STATS_TYPE)) == STATS_TYPE_LINE
  {
    HeaderTextSpelling(Header("Content-Type", STATS_TYPE));
    assert "Content-Type" + ": " == "Content-Type: ";
  }

  lemma FlvTypeLineText()
    ensures HeaderText(Header("Content-Type", FLV_TYPE)) == FLV_TYPE_LINE
  {
    HeaderTextSpelling(Header("Content-Type", FLV_TYPE));
    assert "Content-Type" + ": " == "Content-Type: ";
  }

  /**
   * The header lines of the stats response read back, with the server's own
   * header grammar, as `Server`, `Content-Type` and `Content-Length`.
   */
  lemma StatsHeadersReadBack(body: string)
    ensures HeaderBlock(HeaderTexts(StatsHeaders(body))) == Some(StatsHeaders(body))
  {
    StatsHeadersSendable(body);
    HeaderTextsBlock(StatsHeaders(body));
  }

  lemma StatsHeadersSendable(body: string)
    ensures forall k :: 0 <= k < |StatsHeaders(body)| ==> Sendable(StatsHeaders(body)[k])
  {
    ServerSendable();
    TypeSendable(STATS_TYPE);
    DecimalSendable(ByteSize(body));
  }

  lemma ServerSendable()
    ensures Sendable(Header("Server", SERVER_NAME))
  {
    assert forall k :: 0 <= k < 6 ==> "Server"[k] != ':';
    assert forall k :: 0 <= k < |SERVER_NAME| ==> SERVER_NAME[k] != '\n';
  }

  lemma TypeSendable(t: string)
    requires t == STATS_TYPE || t == FLV_TYPE
    ensures Sendable(Header("Content-Type", t))
  {
    assert forall k :: 0 <= k < 12 ==> "Content-Type"[k] != ':';
    assert forall k :: 0 <= k < |t| ==> t[k] != '\n';
  }

  /**
   * `Content-Length` is the byte size of the body: the table the client
   * builds holds it under that name, as a decimal numeral whose value is
   * `body.bytesize`.
   */
  lemma ContentLengthIsByteSize(body: string)
    ensures var t := HeadersOf(StatsHeaders(body));
      && "Content-Length" in t
      && AllDigits(t["Content-Length"])
      && DecimalValue(t["Content-Length"]) == ByteSize(body)
  {
    var hs := StatsHeaders(body);
    var d := Decimal(ByteSize(body));
    assert hs[..2] == [hs[0], hs[1]];
    assert [hs[0], hs[1]][..1] == [hs[0]] && [hs[0]][..0] == [];
    var t1 := HeadersOf([hs[0]]);
    assert t1 == MergeHeader(HeadersOf([]), hs[0]);
    var t2 := HeadersOf(hs[..2]);
    assert t2 == MergeHeader(t1, hs[1]);
    assert t2.Keys == {"Server", "Content-Type"};
    assert "Content-Length" !in t2;
    assert HeadersOf(hs) == MergeHeader(t2, hs[2]);
    assert HeadersOf(hs)["Content-Length"] == d;
    DecimalRoundTrip(ByteSize(body));
  }

  /** The stats body `"stats"` is five bytes long. */
  lemma StatsContentLength()
    ensures ByteSize(STATS_BODY) == 5
    ensures ContentLengthLine(STATS_BODY) == "Content-Length: 5\r\n"
  {
    assert IsAscii(STATS_BODY);
    AsciiByteSize(STATS_BODY);
  }

  /**
   * The stats response is the status line, three header lines and the blank
   * line, each a line of its own, followed by the body and nothing else.
   */
  lemma StatsFraming(body: string)
    ensures var lines := [STATUS_OK, SERVER_LINE, STATS_TYPE_LINE, ContentLengthLine(body)];
      && StatsResponse(body) == lines[0] + lines[1] + lines[2] + lines[3] + CRLF + body
      && forall k :: 0 <= k < |lines| ==> IsTextLine(lines[k])
  {
    var cl := ContentLengthLine(body);
    var d := Decimal(ByteSize(body));
    assert cl[..|cl| - 2] == "Content-Length: " + d;
    forall k | 0 <= k < |cl| - 2 ensures cl[k] != '\n' {
      if k >= 16 {
        assert cl[k] == d[k - 16];
        assert IsDigit(d[k - 16]);
      }
    }
    assert '\n' !in STATUS_OK[..|STATUS_OK| - 2];
    assert '\n' !in SERVER_LINE[..|SERVER_LINE| - 2];
    assert '\n' !in STATS_TYPE_LINE[..|STATS_TYPE_LINE| - 2];
  }

  /** The proxy header lines are the headers written as a client writes them. */
  lemma ProxyHeaderTexts()
    ensures HeaderTexts(ProxyHeaders()) == [SERVER_LINE, FLV_TYPE_LINE]
  {
    var hs := ProxyHeaders();
    TwoTexts(hs[0], hs[1]);
    ServerLineText();
    FlvTypeLineText();
  }

  /** The proxy's header lines read back as `Server` and `Content-Type: video/x-flv`. */
  lemma ProxyHeadersReadBack()
    ensures HeaderBlock(HeaderTexts(ProxyHeaders())) == Some(ProxyHeaders())
  {
    ProxyHeadersSendable();
    HeaderTextsBlock(ProxyHeaders());
  }

  lemma ProxyHeadersSendable()
    ensures forall k :: 0 <= k < |ProxyHeaders()| ==> Sendable(ProxyHeaders()[k])
  {
    ServerSendable();
    TypeSendable(FLV_TYPE);
  }

  /** The table a client builds from the proxy headers has no `Content-Length`. */
  lemma ProxyTable()
    ensures HeadersOf(ProxyHeaders()) == map["Server" := SERVER_NAME, "Content-Type" := FLV_TYPE]
    ensures "Content-Length" !in HeadersOf(ProxyHeaders())
  {
    var hs := ProxyHeaders();
    assert hs[..1] == [hs[0]] && [hs[0]][..0] == [];
    var t1 := HeadersOf([hs[0]]);
    assert t1 == MergeHeader(HeadersOf([]), hs[0]);
    assert HeadersOf(hs) == MergeHeader(t1, hs[1]);
    assert "Server" != "Content-Type";
  }

  /** The proxy head is the status line, two header lines and the blank line. */
  lemma ProxyFraming()
    ensures var lines := [STATUS_OK, SERVER_LINE, FLV_TYPE_LINE];
      && PROXY_HEAD == lines[0] + lines[1] + lines[2] + CRLF
      && forall k :: 0 <= k < |lines| ==> IsTextLine(lines[k])
  {
    assert '\n' !in STATUS_OK[..|STATUS_OK| - 2];
    assert '\n' !in SERVER_LINE[..|SERVER_LINE| - 2];
    assert '\n' !in FLV_TYPE_LINE[..|FLV_TYPE_LINE| - 2];
  }

  /**
   * The locator is `rtmp://localhost` followed by the path, so the path can
   * be recovered from it and different paths give different locators.
   */
  lemma SourcePathRecovers(path: string, other: string)
    ensures SourcePath(path)[..|LOCATOR_PREFIX|] == LOCATOR_PREFIX
    ensures SourcePath(path)[|LOCATOR_PREFIX|..] == path
    ensures SourcePath(path) == SourcePath(other) ==> path == other
  {
    assert SourcePath(other)[|LOCATOR_PREFIX|..] == other;
  }

  /** Every response these handlers begin with a `200` status line; a `400` is never one of them. */
  lemma OkIsNotBadRequest(rest: string)
    ensures STATUS_OK + rest != BAD_REQUEST_RESPONSE
  {
    assert (STATUS_OK + rest)[9] == '2';
    assert BAD_REQUEST_RESPONSE[9] == '4';
  }
}
