/**
 * The two line grammars of the request parser, matched the way Ruby's regex
 * engine matches them:
 *
 *   request line  `\A([A-Z]+) (\S+) (\S+)\r\n\z`
 *   header line   `\A([^:]+):\s*(.+)\r\n\z`
 *
 * Beside each matcher, one lemma states that what it captured reassembles
 * the line (soundness) and another that every line of the grammar's shape is
 * matched (completeness).
 */
module Grammar {
  import opened Text

  const CRLF: string := "\r\n"

  datatype RequestLine = RequestLine(meth: string, path: string, version: string)

  datatype Header = Header(name: string, value: string)

  /** `[A-Z]+` */
  predicate IsMethod(m: string) {
    |m| > 0 && forall i :: 0 <= i < |m| ==> IsUpper(m[i])
  }

  /** `\S+` */
  predicate IsToken(w: string) {
    |w| > 0 && forall i :: 0 <= i < |w| ==> !IsSpace(w[i])
  }

  /** `[^:]+` (a line feed or carriage return is allowed) */
  predicate IsHeaderName(n: string) {
    |n| > 0 && ':' !in n
  }

  /** `.+`, where `.` is any character but a line feed */
  predicate IsHeaderValue(v: string) {
    |v| > 0 && '\n' !in v
  }

  /** The line ends with the two characters of `CRLF`. */
  predicate EndsWithCrlf(line: string) {
    |line| >= 2 && line[|line| - 2] == '\r' && line[|line| - 1] == '\n'
  }

  predicate WellFormed(rl: RequestLine) {
    IsMethod(rl.meth) && IsToken(rl.path) && IsToken(rl.version)
  }

  function RequestLineText(rl: RequestLine): string {
    rl.meth + " " + rl.path + " " + rl.version + CRLF
  }

  /**
   * Matches the request-line expression. The method cannot hold a space and
   * neither can the path, so the first two spaces split the line uniquely.
   */
  function ParseRequestLine(line: string): Option<RequestLine>
  {
    if !EndsWithCrlf(line) then None
    else
      var n := |line| - 2;
      var i := Find(line, ' ', 0, n);
      if i == n then None
      else
        var j := Find(line, ' ', i + 1, n);
        if j == n then None
        else
          var rl := RequestLine(line[..i], line[i + 1..j], line[j + 1..n]);
          if WellFormed(rl) then Some(rl) else None
  }

  /** The last two characters of a line that ends with them. */
  lemma CrlfTail(line: string)
    requires EndsWithCrlf(line)
    ensures line[|line| - 2..] == CRLF
  {
  }

  /** What the matcher returns reassembles the line it was given. */
  lemma ParseRequestLineSound(line: string)
    ensures var r := ParseRequestLine(line);
      r.Some? ==> WellFormed(r.value) && line == RequestLineText(r.value)
  {
    if ParseRequestLine(line).Some? {
      var n := |line| - 2;
      var i := Find(line, ' ', 0, n);
      FindSpec(line, ' ', 0, n);
      var j := Find(line, ' ', i + 1, n);
      FindSpec(line, ' ', i + 1, n);
      RequestLineSound(line, i, j);
    }
  }

  lemma RequestLineSound(line: string, i: nat, j: nat)
    requires EndsWithCrlf(line) && i < j < |line| - 2
    requires line[i] == ' ' && line[j] == ' '
    ensures line == RequestLineText(RequestLine(line[..i], line[i + 1..j], line[j + 1..|line| - 2]))
  {
    CrlfTail(line);
    SixPieces(line, i, j, |line| - 2);
    assert [line[i]] == " " && [line[j]] == " ";
  }

  /** A line cut around two separators at `i` and `j` and before its end `n`. */
  lemma SixPieces(line: string, i: nat, j: nat, n: nat)
    requires i < j < n <= |line|
    ensures line == line[..i] + [line[i]] + line[i + 1..j] + [line[j]] + line[j + 1..n] + line[n..]
  {
    PrefixSplit(line, i, i + 1);
    assert line[i..i + 1] == [line[i]];
    PrefixSplit(line, i + 1, j);
    PrefixSplit(line, j, j + 1);
    assert line[j..j + 1] == [line[j]];
    PrefixSplit(line, j + 1, n);
    assert line == line[..n] + line[n..];
  }

  /** Cutting a prefix once more splits it in two. */
  lemma PrefixSplit<T>(s: seq<T>, i: nat, k: nat)
    requires i <= k <= |s|
    ensures s[..k] == s[..i] + s[i..k]
  {
  }

  /** Appending six pieces one after another appends their concatenation. */
  lemma AppendSix<T>(o: seq<T>, a: seq<T>, b: seq<T>, c: seq<T>, d: seq<T>, e: seq<T>, f: seq<T>)
    ensures o + a + b + c + d + e + f == o + (a + b + c + d + e + f)
  {
  }

  /** Appending four pieces one after another appends their concatenation. */
  lemma AppendFour<T>(o: seq<T>, a: seq<T>, b: seq<T>, c: seq<T>, d: seq<T>)
    ensures o + a + b + c + d == o + (a + b + c + d)
  {
  }

  /** The pieces of a request line written from `rl`. */
  lemma RequestLinePieces(rl: RequestLine)
    ensures var line := RequestLineText(rl);
      var i, j, n := |rl.meth|, |rl.meth| + 1 + |rl.path|, |line| - 2;
      && n == j + 1 + |rl.version|
      && line[..i] == rl.meth && line[i] == ' '
      && line[i + 1..j] == rl.path && line[j] == ' '
      && line[j + 1..n] == rl.version && line[n..] == CRLF
  {
  }

  /** Every line of the request-line shape is matched, with the same three fields. */
  lemma RequestLineComplete(rl: RequestLine)
    requires WellFormed(rl)
    ensures ParseRequestLine(RequestLineText(rl)) == Some(rl)
  {
    RequestLinePieces(rl);
    RequestLineMatchAt(RequestLineText(rl), rl);
  }

  /** The matcher on a line cut into the pieces of `rl`. */
  lemma RequestLineMatchAt(line: string, rl: RequestLine)
    requires WellFormed(rl)
    requires var i, j, n := |rl.meth|, |rl.meth| + 1 + |rl.path|, |line| - 2;
      && n == j + 1 + |rl.version|
      && line[..i] == rl.meth && line[i] == ' '
      && line[i + 1..j] == rl.path && line[j] == ' '
      && line[j + 1..n] == rl.version && line[n..] == CRLF
    ensures ParseRequestLine(line) == Some(rl)
  {
    var i, j, n := |rl.meth|, |rl.meth| + 1 + |rl.path|, |line| - 2;
    assert line[n] == line[n..][0] && line[n + 1] == line[n..][1];
    forall k | 0 <= k < i ensures line[k] != ' ' {
      assert line[k] == line[..i][k];
      assert IsUpper(rl.meth[k]);
    }
    FindIs(line, ' ', 0, n, i);
    forall k | i + 1 <= k < j ensures line[k] != ' ' {
      assert line[k] == line[i + 1..j][k - i - 1];
      assert !IsSpace(rl.path[k - i - 1]);
    }
    FindIs(line, ' ', i + 1, n, j);
  }

  /** A header line: name, colon, whitespace, value, CRLF. */
  function HeaderLineText(name: string, ws: string, value: string): string {
    name + ":" + ws + value + CRLF
  }

  predicate HeaderParts(name: string, ws: string, value: string) {
    IsHeaderName(name) && AllSpace(ws) && IsHeaderValue(value)
  }

  /**
   * The split a greedy `\s*` picks: it hands a leading blank to `(.+)` only
   * when the value would otherwise be empty, i.e. when that blank is all of it.
   */
  predicate Greedy(value: string) {
    |value| > 0 && (|value| == 1 || !IsSpace(value[0]))
  }

  /**
   * `line` is `h` written as a header line, the whitespace between the colon
   * and the value being split off greedily.
   */
  predicate SplitsAs(line: string, h: Header) {
    && |h.name| + 1 + |h.value| + 2 <= |line|
    && var ws := line[|h.name| + 1 .. |line| - 2 - |h.value|];
    && HeaderParts(h.name, ws, h.value)
    && Greedy(h.value)
    && line == HeaderLineText(h.name, ws, h.value)
  }

  /**
   * Where `\s*` stops between `lo` (just after the colon) and `hi` (the
   * CRLF): the end of the blank run, or one character short of `hi` when the
   * run reaches it, since `(.+)` needs a character.
   */
  function ValueStart(line: string, lo: nat, hi: nat): (k: nat)
    requires lo < hi <= |line|
    ensures lo <= k < hi
  {
    var w := SkipSpace(line, lo, hi);
    if w < hi then w else hi - 1
  }

  /** `\s*` took only blanks, and it stopped before a non-blank unless it had to back off. */
  lemma ValueStartSpec(line: string, lo: nat, hi: nat)
    requires lo < hi <= |line|
    ensures forall j :: lo <= j < ValueStart(line, lo, hi) ==> IsSpace(line[j])
    ensures ValueStart(line, lo, hi) + 1 < hi ==> !IsSpace(line[ValueStart(line, lo, hi)])
  {
    SkipSpaceSpec(line, lo, hi);
  }

  /**
   * Matches the header-line expression. The name runs to the first colon.
   * `\s*` takes the longest blank run; if that leaves nothing for `(.+)`, it
   * backs off by one character, which then is the whole value. The value
   * holds no line feed.
   */
  function ParseHeaderLine(line: string): Option<Header>
  {
    if !EndsWithCrlf(line) then None
    else
      var n := |line| - 2;
      var c := Find(line, ':', 0, n);
      if c == 0 || c + 1 >= n then None
      else
        var b := ValueStart(line, c + 1, n);
        if Find(line, '\n', b, n) < n then None
        else Some(Header(line[..c], line[b..n]))
  }

  /** What the matcher returns reassembles the line it was given. */
  lemma ParseHeaderLineSound(line: string)
    ensures ParseHeaderLine(line).Some? ==> SplitsAs(line, ParseHeaderLine(line).value)
  {
    if ParseHeaderLine(line).Some? {
      var n := |line| - 2;
      var c := Find(line, ':', 0, n);
      FindSpec(line, ':', 0, n);
      var b := ValueStart(line, c + 1, n);
      ValueStartSpec(line, c + 1, n);
      FindSpec(line, '\n', b, n);
      HeaderLineSound(line, c, b);
    }
  }

  /** A line cut at four positions is the concatenation of its five pieces. */
  lemma FivePieces(line: string, c: nat, b: nat, n: nat)
    requires c < b <= n <= |line| && line[c] == ':'
    ensures line == line[..c] + ":" + line[c + 1..b] + line[b..n] + line[n..]
  {
    PrefixSplit(line, c, c + 1);
    assert line[c..c + 1] == ":";
    PrefixSplit(line, c + 1, b);
    PrefixSplit(line, b, n);
    assert line == line[..n] + line[n..];
  }

  /** The positions the matcher finds cut the line as the header grammar does. */
  lemma HeaderLineSound(line: string, c: nat, b: nat)
    requires EndsWithCrlf(line) && 0 < c < b < |line| - 2
    requires line[c] == ':' && forall j :: 0 <= j < c ==> line[j] != ':'
    requires forall j :: c + 1 <= j < b ==> IsSpace(line[j])
    requires b + 1 < |line| - 2 ==> !IsSpace(line[b])
    requires forall j :: b <= j < |line| - 2 ==> line[j] != '\n'
    ensures SplitsAs(line, Header(line[..c], line[b..|line| - 2]))
  {
    var n := |line| - 2;
    var name, ws, value := line[..c], line[c + 1..b], line[b..n];
    HeaderLineCuts(line, c, b, n);
    CrlfTail(line);
    FivePieces(line, c, b, n);
    SplitsAsIntro(line, Header(name, value), ws);
  }

  /** `SplitsAs` from its parts, the blank run `ws` being given. */
  lemma SplitsAsIntro(line: string, h: Header, ws: string)
    requires line == h.name + ":" + ws + h.value + CRLF
    requires HeaderParts(h.name, ws, h.value) && Greedy(h.value)
    ensures SplitsAs(line, h)
  {
    assert line[|h.name| + 1 .. |line| - 2 - |h.value|] == ws;
  }

  /** The three pieces between the cuts are a name, a blank run and a greedy value. */
  lemma HeaderLineCuts(line: string, c: nat, b: nat, n: nat)
    requires 0 < c < b < n <= |line|
    requires forall j :: 0 <= j < c ==> line[j] != ':'
    requires forall j :: c + 1 <= j < b ==> IsSpace(line[j])
    requires b + 1 < n ==> !IsSpace(line[b])
    requires forall j :: b <= j < n ==> line[j] != '\n'
    ensures HeaderParts(line[..c], line[c + 1..b], line[b..n]) && Greedy(line[b..n])
  {
    var name, ws, value := line[..c], line[c + 1..b], line[b..n];
    forall j | 0 <= j < |name| ensures name[j] != ':' {
      assert name[j] == line[j];
    }
    forall j | 0 <= j < |ws| ensures IsSpace(ws[j]) {
      assert ws[j] == line[c + 1 + j];
    }
    forall j | 0 <= j < |value| ensures value[j] != '\n' {
      assert value[j] == line[b + j];
    }
    assert value[0] == line[b];
  }

  /** The pieces of a header line written from `name`, `ws` and `value`. */
  lemma HeaderLinePieces(name: string, ws: string, value: string)
    ensures var line := HeaderLineText(name, ws, value);
      var c, b, n := |name|, |name| + 1 + |ws|, |line| - 2;
      && n == b + |value|
      && line[..c] == name && line[c] == ':'
      && line[c + 1..b] == ws && line[b..n] == value && line[n..] == CRLF
  {
  }

  /**
   * What the matcher does with a header line of the shape, given its pieces:
   * it splits at the colon written, and `\s*` stops inside the value, having
   * taken only blanks.
   */
  lemma HeaderLineMatchAt(line: string, name: string, ws: string, value: string)
    requires HeaderParts(name, ws, value)
    requires var c, b, n := |name|, |name| + 1 + |ws|, |line| - 2;
      && n == b + |value|
      && line[..c] == name && line[c] == ':'
      && line[c + 1..b] == ws && line[b..n] == value && line[n..] == CRLF
    ensures var c, n := |name|, |line| - 2;
      var d := ValueStart(line, c + 1, n);
      && c + 1 + |ws| <= d < n
      && ParseHeaderLine(line) == Some(Header(name, line[d..n]))
      && (forall j :: c + 1 <= j < d ==> IsSpace(line[j]))
      && (d + 1 < n ==> !IsSpace(line[d]))
  {
    var c, b, n := |name|, |name| + 1 + |ws|, |line| - 2;
    assert line[n] == line[n..][0] && line[n + 1] == line[n..][1];
    forall j | 0 <= j < c ensures line[j] != ':' {
      assert line[j] == line[..c][j];
      assert name[j] in name;
    }
    FindIs(line, ':', 0, n, c);
    forall j | c + 1 <= j < b ensures IsSpace(line[j]) {
      assert line[j] == line[c + 1..b][j - c - 1];
    }
    SkipSpaceAtLeast(line, c + 1, n, b);
    var d := ValueStart(line, c + 1, n);
    ValueStartSpec(line, c + 1, n);
    forall j | d <= j < n ensures line[j] != '\n' {
      assert line[j] == line[b..n][j - b];
      assert value[j - b] in value;
    }
    FindIs(line, '\n', d, n, n);
  }

  /**
   * Every line of the header shape is matched, under the name written. The
   * value captured is the value written with part of its leading whitespace
   * consumed, and exactly the value written when that split is the greedy one.
   */
  lemma HeaderLineComplete(name: string, ws: string, value: string)
    requires HeaderParts(name, ws, value)
    ensures var r := ParseHeaderLine(HeaderLineText(name, ws, value));
      && r.Some?
      && r.value.name == name
      && |r.value.value| <= |value|
      && value[|value| - |r.value.value|..] == r.value.value
      && AllSpace(value[..|value| - |r.value.value|])
      && (Greedy(value) ==> r.value.value == value)
  {
    var line := HeaderLineText(name, ws, value);
    var c, b, n := |name|, |name| + 1 + |ws|, |line| - 2;
    HeaderLinePieces(name, ws, value);
    HeaderLineMatchAt(line, name, ws, value);
    CapturedValue(line, value, b, ValueStart(line, c + 1, n));
  }

  /** The value `(.+)` captures, against the value written from `b` on. */
  lemma CapturedValue(line: string, value: string, b: nat, d: nat)
    requires b <= d < |line| - 2 && line[b..|line| - 2] == value
    requires forall j :: b <= j < d ==> IsSpace(line[j])
    requires d + 1 < |line| - 2 ==> !IsSpace(line[d])
    ensures var v := line[d..|line| - 2];
      && |v| <= |value|
      && value[|value| - |v|..] == v
      && AllSpace(value[..|value| - |v|])
      && (Greedy(value) ==> v == value)
  {
    var n := |line| - 2;
    assert line[d..n] == value[d - b..];
    var blanks := value[..d - b];
    forall j | 0 <= j < |blanks| ensures IsSpace(blanks[j]) {
      assert blanks[j] == line[b + j];
    }
    if Greedy(value) && |value| > 1 {
      assert line[b] == value[0];
    }
  }
}
