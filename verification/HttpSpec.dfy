/** The HTTP/1.1 request parser as a function of its state and the unread bytes. */
module HttpSpec {
  import opened Bytes
  import opened Buffers

  const SP: byte := 32
  const COLON: byte := 58
  const SLASH: byte := 47
  const HTTP_SLASH: seq<byte> := [72, 84, 84, 80, 47]                                            // HTTP/
  const CONTENT_LENGTH: seq<byte> := [67, 111, 110, 116, 101, 110, 116, 45, 76, 101, 110, 103, 116, 104]
  const CONNECTION: seq<byte> := [67, 111, 110, 110, 101, 99, 116, 105, 111, 110]
  const CONNECTION_LOWER: seq<byte> := [99, 111, 110, 110, 101, 99, 116, 105, 111, 110]
  const CLOSE: seq<byte> := [99, 108, 111, 115, 101]                                             // close
  const SIZE_LIMIT: nat := 0x1_0000_0000_0000_0000

  /** Thrown is not a state of the C++ parser: an exception from reading Content-Length has left it. */
  datatype State = StartLine | Headers | Body | Complete | Error | Thrown

  datatype Header = Header(key: seq<byte>, value: seq<byte>)

  /** The headers in the order their keys first came in; keys are distinct. */
  datatype Request = Request(
    verb: seq<byte>, path: seq<byte>, version: seq<byte>, headers: seq<Header>, body: seq<byte>)

  datatype Parser = Parser(state: State, request: Request, contentLength: nat, keepAlive: bool)

  const INIT := Parser(StartLine, Request([], [], [], [], []), 0, true)

  // ---------- lines ----------

  /** The position of the first b at or after i, or the end. */
  function Find(s: seq<byte>, b: byte, i: nat): (r: nat)
    requires i <= |s|
    ensures i <= r <= |s| && (r < |s| ==> s[r] == b)
    ensures forall j :: i <= j < r ==> s[j] != b
    decreases |s| - i
  {
    if i == |s| || s[i] == b then i else Find(s, b, i + 1)
  }

  predicate IsSpace(b: byte) {
    b == SP || 9 <= b <= 13
  }

  function SkipSpace(s: seq<byte>, i: nat): (r: nat)
    requires i <= |s|
    ensures i <= r <= |s| && (r < |s| ==> !IsSpace(s[r]))
    ensures forall j :: i <= j < r ==> IsSpace(s[j])
    decreases |s| - i
  {
    if i < |s| && IsSpace(s[i]) then SkipSpace(s, i + 1) else i
  }

  function SetHeader(hs: seq<Header>, key: seq<byte>, value: seq<byte>): seq<Header> {
    if hs == [] then [Header(key, value)]
    else if hs[0].key == key then [Header(key, value)] + hs[1..]
    else [hs[0]] + SetHeader(hs[1..], key, value)
  }

  function Lower(b: byte): byte {
    if 65 <= b <= 90 then b + 32 else b
  }

  predicate SameIgnoringCase(a: seq<byte>, b: seq<byte>) {
    |a| == |b| && forall i :: 0 <= i < |a| ==> Lower(a[i]) == Lower(b[i])
  }

  function FirstExact(hs: seq<Header>, key: seq<byte>): Option<seq<byte>> {
    if hs == [] then None else if hs[0].key == key then Some(hs[0].value) else FirstExact(hs[1..], key)
  }

  function FirstSimilar(hs: seq<Header>, key: seq<byte>): Option<seq<byte>> {
    if hs == [] then None
    else if SameIgnoringCase(hs[0].key, key) then Some(hs[0].value)
    else FirstSimilar(hs[1..], key)
  }

  /** Exact match first, then the first match ignoring case, else the empty string. */
  function GetHeader(hs: seq<Header>, key: seq<byte>): seq<byte> {
    match FirstExact(hs, key)
    case Some(v) => v
    case None => match FirstSimilar(hs, key) case Some(v) => v case None => []
  }

  lemma {:induction false} OnlySimilar(hs: seq<Header>, key: seq<byte>, i: nat)
    requires i < |hs| && SameIgnoringCase(hs[i].key, key)
    requires forall j :: 0 <= j < |hs| && j != i ==> !SameIgnoringCase(hs[j].key, key)
    ensures FirstSimilar(hs, key) == Some(hs[i].value) && FirstExact(hs, key) in {None, Some(hs[i].value)}
  {
    if i > 0 {
      OnlySimilar(hs[1..], key, i - 1);
    } else if hs[0].key != key {
      NoneSimilar(hs[1..], key);
    }
  }

  lemma {:induction false} NoneSimilar(hs: seq<Header>, key: seq<byte>)
    requires forall j :: 0 <= j < |hs| ==> !SameIgnoringCase(hs[j].key, key)
    ensures FirstSimilar(hs, key) == None && FirstExact(hs, key) == None
  {
    if hs != [] {
      NoneSimilar(hs[1..], key);
    }
  }

  /** As long as at most one spelling of a key is present, looking it up finds that one and ignores case; the order
      in which the table is walked does not matter. */
  lemma LookUpIgnoresCase(hs: seq<Header>, key: seq<byte>, i: nat)
    requires forall j :: 0 <= j < |hs| && j != i ==> !SameIgnoringCase(hs[j].key, key)
    ensures GetHeader(hs, key) == if i < |hs| && SameIgnoringCase(hs[i].key, key) then hs[i].value else []
  {
    if i < |hs| && SameIgnoringCase(hs[i].key, key) {
      OnlySimilar(hs, key, i);
    } else {
      NoneSimilar(hs, key);
    }
  }

  // ---------- std::stoul ----------

  function DigitsEnd(s: seq<byte>, i: nat): (r: nat)
    requires i <= |s|
    ensures i <= r <= |s| && (forall j :: i <= j < r ==> IsDigit(s[j])) && (r < |s| ==> !IsDigit(s[r]))
    decreases |s| - i
  {
    if i < |s| && IsDigit(s[i]) then DigitsEnd(s, i + 1) else i
  }

  /** White space, a sign, the longest run of digits; None is an exception: no digits, or out of range. */
  function Stoul(s: seq<byte>): Option<nat> {
    var i := SkipSpace(s, 0);
    var signed := i < |s| && (s[i] == 43 || s[i] == 45);
    var from := if signed then i + 1 else i;
    var end := DigitsEnd(s, from);
    if end == from then None
    else
      var v := DecimalValue(s[from..end]);
      if v >= SIZE_LIMIT then None
      else if signed && s[i] == 45 then Some((SIZE_LIMIT - v) % SIZE_LIMIT)
      else Some(v)
  }

  // ---------- the state machine ----------

  /** The request line; the fields are stored before the version and the path are judged. */
  function OnStartLine(p: Parser, line: seq<byte>): Parser {
    var sp1 := Find(line, SP, 0);
    if sp1 == |line| then p.(state := Error)
    else
      var sp2 := Find(line, SP, sp1 + 1);
      if sp2 == |line| then p.(state := Error)
      else
        var verb, path, version := line[..sp1], line[sp1 + 1..sp2], line[sp2 + 1..];
        var ok := |version| >= 8 && version[..5] == HTTP_SLASH && path != [] && path[0] == SLASH;
        p.(state := if ok then Headers else Error,
           request := p.request.(verb := verb, path := path, version := version))
  }

  function OnHeaderLine(p: Parser, line: seq<byte>): Parser {
    var colon := Find(line, COLON, 0);
    if colon == |line| then p.(state := Error)
    else
      var key, value := line[..colon], line[SkipSpace(line, colon + 1)..];
      p.(request := p.request.(headers := SetHeader(p.request.headers, key, value)),
         keepAlive := if key == CONNECTION || key == CONNECTION_LOWER then value != CLOSE else p.keepAlive)
  }

  function OnBlankLine(p: Parser): Parser {
    var cl := GetHeader(p.request.headers, CONTENT_LENGTH);
    if cl == [] then p.(state := Complete)
    else
      match Stoul(cl)
      case Some(n) => p.(contentLength := n, state := Body)
      case None => p.(state := Thrown)
  }

  function OnLine(p: Parser, line: seq<byte>): Parser {
    if p.state.StartLine? then OnStartLine(p, line)
    else if line == [] then OnBlankLine(p)
    else OnHeaderLine(p, line)
  }

  /** One turn of the parse loop, or None when it has to wait or is done. A bad line is not consumed. */
  function Step(p: Parser, buf: seq<byte>): Option<(Parser, seq<byte>)> {
    match p.state
    case StartLine => LineStep(p, buf)
    case Headers => LineStep(p, buf)
    case Body =>
      if |buf| < p.contentLength then None
      else Some((p.(request := p.request.(body := buf[..p.contentLength]), state := Complete), buf[p.contentLength..]))
    case _ => None
  }

  function LineStep(p: Parser, buf: seq<byte>): Option<(Parser, seq<byte>)> {
    match FirstCrlf(buf)
    case None => None
    case Some(i) =>
      var q := OnLine(p, buf[..i]);
      Some((q, if q.state.Error? then buf else buf[i + 2..]))
  }

  /** Each turn consumes something or ends the request, and a request line always is consumed or bad. */
  lemma StepShrinks(p: Parser, buf: seq<byte>)
    requires Step(p, buf).Some?
    ensures var (q, rest) := Step(p, buf).value;
            && |rest| <= |buf| && (|rest| < |buf| || Done(q.state)) && !Done(p.state)
            && (p.state.StartLine? ==> |rest| < |buf| || q.state.Error?) && !q.state.StartLine?
  {
  }

  predicate Done(s: State) {
    s.Complete? || s.Error? || s.Thrown?
  }

  function Parse(p: Parser, buf: seq<byte>): (r: (Parser, seq<byte>))
    ensures |r.1| <= |buf|
    ensures p.state.StartLine? && r.0.state.Complete? ==> |r.1| < |buf|
    decreases |buf|, if Done(p.state) then 0 else 1
  {
    hide OnLine, FirstCrlf;
    match Step(p, buf)
    case None => (p, buf)
    case Some((q, rest)) =>
      StepShrinks(p, buf);
      Parse(q, rest)
  }

  lemma Assoc<T>(a: seq<T>, b: seq<T>, c: seq<T>)
    ensures a + b + c == a + (b + c)
  {
  }

  // ---------- fragmentation ----------

  lemma StepStable(p: Parser, a: seq<byte>, b: seq<byte>)
    requires Step(p, a).Some?
    ensures Step(p, a + b) == Some((Step(p, a).value.0, Step(p, a).value.1 + b))
  {
    if p.state.Body? {
      var n := p.contentLength;
      assert (a + b)[..n] == a[..n] && (a + b)[n..] == a[n..] + b;
    } else {
      CrlfStable(a, b);
      var i := FirstCrlf(a).value;
      assert (a + b)[..i] == a[..i] && (a + b)[i + 2..] == a[i + 2..] + b;
    }
  }

  /** Parsing what is there and then the rest is parsing it all. */
  lemma {:induction false} ParseInTwo(p: Parser, a: seq<byte>, b: seq<byte>)
    ensures Parse(p, a + b) == Parse(Parse(p, a).0, Parse(p, a).1 + b)
    decreases |a|, if Done(p.state) then 0 else 1
  {
    match Step(p, a) {
      case None =>
      case Some((q, rest)) =>
        StepStable(p, a, b);
        ParseInTwo(q, rest, b);
    }
  }

  /** Append each chunk to what is unread and parse. */
  function Feed(p: Parser, buf: seq<byte>, chunks: seq<seq<byte>>): (Parser, seq<byte>)
    decreases |chunks|
  {
    if chunks == [] then (p, buf)
    else
      var (q, rest) := Parse(p, buf + chunks[0]);
      Feed(q, rest, chunks[1..])
  }

  /** However the bytes are cut into chunks, the parser ends in the same state with the same request and rest. */
  lemma {:induction false} FragmentationIndependence(p: Parser, buf: seq<byte>, chunks: seq<seq<byte>>)
    requires chunks != []
    ensures Feed(p, buf, chunks) == Parse(p, buf + Concat(chunks))
    decreases |chunks|
  {
    var (q, rest) := Parse(p, buf + chunks[0]);
    ParseInTwo(p, buf + chunks[0], Concat(chunks[1..]));
    assert buf + chunks[0] + Concat(chunks[1..]) == buf + Concat(chunks);
    if chunks[1..] == [] {
      assert buf + chunks[0] + [] == buf + chunks[0];
    } else {
      FragmentationIndependence(q, rest, chunks[1..]);
    }
  }

  // ---------- pipelining ----------

  datatype Session = Session(requests: seq<Request>, parser: Parser, rest: seq<byte>)

  /** Parse; at each complete request hand it out, reset, and go on. */
  function Serve(p: Parser, buf: seq<byte>): Session
    decreases |buf|, if p.state.StartLine? then 0 else 1
  {
    var (q, rest) := Parse(p, buf);
    if q.state.Complete? then
      var s := Serve(INIT, rest);
      s.(requests := [q.request] + s.requests)
    else Session([], q, rest)
  }

  lemma StopsWhenDone(p: Parser, buf: seq<byte>)
    requires Done(p.state)
    ensures Parse(p, buf) == (p, buf)
  {
  }

  lemma {:induction false} ServeInTwo(p: Parser, a: seq<byte>, b: seq<byte>)
    ensures var s := Serve(p, a); var t := Serve(s.parser, s.rest + b);
            Serve(p, a + b) == Session(s.requests + t.requests, t.parser, t.rest)
    decreases |a|, if p.state.StartLine? then 0 else 1
  {
    hide Parse, Step;
    ParseInTwo(p, a, b);
    var (q, rest) := Parse(p, a);
    if q.state.Complete? {
      StopsWhenDone(q, rest + b);
      ServeInTwo(INIT, rest, b);
    }
  }

  function FeedSession(s: Session, chunks: seq<seq<byte>>): Session
    decreases |chunks|
  {
    if chunks == [] then s
    else
      var t := Serve(s.parser, s.rest + chunks[0]);
      FeedSession(t.(requests := s.requests + t.requests), chunks[1..])
  }

  lemma {:induction false} FeedSessionFrom(p: Parser, buf: seq<byte>, chunks: seq<seq<byte>>)
    ensures FeedSession(Serve(p, buf), chunks) == Serve(p, buf + Concat(chunks))
    decreases |chunks|
  {
    if chunks == [] {
      assert buf + Concat(chunks) == buf;
    } else {
      ServeInTwo(p, buf, chunks[0]);
      FeedSessionFrom(p, buf + chunks[0], chunks[1..]);
      Assoc(buf, chunks[0], Concat(chunks[1..]));
    }
  }

  // ---------- writing requests ----------

  function StartLineOf(r: Request): seq<byte> {
    r.verb + [SP] + r.path + [SP] + r.version
  }

  function HeaderLineOf(h: Header): seq<byte> {
    h.key + [COLON, SP] + h.value
  }

  function RenderHeaders(hs: seq<Header>): seq<byte> {
    if hs == [] then [] else HeaderLineOf(hs[0]) + CRLF + RenderHeaders(hs[1..])
  }

  function Render(r: Request): seq<byte> {
    StartLineOf(r) + CRLF + RenderHeaders(r.headers) + CRLF + r.body
  }

  predicate GoodHeader(h: Header) {
    && COLON !in h.key && (h.value != [] ==> !IsSpace(h.value[0]))
    && FirstCrlf(HeaderLineOf(h)).None?
  }

  predicate DistinctKeys(hs: seq<Header>) {
    forall i, j :: 0 <= i < j < |hs| ==> hs[i].key != hs[j].key
  }

  predicate GoodStartLine(r: Request) {
    && SP !in r.verb && SP !in r.path && r.path != [] && r.path[0] == SLASH
    && |r.version| >= 8 && r.version[..5] == HTTP_SLASH
    && FirstCrlf(StartLineOf(r)).None?
  }

  /** The body is what Content-Length says. */
  predicate GoodBody(r: Request) {
    var cl := GetHeader(r.headers, CONTENT_LENGTH);
    if cl == [] then r.body == [] else Stoul(cl) == Some(|r.body|)
  }

  predicate WellFormed(r: Request) {
    && GoodStartLine(r) && DistinctKeys(r.headers) && GoodBody(r)
    && forall i :: 0 <= i < |r.headers| ==> GoodHeader(r.headers[i])
  }

  /** What the Connection header leaves in the parser's keep-alive flag. */
  function KeepAliveAfter(hs: seq<Header>, start: bool): bool
    decreases |hs|
  {
    if hs == [] then start
    else
      var h := hs[0];
      KeepAliveAfter(hs[1..], if h.key == CONNECTION || h.key == CONNECTION_LOWER then h.value != CLOSE else start)
  }

  lemma FindIs(s: seq<byte>, b: byte, i: nat, r: nat)
    requires i <= r <= |s| && (forall j :: i <= j < r ==> s[j] != b) && (r < |s| ==> s[r] == b)
    ensures Find(s, b, i) == r
  {
  }

  lemma StartLineRead(p: Parser, r: Request)
    requires GoodStartLine(r)
    ensures OnStartLine(p, StartLineOf(r)) ==
            p.(state := Headers, request := p.request.(verb := r.verb, path := r.path, version := r.version))
  {
    var line := StartLineOf(r);
    var sp1, sp2 := |r.verb|, |r.verb| + 1 + |r.path|;
    FindIs(line, SP, 0, sp1);
    FindIs(line, SP, sp1 + 1, sp2);
    assert line[..sp1] == r.verb && line[sp1 + 1..sp2] == r.path && line[sp2 + 1..] == r.version;
  }

  /** A request line is accepted only if it is two spaces apart verb, absolute path and HTTP version. */
  lemma StartLineAccepted(p: Parser, line: seq<byte>)
    requires !OnStartLine(p, line).state.Error? && FirstCrlf(line).None?
    ensures var r := OnStartLine(p, line).request; GoodStartLine(r) && StartLineOf(r) == line
  {
    var r := OnStartLine(p, line).request;
    var sp1 := Find(line, SP, 0);
    var sp2 := Find(line, SP, sp1 + 1);
    hide FirstCrlf, Find;
    assert StartLineOf(r) == line;
    assert forall j :: 0 <= j < |r.path| ==> r.path[j] == line[sp1 + 1 + j];
  }

  lemma {:induction false} NewKeyAppends(hs: seq<Header>, h: Header)
    requires forall i :: 0 <= i < |hs| ==> hs[i].key != h.key
    ensures SetHeader(hs, h.key, h.value) == hs + [h]
  {
    if hs != [] {
      NewKeyAppends(hs[1..], h);
    }
  }

  /** Storing a header replaces what was stored under the same key and touches no other. */
  lemma {:induction false} SetHeaderLookUp(hs: seq<Header>, key: seq<byte>, value: seq<byte>, k: seq<byte>)
    ensures FirstExact(SetHeader(hs, key, value), k) == if k == key then Some(value) else FirstExact(hs, k)
  {
    if hs != [] && hs[0].key != key {
      SetHeaderLookUp(hs[1..], key, value, k);
    }
  }

  lemma SkipSpaceIs(s: seq<byte>, i: nat, r: nat)
    requires i <= r <= |s| && (forall j :: i <= j < r ==> IsSpace(s[j])) && (r < |s| ==> !IsSpace(s[r]))
    ensures SkipSpace(s, i) == r
  {
  }

  /** Any header line: what precedes the first colon is the key, what follows the white space after it the value, and
      from then on the key is looked up as that value; a line without a colon is an error. */
  lemma AnyHeaderLine(p: Parser, key: seq<byte>, space: seq<byte>, value: seq<byte>)
    requires COLON !in key && (forall i :: 0 <= i < |space| ==> IsSpace(space[i]))
    requires value != [] ==> !IsSpace(value[0])
    ensures var q := OnHeaderLine(p, key + [COLON] + space + value);
            && q == p.(request := p.request.(headers := q.request.headers), keepAlive := q.keepAlive)
            && q.keepAlive == KeepAliveAfter([Header(key, value)], p.keepAlive)
            && forall k :: FirstExact(q.request.headers, k) ==
                 if k == key then Some(value) else FirstExact(p.request.headers, k)
    ensures OnHeaderLine(p, key) == p.(state := Error)
  {
    var line, colon, start := key + [COLON] + space + value, |key|, |key| + 1 + |space|;
    assert line[colon] == COLON && line[..colon] == key && line[start..] == value;
    assert forall j :: colon + 1 <= j < start ==> line[j] == space[j - colon - 1];
    FindIs(line, COLON, 0, colon);
    FindIs(key, COLON, 0, |key|);
    SkipSpaceIs(line, colon + 1, start);
    forall k
      ensures FirstExact(SetHeader(p.request.headers, key, value), k) ==
              if k == key then Some(value) else FirstExact(p.request.headers, k)
    {
      SetHeaderLookUp(p.request.headers, key, value, k);
    }
    hide Find, SkipSpace, SetHeader, FirstExact;
  }

  lemma HeaderLineRead(p: Parser, h: Header)
    requires GoodHeader(h) && forall i :: 0 <= i < |p.request.headers| ==> p.request.headers[i].key != h.key
    ensures OnHeaderLine(p, HeaderLineOf(h)) ==
            p.(request := p.request.(headers := p.request.headers + [h]),
               keepAlive := KeepAliveAfter([h], p.keepAlive))
  {
    var line, n := HeaderLineOf(h), |h.key|;
    assert line[n] == COLON && line[n + 1] == SP && line[..n] == h.key && line[n + 2..] == h.value;
    NewKeyAppends(p.request.headers, h);
  }

  /** A framed line is read as one step. */
  lemma LineRead(p: Parser, line: seq<byte>, rest: seq<byte>)
    requires (p.state.StartLine? || p.state.Headers?) && FirstCrlf(line).None? && !OnLine(p, line).state.Error?
    ensures Parse(p, line + CRLF + rest) == Parse(OnLine(p, line), rest)
  {
    LineFraming(line, rest);
    var buf := line + CRLF + rest;
    assert buf[..|line|] == line && buf[|line| + 2..] == rest;
  }

  lemma {:induction false} HeadersRead(p: Parser, hs: seq<Header>, rest: seq<byte>)
    requires p.state.Headers? && DistinctKeys(p.request.headers + hs)
    requires forall i :: 0 <= i < |hs| ==> GoodHeader(hs[i])
    ensures Parse(p, RenderHeaders(hs) + rest) ==
            Parse(p.(request := p.request.(headers := p.request.headers + hs),
                     keepAlive := KeepAliveAfter(hs, p.keepAlive)), rest)
    decreases |hs|
  {
    var done := p.request.headers;
    if hs == [] {
      assert RenderHeaders(hs) + rest == rest && done + hs == done;
    } else {
      var h, line, more := hs[0], HeaderLineOf(hs[0]), RenderHeaders(hs[1..]);
      assert done + hs == done + [h] + hs[1..];
      KeysBefore(done, hs);
      HeaderLineRead(p, h);
      Assoc(line + CRLF, more, rest);
      LineRead(p, line, more + rest);
      HeadersRead(OnHeaderLine(p, line), hs[1..], rest);
    }
  }

  lemma KeysBefore(done: seq<Header>, hs: seq<Header>)
    requires DistinctKeys(done + hs) && hs != []
    ensures forall i :: 0 <= i < |done| ==> done[i].key != hs[0].key
  {
    assert (done + hs)[|done|] == hs[0];
    assert forall i :: 0 <= i < |done| ==> done[i] == (done + hs)[i];
  }

  lemma BodyRead(p: Parser, r: Request, rest: seq<byte>)
    requires p.state.Headers? && p.request == r.(body := []) && GoodBody(r)
    ensures var (q, left) := Parse(p, CRLF + r.body + rest);
            q.state.Complete? && q.request == r && q.keepAlive == p.keepAlive && left == rest
  {
    assert [] + CRLF + (r.body + rest) == CRLF + r.body + rest;
    LineRead(p, [], r.body + rest);
    var q := OnBlankLine(p);
    if q.state.Body? {
      assert (r.body + rest)[..|r.body|] == r.body && (r.body + rest)[|r.body|..] == rest;
    } else {
      assert r.body + rest == rest;
    }
  }

  /** A well-formed request is read back exactly, and what follows it is left alone. */
  lemma RequestRoundTrip(r: Request, rest: seq<byte>)
    requires WellFormed(r)
    ensures var (q, left) := Parse(INIT, Render(r) + rest);
            q.state.Complete? && q.request == r && q.keepAlive == KeepAliveAfter(r.headers, true) && left == rest
  {
    var start, headers, tail := StartLineOf(r), RenderHeaders(r.headers), CRLF + r.body + rest;
    RenderSplit(r, rest);
    StartLineRead(INIT, r);
    LineRead(INIT, start, headers + tail);
    var p := OnStartLine(INIT, start);
    assert p.request.headers + r.headers == r.headers;
    HeadersRead(p, r.headers, tail);
    var q := p.(request := p.request.(headers := r.headers), keepAlive := KeepAliveAfter(r.headers, true));
    BodyRead(q, r, rest);
  }

  lemma RenderSplit(r: Request, rest: seq<byte>)
    ensures Render(r) + rest == StartLineOf(r) + CRLF + (RenderHeaders(r.headers) + (CRLF + r.body + rest))
  {
  }

  function RenderAll(rs: seq<Request>): seq<byte> {
    if rs == [] then [] else Render(rs[0]) + RenderAll(rs[1..])
  }

  lemma {:induction false} ServesAll(rs: seq<Request>, rest: seq<byte>)
    requires forall i :: 0 <= i < |rs| ==> WellFormed(rs[i])
    ensures var s := Serve(INIT, rest);
            Serve(INIT, RenderAll(rs) + rest) == s.(requests := rs + s.requests)
    decreases |rs|
  {
    hide Render, Parse;
    var after := Serve(INIT, rest).requests;
    if rs == [] {
      assert RenderAll(rs) + rest == rest && rs + after == after;
    } else {
      Assoc(Render(rs[0]), RenderAll(rs[1..]), rest);
      RequestRoundTrip(rs[0], RenderAll(rs[1..]) + rest);
      ServesAll(rs[1..], rest);
      Assoc([rs[0]], rs[1..], after);
      assert [rs[0]] + rs[1..] == rs;
    }
  }

  /** Pipelined requests, cut into chunks anywhere, are served as exactly those requests in that order, followed
      by whatever the bytes after them amount to. */
  lemma PipelinedRequests(rs: seq<Request>, rest: seq<byte>, chunks: seq<seq<byte>>)
    requires forall i :: 0 <= i < |rs| ==> WellFormed(rs[i])
    requires Concat(chunks) == RenderAll(rs) + rest
    ensures var s := Serve(INIT, rest);
            FeedSession(Session([], INIT, []), chunks) == s.(requests := rs + s.requests)
  {
    FeedSessionFrom(INIT, [], chunks);
    assert [] + Concat(chunks) == Concat(chunks);
    ServesAll(rs, rest);
  }

  // ---------- Content-Length as it is written ----------

  /** A length written in decimal is read as itself, for every size a size_t holds, and only for those. */
  lemma ContentLengthRoundTrip(n: nat)
    ensures Stoul(Decimal(n)) == if n < 0x1_0000_0000_0000_0000 then Some(n) else None
  {
    assert Decimal(n)[0..|Decimal(n)|] == Decimal(n);
    DecimalRead(n);
  }
}
