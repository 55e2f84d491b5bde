/** The parser object: it consumes a Buffer line by line, refining HttpSpec.Parse. */
module HttpParsers {
  import opened Bytes
  import opened Buffers
  import opened HttpSpec

  class HttpParser {
    var state: State
    var request: Request
    var contentLength: nat
    var keepAlive: bool

    function View(): Parser
      reads this
    {
      Parser(state, request, contentLength, keepAlive)
    }

    constructor ()
      ensures View() == INIT
    {
      state, request, contentLength, keepAlive := INIT.state, INIT.request, 0, true;
    }

    method Reset()
      modifies this
      ensures View() == INIT
    {
      state, request, contentLength, keepAlive := INIT.state, INIT.request, 0, true;
    }

    method ParseStartLine(line: seq<byte>) returns (ok: bool)
      modifies this`request
      ensures View().(state := if ok then Headers else Error) == OnStartLine(old(View()), line)
    {
      var sp1 := Find(line, SP, 0);
      if sp1 == |line| {
        return false;
      }
      var sp2 := Find(line, SP, sp1 + 1);
      if sp2 == |line| {
        return false;
      }
      request := request.(verb := line[..sp1], path := line[sp1 + 1..sp2], version := line[sp2 + 1..]);
      if |request.version| < 8 || request.version[..5] != HTTP_SLASH {
        return false;
      }
      if request.path == [] || request.path[0] != SLASH {
        return false;
      }
      return true;
    }

    method ParseHeaderLine(line: seq<byte>) returns (ok: bool)
      modifies this`request, this`keepAlive
      ensures View().(state := if ok then old(state) else Error) == OnHeaderLine(old(View()), line)
    {
      var colon := Find(line, COLON, 0);
      if colon == |line| {
        return false;
      }
      var key := line[..colon];
      var start := colon + 1;
      while start < |line| && IsSpace(line[start])
        invariant colon < start <= |line|
        invariant SkipSpace(line, colon + 1) == SkipSpace(line, start)
      {
        start := start + 1;
      }
      var value := line[start..];
      request := request.(headers := SetHeader(request.headers, key, value));
      if key == CONNECTION || key == CONNECTION_LOWER {
        keepAlive := value != CLOSE;
      }
      return true;
    }

    /** Read Content-Length once the headers are complete. */
    method FinishHeaders()
      modifies this`contentLength, this`state
      ensures View() == OnBlankLine(old(View()))
    {
      var cl := LookUp(request.headers, CONTENT_LENGTH);
      if cl != [] {
        match Stoul(cl) {
          case Some(n) => contentLength, state := n, Body;
          case None => state := Thrown;
        }
      } else {
        state := Complete;
      }
    }

    /** Handle the line that ends at the CRLF found at position crlf. */
    method TakeLine(buf: Buffer, crlf: nat)
      requires buf.Valid() && (state.StartLine? || state.Headers?) && FirstCrlf(buf.Contents()) == Some(crlf)
      modifies this, buf
      ensures buf.Valid() && buf.data == old(buf.data)
      ensures Some((View(), buf.Contents())) == Step(old(View()), old(buf.Contents()))
    {
      hide OnHeaderLine, OnStartLine, GetHeader, Stoul, Drop;
      var line := buf.Peek(crlf);
      if state.Headers? && line == [] {
        DropLine(buf, 0);
        FinishHeaders();
        return;
      }
      var ok := JudgeLine(line);
      if ok {
        DropLine(buf, crlf);
      }
    }

    method DropLine(buf: Buffer, crlf: nat)
      requires buf.Valid() && crlf + 2 <= |buf.Contents()|
      modifies buf
      ensures buf.Valid() && buf.data == old(buf.data)
      ensures buf.Contents() == old(buf.Contents())[crlf + 2..]
    {
      buf.Retrieve(crlf + 2);
    }

    method JudgeLine(line: seq<byte>) returns (ok: bool)
      requires state.StartLine? || (state.Headers? && line != [])
      modifies this
      ensures View() == OnLine(old(View()), line)
      ensures ok <==> !state.Error?
    {
      if state.StartLine? {
        ok := ParseStartLine(line);
        state := if ok then Headers else Error;
      } else {
        ok := ParseHeaderLine(line);
        if !ok {
          state := Error;
        }
      }
    }

    /** The body has arrived. */
    method TakeBody(buf: Buffer)
      requires buf.Valid() && state.Body? && |buf.Contents()| >= contentLength
      modifies this, buf
      ensures buf.Valid() && buf.data == old(buf.data)
      ensures Some((View(), buf.Contents())) == Step(old(View()), old(buf.Contents()))
    {
      ghost var before := buf.Contents();
      var body := buf.RetrieveAsString(contentLength);
      assert body == before[..contentLength] && buf.Contents() == before[contentLength..];
      request := request.(body := body);
      state := Complete;
    }

    /** Parse as far as the buffered bytes go. */
    method Parse(buf: Buffer) returns (result: State)
      requires buf.Valid()
      modifies this, buf
      ensures buf.Valid() && buf.data == old(buf.data)
      ensures (View(), buf.Contents()) == HttpSpec.Parse(old(View()), old(buf.Contents()))
      ensures result == state
    {
      while !Done(state)
        invariant buf.Valid() && buf.data == old(buf.data)
        invariant HttpSpec.Parse(old(View()), old(buf.Contents())) == HttpSpec.Parse(View(), buf.Contents())
        decreases |buf.Contents()|, if Done(state) then 0 else 1
      {
        if state.StartLine? || state.Headers? {
          var crlf := buf.FindCrlf();
          if crlf.None? {
            return state;
          }
          TakeLine(buf, crlf.value);
        } else {
          if buf.ReadableBytes() < contentLength {
            return state;
          }
          TakeBody(buf);
        }
      }
      return state;
    }
  }

  method LookUp(headers: seq<Header>, key: seq<byte>) returns (value: seq<byte>)
    ensures value == GetHeader(headers, key)
  {
    var i := 0;
    assert headers[0..] == headers;
    while i < |headers|
      invariant 0 <= i <= |headers| && FirstExact(headers, key) == FirstExact(headers[i..], key)
    {
      if headers[i].key == key {
        return headers[i].value;
      }
      assert headers[i..][1..] == headers[i + 1..];
      i := i + 1;
    }
    i := 0;
    while i < |headers|
      invariant 0 <= i <= |headers| && FirstSimilar(headers, key) == FirstSimilar(headers[i..], key)
    {
      var same := EqualIgnoringCase(headers[i].key, key);
      if same {
        return headers[i].value;
      }
      assert headers[i..][1..] == headers[i + 1..];
      i := i + 1;
    }
    return [];
  }

  method EqualIgnoringCase(a: seq<byte>, b: seq<byte>) returns (same: bool)
    ensures same == SameIgnoringCase(a, b)
  {
    if |a| != |b| {
      return false;
    }
    for i := 0 to |a|
      invariant forall j :: 0 <= j < i ==> Lower(a[j]) == Lower(b[j])
    {
      if Lower(a[i]) != Lower(b[i]) {
        return false;
      }
    }
    return true;
  }

  /** Serve what the buffer holds: parse, and reset after each complete request. */
  method ServeBuffer(parser: HttpParser, buf: Buffer) returns (requests: seq<Request>)
    requires buf.Valid()
    modifies parser, buf
    ensures buf.Valid() && buf.data == old(buf.data)
    ensures Session(requests, parser.View(), buf.Contents()) == Serve(old(parser.View()), old(buf.Contents()))
  {
    hide HttpSpec.Parse, Serve;
    requests := [];
    ghost var all := Serve(parser.View(), buf.Contents());
    ServeParses(parser.View(), buf.Contents());
    var result := parser.Parse(buf);
    while result.Complete?
      invariant buf.Valid() && buf.data == old(buf.data) && result == parser.state
      invariant all == Continued(requests, parser.View(), buf.Contents())
      decreases |buf.Contents()|, result.Complete?
    {
      ghost var rest := buf.Contents();
      ContinueAfter(requests, parser.View(), rest);
      requests := requests + [parser.request];
      parser.Reset();
      result := parser.Parse(buf);
    }
  }

  /** The session that has already served some requests and whose parser has just stopped. */
  function Continued(served: seq<Request>, p: Parser, rest: seq<byte>): Session {
    if p.state.Complete? then
      var s := Serve(INIT, rest);
      s.(requests := served + ([p.request] + s.requests))
    else Session(served, p, rest)
  }

  lemma ServeParses(p: Parser, buf: seq<byte>)
    ensures var (q, rest) := HttpSpec.Parse(p, buf); Serve(p, buf) == Continued([], q, rest)
  {
  }

  lemma ContinueAfter(served: seq<Request>, p: Parser, rest: seq<byte>)
    requires p.state.Complete?
    ensures var (q, left) := HttpSpec.Parse(INIT, rest);
            Continued(served, p, rest) == Continued(served + [p.request], q, left)
  {
  }
}
