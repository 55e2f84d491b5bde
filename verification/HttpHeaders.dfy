/** What header names and lengths mean on the wire, in terms of the characters themselves. */
module HttpHeaders {
  import opened Bytes
  import opened Buffers
  import opened HttpSpec

  /** The names the parser looks for, and what it takes for line ends and spaces. */
  lemma Names()
    ensures CONTENT_LENGTH == Ascii("Content-Length") && CLOSE == Ascii("close")
    ensures CONNECTION == Ascii("Connection") && CONNECTION_LOWER == Ascii("connection")
    ensures HTTP_SLASH == Ascii("HTTP/") && [SLASH] == Ascii("/") && [SP] == Ascii(" ") && [COLON] == Ascii(":")
    ensures CRLF == Ascii("\r\n")
  {
  }

  /** Carriage return, line feed, tab, vertical tab, form feed and space. */
  lemma Spaces(b: byte)
    ensures IsSpace(b) <==> b in {9, 10, 11, 12, 13, 32}
  {
  }

  // ---------- the spelling of a name ----------

  /** The same letter, large or small, or else the same byte. */
  predicate SameLetter(a: byte, b: byte) {
    a == b || (65 <= a <= 90 && b == a + 32) || (65 <= b <= 90 && a == b + 32)
  }

  predicate SpelledLike(a: seq<byte>, b: seq<byte>) {
    |a| == |b| && forall i :: 0 <= i < |a| ==> SameLetter(a[i], b[i])
  }

  lemma IgnoringCase(a: seq<byte>, b: seq<byte>)
    ensures SameIgnoringCase(a, b) <==> SpelledLike(a, b)
  {
    assert forall i :: 0 <= i < |a| && |a| == |b| ==> (Lower(a[i]) == Lower(b[i]) <==> SameLetter(a[i], b[i]));
  }

  /** The length of the body comes from this header alone, however it is spelled. */
  predicate OnlyLengthHeader(hs: seq<Header>, i: nat) {
    && i < |hs| && SpelledLike(hs[i].key, Ascii("Content-Length"))
    && forall j :: 0 <= j < |hs| && j != i ==> !SpelledLike(hs[j].key, Ascii("Content-Length"))
  }

  predicate NoLengthHeader(hs: seq<Header>) {
    forall j :: 0 <= j < |hs| ==> !SpelledLike(hs[j].key, Ascii("Content-Length"))
  }

  predicate GoodHead(r: Request) {
    GoodStartLine(r) && DistinctKeys(r.headers) && forall i :: 0 <= i < |r.headers| ==> GoodHeader(r.headers[i])
  }

  /** A request whose only length header, in any spelling, gives the length of its body is read back with that body;
      so is one without a length header and without a body. */
  lemma BodyOfAnySpelling(r: Request, i: nat, rest: seq<byte>)
    requires GoodHead(r)
    requires if OnlyLengthHeader(r.headers, i) then r.headers[i].value == Decimal(|r.body|) && |r.body| < SIZE_LIMIT
             else NoLengthHeader(r.headers) && r.body == []
    ensures var (q, left) := Parse(INIT, Render(r) + rest);
            q.state.Complete? && q.request == r && left == rest
  {
    Names();
    forall j | 0 <= j < |r.headers|
      ensures SameIgnoringCase(r.headers[j].key, CONTENT_LENGTH) <==>
              SpelledLike(r.headers[j].key, Ascii("Content-Length"))
    {
      IgnoringCase(r.headers[j].key, CONTENT_LENGTH);
    }
    hide SameIgnoringCase, SpelledLike, Parse, Render;
    if OnlyLengthHeader(r.headers, i) {
      LookUpIgnoresCase(r.headers, CONTENT_LENGTH, i);
      ContentLengthRoundTrip(|r.body|);
    } else {
      LookUpIgnoresCase(r.headers, CONTENT_LENGTH, |r.headers|);
    }
    RequestRoundTrip(r, rest);
  }

  /** Of several spellings of a name the one asked for wins, wherever it stands. */
  lemma {:induction false} ExactSpellingWins(hs: seq<Header>, i: nat)
    requires i < |hs| && forall j :: 0 <= j < i ==> hs[j].key != hs[i].key
    ensures GetHeader(hs, hs[i].key) == hs[i].value
  {
    FirstExactAt(hs, i);
  }

  lemma {:induction false} FirstExactAt(hs: seq<Header>, i: nat)
    requires i < |hs| && forall j :: 0 <= j < i ==> hs[j].key != hs[i].key
    ensures FirstExact(hs, hs[i].key) == Some(hs[i].value)
  {
    if i > 0 {
      FirstExactAt(hs[1..], i - 1);
    }
  }

  // ---------- the number in Content-Length ----------

  /** White space, perhaps a sign, digits, and a tail that does not carry on what stands before it. */
  predicate LengthParts(space: seq<byte>, sign: seq<byte>, digits: seq<byte>, tail: seq<byte>) {
    && (forall i :: 0 <= i < |space| ==> space[i] in {9, 10, 11, 12, 13, 32})
    && (sign == [] || sign == [43] || sign == [45])                                                // + or -
    && (forall i :: 0 <= i < |digits| ==> IsDigit(digits[i]))
    && (tail != [] ==> !IsDigit(tail[0]) && (sign + digits == [] ==> tail[0] !in {9, 10, 11, 12, 13, 32, 43, 45}))
  }

  lemma Scanned(space: seq<byte>, sign: seq<byte>, digits: seq<byte>, tail: seq<byte>)
    requires LengthParts(space, sign, digits, tail)
    ensures var s, i, from, end :=
              space + sign + digits + tail, |space|, |space| + |sign|, |space| + |sign| + |digits|;
            && SkipSpace(s, 0) == i && DigitsEnd(s, from) == end && s[from..end] == digits
            && (i < |s| && (s[i] == 43 || s[i] == 45) <==> sign != [])
            && (sign != [] ==> s[i] == sign[0]) && |sign| <= 1
            && forall j :: 0 <= j < |digits| ==> IsDigit(digits[j])
  {
    var s := space + sign + digits + tail;
    var i, from, end := |space|, |space| + |sign|, |space| + |sign| + |digits|;
    assert s[..i] == space && s[i..from] == sign && s[from..end] == digits && s[end..] == tail;
    SpaceScanned(s, i);
    DigitsScanned(s, from, end);
  }

  lemma SpaceScanned(s: seq<byte>, i: nat)
    requires i <= |s| && forall j :: 0 <= j < i ==> s[..i][j] in {9, 10, 11, 12, 13, 32}
    requires i < |s| ==> s[i] !in {9, 10, 11, 12, 13, 32}
    ensures SkipSpace(s, 0) == i
  {
    assert forall j :: 0 <= j < i ==> s[j] == s[..i][j];
    SkipSpaceIs(s, 0, i);
  }

  lemma DigitsScanned(s: seq<byte>, from: nat, end: nat)
    requires from <= end <= |s| && forall j :: 0 <= j < end - from ==> IsDigit(s[from..end][j])
    requires end < |s| ==> !IsDigit(s[end])
    ensures DigitsEnd(s, from) == end
  {
    assert forall j :: from <= j < end ==> s[j] == s[from..end][j - from];
    DigitsEndIs(s, from, end);
  }

  /** Leading white space, then perhaps a sign, then the digits up to the first other byte; a minus counts down from
      2^64, and without digits, or with a number too large, there is an exception. */
  lemma LengthRead(space: seq<byte>, sign: seq<byte>, digits: seq<byte>, tail: seq<byte>)
    requires LengthParts(space, sign, digits, tail)
    ensures Stoul(space + sign + digits + tail) ==
            if digits == [] || DecimalValue(digits) >= SIZE_LIMIT then None
            else if sign == Ascii("-") && DecimalValue(digits) > 0 then Some(SIZE_LIMIT - DecimalValue(digits))
            else Some(DecimalValue(digits))
  {
    hide SkipSpace, DigitsEnd, DecimalValue, Stoul, LengthParts;
    Scanned(space, sign, digits, tail);
    assert Ascii("-") == [45];
    StoulScanned(space + sign + digits + tail, |space|, |space| + |sign|, |space| + |sign| + |digits|, digits);
  }

  lemma StoulScanned(s: seq<byte>, i: nat, from: nat, end: nat, digits: seq<byte>)
    requires i <= from <= end <= |s| && SkipSpace(s, 0) == i && DigitsEnd(s, from) == end && s[from..end] == digits
    requires from == if i < |s| && (s[i] == 43 || s[i] == 45) then i + 1 else i
    requires forall j :: 0 <= j < |digits| ==> IsDigit(digits[j])
    ensures Stoul(s) ==
            if digits == [] || DecimalValue(digits) >= SIZE_LIMIT then None
            else if i < from && s[i] == 45 && DecimalValue(digits) > 0 then Some(SIZE_LIMIT - DecimalValue(digits))
            else Some(DecimalValue(digits))
  {
    hide SkipSpace, DigitsEnd, DecimalValue;
  }

  lemma DigitsEndIs(s: seq<byte>, i: nat, r: nat)
    requires i <= r <= |s| && (forall j :: i <= j < r ==> IsDigit(s[j])) && (r < |s| ==> !IsDigit(s[r]))
    ensures DigitsEnd(s, i) == r
  {
  }

  // ---------- what is not accepted ----------

  /** A bad line stops the parser where it stands: it is not consumed, nor is anything after it. */
  lemma BadLineStays(p: Parser, line: seq<byte>, rest: seq<byte>)
    requires (p.state.StartLine? || p.state.Headers?) && FirstCrlf(line).None? && OnLine(p, line).state.Error?
    ensures Parse(p, line + CRLF + rest) == (OnLine(p, line), line + CRLF + rest)
  {
    LineFraming(line, rest);
    assert (line + CRLF + rest)[..|line|] == line;
  }

  /** A request that asks for the connection to be closed, and one that does not. */
  lemma KeepAlive(r: Request, i: nat, rest: seq<byte>)
    requires WellFormed(r) && i < |r.headers| && r.headers[i].key in {Ascii("Connection"), Ascii("connection")}
    requires forall j :: i < j < |r.headers| ==> r.headers[j].key !in {Ascii("Connection"), Ascii("connection")}
    ensures Parse(INIT, Render(r) + rest).0.keepAlive <==> r.headers[i].value != Ascii("close")
  {
    Names();
    RequestRoundTrip(r, rest);
    LastConnectionHeader(r.headers, i, true);
  }

  lemma {:induction false} LastConnectionHeader(hs: seq<Header>, i: nat, start: bool)
    requires i < |hs| && hs[i].key in {CONNECTION, CONNECTION_LOWER}
    requires forall j :: i < j < |hs| ==> hs[j].key !in {CONNECTION, CONNECTION_LOWER}
    ensures KeepAliveAfter(hs, start) <==> hs[i].value != CLOSE
    decreases |hs|
  {
    var next := if hs[0].key in {CONNECTION, CONNECTION_LOWER} then hs[0].value != CLOSE else start;
    if i > 0 {
      LastConnectionHeader(hs[1..], i - 1, next);
    } else {
      NoConnectionHeader(hs[1..], next);
    }
  }

  lemma {:induction false} NoConnectionHeader(hs: seq<Header>, start: bool)
    requires forall j :: 0 <= j < |hs| ==> hs[j].key !in {CONNECTION, CONNECTION_LOWER}
    ensures KeepAliveAfter(hs, start) == start
    decreases |hs|
  {
    if hs != [] {
      NoConnectionHeader(hs[1..], start);
    }
  }
}
