/** The LNRP message format: one message as bytes, and a byte stream as messages. */
module RpcSpec {
  import opened Bytes

  const MAGIC: nat := 0x4C4E5250
  const VERSION: byte := 1
  const ID_LIMIT: nat := 0x1_0000_0000_0000_0000

  type RequestId = id: nat | id < ID_LIMIT

  /** The kind is the byte on the wire: 1 request, 2 response, 3 one-way; a decoder accepts any. */
  datatype RpcMessage = RpcMessage(kind: byte, requestId: RequestId, method_: seq<byte>, payload: seq<byte>)

  datatype Decoded = Decoded(msg: RpcMessage, length: nat)

  // ---------- one message ----------

  function Header(m: RpcMessage): (h: seq<byte>)
    ensures |h| == 16
  {
    LE(MAGIC, 4) + [VERSION] + [m.kind] + LE(m.requestId, 8) + LE(|m.method_|, 2)
  }

  function Encode(m: RpcMessage): seq<byte> {
    Header(m) + m.method_ + LE(|m.payload|, 4) + m.payload
  }

  /** The first message of b, and how many bytes it takes; None when it is not there yet, or is no message. */
  function Decode(b: seq<byte>): (r: Option<Decoded>)
    ensures r.Some? ==> 20 <= r.value.length <= |b|
  {
    if |b| < 16 || Field(b, 0, 4) != MAGIC || b[4] != VERSION then None
    else
      var headerSize := 16 + Field(b, 14, 2) + 4;
      if |b| < headerSize then None
      else
        var total := headerSize + Field(b, headerSize - 4, 4);
        if |b| < total then None
        else
          IdBound(b[6..14]);
          Some(Decoded(RpcMessage(b[5], Field(b, 6, 8), b[16..headerSize - 4], b[headerSize..total]), total))
  }

  lemma IdBound(b: seq<byte>)
    requires |b| == 8
    ensures FromLE(b) < ID_LIMIT
  {
    LoadBound(b);
  }

  lemma HeaderFields(m: RpcMessage, rest: seq<byte>)
    ensures var b := Header(m) + rest;
            && Field(b, 0, 4) == 0x4C4E5250 && b[4] == 1 && b[5] == m.kind && Field(b, 6, 8) == m.requestId
            && Field(b, 14, 2) == |m.method_| % 0x1_0000
  {
    var b := Header(m) + rest;
    LoadField(MAGIC, 4);
    LoadField(m.requestId, 8);
    LoadAfterStore(|m.method_|, 2);
    assert b[0..4] == LE(MAGIC, 4) && b[6..14] == LE(m.requestId, 8) && b[14..16] == LE(|m.method_|, 2);
  }

  /** The lengths fit the two length fields. */
  predicate Fits(m: RpcMessage) {
    |m.method_| < 0x1_0000 && |m.payload| < 0x1_0000_0000
  }

  lemma BodyFields(m: RpcMessage, rest: seq<byte>)
    requires Fits(m)
    ensures var b, n := Encode(m) + rest, |m.method_|;
            && b[16..16 + n] == m.method_ && Field(b, 16 + n, 4) == |m.payload|
            && b[20 + n..20 + n + |m.payload|] == m.payload
  {
    var b, n := Encode(m) + rest, |m.method_|;
    LoadField(|m.payload|, 4);
    assert b[16 + n..20 + n] == LE(|m.payload|, 4);
  }

  /** Decoding undoes encoding, whatever follows, exactly when both lengths fit their fields. */
  lemma RoundTrip(m: RpcMessage, rest: seq<byte>)
    ensures Decode(Encode(m) + rest) == Some(Decoded(m, |Encode(m)|)) <==> Fits(m)
  {
    hide FromLE, LE;
    var b := Encode(m) + rest;
    assert b == Header(m) + (m.method_ + LE(|m.payload|, 4) + m.payload + rest);
    HeaderFields(m, m.method_ + LE(|m.payload|, 4) + m.payload + rest);
    if Fits(m) {
      BodyFields(m, rest);
    } else if Decode(b).Some? {
      LengthsBounded(b);
    }
  }

  lemma LengthsBounded(b: seq<byte>)
    requires Decode(b).Some?
    ensures Fits(Decode(b).value.msg)
  {
    LoadBound(b[14..16]);
    var headerSize := 16 + Field(b, 14, 2) + 4;
    LoadBound(b[headerSize - 4..headerSize]);
  }

  /** A decoded message, encoded again, is the bytes it was decoded from. */
  lemma EncodeOfDecoded(b: seq<byte>)
    requires Decode(b).Some?
    ensures Encode(Decode(b).value.msg) == b[..Decode(b).value.length]
  {
    var d := Decode(b).value;
    var n := |d.msg.method_|;
    StoreAfterLoad(b[0..4]);
    StoreAfterLoad(b[6..14]);
    StoreAfterLoad(b[14..16]);
    StoreAfterLoad(b[16 + n..20 + n]);
  }

  /** Bytes that arrive later do not change a message that was there. */
  lemma DecodeStable(a: seq<byte>, b: seq<byte>)
    requires Decode(a).Some?
    ensures Decode(a + b) == Decode(a)
  {
    var c, d := a + b, Decode(a).value;
    var n := |d.msg.method_|;
    assert c[0..4] == a[0..4] && c[6..14] == a[6..14] && c[14..16] == a[14..16];
    assert c[16 + n..20 + n] == a[16 + n..20 + n];
    assert c[16..16 + n] == a[16..16 + n] && c[20 + n..d.length] == a[20 + n..d.length];
  }

  /** A message is not taken before its last byte is there. */
  lemma PrefixWaits(m: RpcMessage, a: seq<byte>)
    requires Fits(m) && a < Encode(m)
    ensures Decode(a).None?
  {
    if Decode(a).Some? {
      var rest := Encode(m)[|a|..];
      assert a + rest == Encode(m) + [];
      DecodeStable(a, rest);
      RoundTrip(m, []);
    }
  }

  // ---------- a stream of messages ----------

  datatype Drained = Drained(msgs: seq<RpcMessage>, rest: seq<byte>)

  /** Decode messages until none is complete. */
  function Drain(b: seq<byte>): Drained
    decreases |b|
  {
    match Decode(b)
    case None => Drained([], b)
    case Some(d) =>
      var more := Drain(b[d.length..]);
      Drained([d.msg] + more.msgs, more.rest)
  }

  lemma {:induction false} DrainInTwo(a: seq<byte>, b: seq<byte>)
    ensures var s := Drain(a); var t := Drain(s.rest + b);
            Drain(a + b) == Drained(s.msgs + t.msgs, t.rest)
    decreases |a|
  {
    hide Decode;
    if Decode(a).Some? {
      var n := Decode(a).value.length;
      DecodeStable(a, b);
      assert (a + b)[n..] == a[n..] + b;
      DrainInTwo(a[n..], b);
    }
  }

  /** Append each chunk to what is left and drain. */
  function Feed(s: Drained, chunks: seq<seq<byte>>): Drained
    decreases |chunks|
  {
    if chunks == [] then s
    else
      var t := Drain(s.rest + chunks[0]);
      Feed(Drained(s.msgs + t.msgs, t.rest), chunks[1..])
  }

  /** However any bytes at all are cut into chunks, the same messages come out and the same rest stays. */
  lemma {:induction false} FragmentationIndependence(a: seq<byte>, chunks: seq<seq<byte>>)
    ensures Feed(Drain(a), chunks) == Drain(a + Concat(chunks))
    decreases |chunks|
  {
    hide Decode, Drain;
    if chunks == [] {
      assert a + Concat(chunks) == a;
    } else {
      DrainInTwo(a, chunks[0]);
      FragmentationIndependence(a + chunks[0], chunks[1..]);
      assert a + chunks[0] + Concat(chunks[1..]) == a + Concat(chunks);
    }
  }

  function EncodeAll(ms: seq<RpcMessage>): seq<byte> {
    if ms == [] then [] else Encode(ms[0]) + EncodeAll(ms[1..])
  }

  lemma {:induction false} DrainsAll(ms: seq<RpcMessage>, tail: seq<byte>)
    requires forall i :: 0 <= i < |ms| ==> Fits(ms[i])
    requires Decode(tail).None?
    ensures Drain(EncodeAll(ms) + tail) == Drained(ms, tail)
    decreases |ms|
  {
    var b := EncodeAll(ms) + tail;
    if ms == [] {
      assert b == tail;
    } else {
      var e, more := Encode(ms[0]), EncodeAll(ms[1..]) + tail;
      assert b == e + more;
      RoundTrip(ms[0], more);
      DrainsAll(ms[1..], tail);
    }
  }

  /** Messages sent one after the other, cut anywhere, come out as exactly those messages in order; of a message
      still under way nothing comes out and every byte stays. */
  lemma StreamRoundTrip(ms: seq<RpcMessage>, next: RpcMessage, tail: seq<byte>, chunks: seq<seq<byte>>)
    requires (forall i :: 0 <= i < |ms| ==> Fits(ms[i])) && Fits(next) && tail < Encode(next)
    requires Concat(chunks) == EncodeAll(ms) + tail
    ensures Feed(Drained([], []), chunks) == Drained(ms, tail)
  {
    PrefixWaits(next, tail);
    DrainsAll(ms, tail);
    FragmentationIndependence([], chunks);
    assert [] + Concat(chunks) == Concat(chunks);
  }
}
