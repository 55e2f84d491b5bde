/** The codec over a Buffer, and the drain loop of the server. */
module RpcCodecs {
  import opened Bytes
  import opened Buffers
  import opened RpcSpec

  method EncodeMessage(msg: RpcMessage) returns (buf: Buffer)
    requires CHEAP_PREPEND + |Encode(msg)| <= MAX_CAPACITY
    ensures fresh(buf) && fresh(buf.data) && buf.Valid()
    ensures buf.Contents() == Encode(msg)
  {
    buf := new Buffer();
    buf.EnsureWritable(4 + 1 + 1 + 8 + 2 + |msg.method_| + 4 + |msg.payload|);
    AppendHeader(buf, msg);
    buf.Append(msg.method_);
    buf.Append(LE(|msg.payload|, 4));
    buf.Append(msg.payload);
  }

  method AppendHeader(buf: Buffer, msg: RpcMessage)
    requires buf.Valid() && buf.Contents() == [] && buf.WritableBytes() >= 16
    modifies buf, buf.data
    ensures buf.Valid() && (buf.data == old(buf.data) || fresh(buf.data))
    ensures buf.Contents() == Header(msg) && buf.WritableBytes() == old(buf.WritableBytes()) - 16
  {
    hide LE, Layout.Appended, Layout.Reserved;
    buf.Append(LE(MAGIC, 4));
    assert buf.Contents() == LE(MAGIC, 4);
    buf.Append([VERSION]);
    buf.Append([msg.kind]);
    buf.Append(LE(msg.requestId, 8));
    buf.Append(LE(|msg.method_|, 2));
  }

  /** Take the first message out of the buffer. A failed decode changes neither the buffer nor the output. */
  method DecodeMessage(buf: Buffer, out: RpcMessage) returns (ok: bool, msg: RpcMessage)
    requires buf.Valid()
    modifies buf
    ensures buf.Valid() && buf.data == old(buf.data)
    ensures ok <==> Decode(old(buf.Contents())).Some?
    ensures ok ==> var d := Decode(old(buf.Contents())).value;
                   msg == d.msg && buf.Contents() == old(buf.Contents())[d.length..]
    ensures !ok ==> msg == out && buf.Contents() == old(buf.Contents())
  {
    hide FromLE;
    ok, msg := false, out;
    var readable := buf.ReadableBytes();
    if readable < 16 {
      return;
    }
    var p := buf.Peek(readable);
    assert p == buf.Contents();
    if FromLE(p[0..4]) != MAGIC {
      return;
    }
    if p[4] != VERSION {
      return;
    }
    var methodLen := FromLE(p[14..16]);
    var headerSize := 16 + methodLen + 4;
    if readable < headerSize {
      return;
    }
    var bodyLen := FromLE(p[16 + methodLen..20 + methodLen]);
    var total := headerSize + bodyLen;
    if readable < total {
      return;
    }
    IdBound(p[6..14]);
    msg := RpcMessage(p[5], FromLE(p[6..14]), p[16..16 + methodLen], p[headerSize..total]);
    buf.Retrieve(total);
    ok := true;
  }

  /** Decode until the buffer holds no complete message. */
  method DrainBuffer(buf: Buffer) returns (msgs: seq<RpcMessage>)
    requires buf.Valid()
    modifies buf
    ensures buf.Valid() && buf.data == old(buf.data)
    ensures Drained(msgs, buf.Contents()) == Drain(old(buf.Contents()))
  {
    hide Decode;
    msgs := [];
    var ok, msg := DecodeMessage(buf, RpcMessage(1, 0, [], []));
    ghost var unread := old(buf.Contents());
    while ok
      invariant buf.Valid() && buf.data == old(buf.data)
      invariant ok <==> Decode(unread).Some?
      invariant ok ==> msg == Decode(unread).value.msg && buf.Contents() == unread[Decode(unread).value.length..]
      invariant !ok ==> buf.Contents() == unread
      invariant Drain(old(buf.Contents())).msgs == msgs + Drain(unread).msgs
      invariant Drain(old(buf.Contents())).rest == Drain(unread).rest
      decreases |unread|
    {
      msgs := msgs + [msg];
      unread := buf.Contents();
      ok, msg := DecodeMessage(buf, msg);
    }
  }
}
