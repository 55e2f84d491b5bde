/** The growable byte queue under every connection: two indices into one array. */
module Buffers {
  import opened Bytes

  const INITIAL_SIZE: nat := 1024
  const CHEAP_PREPEND: nat := 8
  const MAX_CAPACITY: nat := 64 * 1024 * 1024
  const EXTRA_BUFFER: nat := 65536

  // ---------- the byte queue the buffer stands for ----------

  /** What is left after consuming n bytes; consuming too much empties the queue. */
  function Drop(s: seq<byte>, n: nat): seq<byte> {
    if n < |s| then s[n..] else []
  }

  function Take(s: seq<byte>, n: nat): seq<byte> {
    if n < |s| then s[..n] else s
  }

  /** What is taken and what is left are the whole, and what is taken is as long as asked for, as far as it goes. */
  lemma TakeAndDrop(s: seq<byte>, n: nat)
    ensures Take(s, n) + Drop(s, n) == s
    ensures |Take(s, n)| == (if n <= |s| then n else |s|)
  {
  }

  // ---------- the line terminator search ----------

  predicate CrlfAt(s: seq<byte>, i: nat) {
    i + 2 <= |s| && s[i] == CR && s[i + 1] == LF
  }

  function CrlfFrom(s: seq<byte>, i: nat): (r: Option<nat>)
    requires i <= |s|
    ensures r.Some? ==> i <= r.value && CrlfAt(s, r.value) && forall j: nat :: i <= j < r.value ==> !CrlfAt(s, j)
    ensures r.None? ==> forall j: nat :: i <= j ==> !CrlfAt(s, j)
    decreases |s| - i
  {
    if |s| < i + 2 then None
    else if CrlfAt(s, i) then Some(i)
    else CrlfFrom(s, i + 1)
  }

  /** The first CRLF of s. */
  function FirstCrlf(s: seq<byte>): Option<nat> {
    CrlfFrom(s, 0)
  }

  /** A CRLF that was found stays the first one however many bytes follow. */
  lemma CrlfStable(a: seq<byte>, b: seq<byte>)
    requires FirstCrlf(a).Some?
    ensures FirstCrlf(a + b) == FirstCrlf(a)
  {
    var i := FirstCrlf(a).value;
    assert CrlfAt(a + b, i);
    assert forall j: nat :: j < i ==> CrlfAt(a + b, j) == CrlfAt(a, j);
  }

  /** A line is framed by its terminator exactly when it holds no CRLF itself. */
  lemma LineFraming(line: seq<byte>, rest: seq<byte>)
    ensures FirstCrlf(line + CRLF + rest) == Some(|line|) <==> FirstCrlf(line).None?
  {
    var s := line + CRLF + rest;
    assert CrlfAt(s, |line|);
    if FirstCrlf(line).None? {
      assert forall j: nat :: j + 2 <= |line| ==> CrlfAt(s, j) == CrlfAt(line, j);
    } else {
      assert s == line + (CRLF + rest);
      CrlfStable(line, CRLF + rest);
    }
  }

  // ---------- where the queue lies in the array ----------

  /** What a read system call may answer. An empty Data is end of file. */
  datatype ReadResult = Data(bytes: seq<byte>) | Failed(wouldBlock: bool)

  /** The two indices and the size of the array. */
  datatype Layout = Layout(reader: nat, writer: nat, size: nat) {
    predicate Good() {
      CHEAP_PREPEND <= reader <= writer <= size <= MAX_CAPACITY
    }

    /** The request for len bytes can be met: there is room, compaction makes it, or the array may grow. */
    predicate Fits(len: nat)
      requires Good()
    {
      || len <= size - writer
      || len + CHEAP_PREPEND <= size - writer + reader
      || writer + len <= MAX_CAPACITY
    }

    function Retrieved(len: nat): Layout
      requires Good()
    {
      if len < writer - reader then this.(reader := reader + len) else Layout(CHEAP_PREPEND, CHEAP_PREPEND, size)
    }

    /** Grown, up to the cap, if even compaction would not make room; otherwise compacted if need be. */
    function Reserved(len: nat): (l: Layout)
      requires Good()
      ensures l.Good() && l.writer - l.reader == writer - reader
      ensures len <= l.size - l.writer <==> Fits(len)
    {
      if len <= size - writer then this
      else if size - writer + reader < len + CHEAP_PREPEND then
        this.(size := if writer + len > MAX_CAPACITY then MAX_CAPACITY else writer + len)
      else Layout(CHEAP_PREPEND, CHEAP_PREPEND + (writer - reader), size)
    }

    function Appended(len: nat): Layout
      requires Good() && Fits(len)
    {
      var l := Reserved(len);
      l.(writer := l.writer + len)
    }

    /** How much one readv can deliver into the free tail and the spill area on the stack. */
    function IovCapacity(): nat
      requires Good()
    {
      size - writer + if size - writer < EXTRA_BUFFER then EXTRA_BUFFER else 0
    }

    /** The bytes the kernel delivered can be stored: what overflows the tail is appended from the spill area. */
    predicate Receivable(r: ReadResult)
      requires Good()
    {
      r.Data? ==>
        && |r.bytes| <= IovCapacity()
        && (|r.bytes| > size - writer ==> this.(writer := size).Fits(|r.bytes| - (size - writer)))
    }

    function Received(r: ReadResult): Layout
      requires Good() && Receivable(r)
    {
      if r.Failed? then this
      else if |r.bytes| <= size - writer then this.(writer := writer + |r.bytes|)
      else this.(writer := size).Appended(|r.bytes| - (size - writer))
    }
  }

  const FRESH := Layout(CHEAP_PREPEND, CHEAP_PREPEND, CHEAP_PREPEND + INITIAL_SIZE)

  /** The array grows only when neither the tail nor compaction would do, to just the size asked for or the cap; the
      unread bytes stay in place then, and move to the front only for want of room behind them. */
  lemma GrowsOnlyIfNeeded(l: Layout, len: nat)
    requires l.Good()
    ensures var m := l.Reserved(len);
            && (m.size > l.size ==> m.reader == l.reader && m.size - l.writer <= len)
            && (m.size > l.size <==> l.size < MAX_CAPACITY && l.size - l.writer < len
                                     && l.size - (l.writer - l.reader) < len + CHEAP_PREPEND)
            && (m.reader != l.reader ==> m.reader == CHEAP_PREPEND && l.size - l.writer < len)
            && m.size >= l.size
  {
  }

  /** Consuming everything rewinds both indices to the front; consuming less moves only the reader. */
  lemma EmptyingRewinds(l: Layout, len: nat)
    requires l.Good()
    ensures l.Retrieved(len) ==
            if l.reader + len >= l.writer then Layout(8, 8, l.size) else Layout(l.reader + len, l.writer, l.size)
  {
  }

  /** What one read may bring: as much as the tail takes, and if that is less than 64 KiB, as much again as 64 KiB; if
      it overflows the tail there must be room for the overflow. */
  lemma ReadsReceivable(l: Layout, bytes: seq<byte>)
    requires l.Good()
    ensures var tail := l.size - l.writer;
            l.Receivable(Data(bytes)) <==>
            || |bytes| <= tail
            || (tail < 65536 && |bytes| <= tail + 65536
                && (l.writer - l.reader + |bytes| + 8 <= l.size || l.writer + |bytes| <= 64 * 1024 * 1024))
  {
  }

  /** A capacity condition on the number of unread bytes alone, whatever the indices are. */
  lemma FitsByContents(l: Layout, len: nat)
    requires l.Good() && (l.writer - l.reader) + 2 * len + CHEAP_PREPEND <= MAX_CAPACITY
    ensures l.Fits(len)
  {
  }

  // ---------- the two-index array ----------

  class Buffer {
    var data: array<byte>
    var reader: nat
    var writer: nat

    function Shape(): Layout
      reads this, data
    {
      Layout(reader, writer, data.Length)
    }

    ghost predicate Valid()
      reads this, data
    {
      Shape().Good()
    }

    ghost function Contents(): seq<byte>
      reads this, data
      requires Valid()
    {
      data[reader..writer]
    }

    function ReadableBytes(): nat
      reads this, data
      requires Valid()
    {
      writer - reader
    }

    function WritableBytes(): nat
      reads this, data
      requires Valid()
    {
      data.Length - writer
    }

    function PrependableBytes(): nat
      reads this
    {
      reader
    }

    predicate Fits(len: nat)
      reads this, data
      requires Valid()
    {
      Shape().Fits(len)
    }

    predicate Receivable(r: ReadResult)
      reads this, data
      requires Valid()
    {
      Shape().Receivable(r)
    }

    /** The first n unread bytes. */
    method Peek(n: nat) returns (bytes: seq<byte>)
      requires Valid() && n <= ReadableBytes()
      ensures bytes == Contents()[..n]
    {
      bytes := data[reader..reader + n];
    }

    constructor (initialSize: nat := INITIAL_SIZE)
      requires CHEAP_PREPEND + initialSize <= MAX_CAPACITY
      ensures Valid() && fresh(data)
      ensures Contents() == [] && Shape() == Layout(CHEAP_PREPEND, CHEAP_PREPEND, CHEAP_PREPEND + initialSize)
    {
      data := new byte[CHEAP_PREPEND + initialSize](_ => 0);
      reader, writer := CHEAP_PREPEND, CHEAP_PREPEND;
    }

    method RetrieveAll()
      requires Valid()
      modifies this
      ensures Valid() && data == old(data)
      ensures Contents() == [] && Shape() == Layout(CHEAP_PREPEND, CHEAP_PREPEND, data.Length)
    {
      reader, writer := CHEAP_PREPEND, CHEAP_PREPEND;
    }

    method Retrieve(len: nat)
      requires Valid()
      modifies this
      ensures Valid() && data == old(data)
      ensures Contents() == Drop(old(Contents()), len) && Shape() == old(Shape()).Retrieved(len)
    {
      if len < ReadableBytes() {
        reader := reader + len;
      } else {
        RetrieveAll();
      }
    }

    method RetrieveAsString(len: nat) returns (result: seq<byte>)
      requires Valid()
      modifies this
      ensures Valid() && data == old(data)
      ensures result == Take(old(Contents()), len)
      ensures Contents() == Drop(old(Contents()), len) && Shape() == old(Shape()).Retrieved(len)
    {
      var n := if len < ReadableBytes() then len else ReadableBytes();
      result := data[reader..reader + n];
      Retrieve(n);
    }

    /** Room for len bytes is there afterwards exactly when the request fits; the queue never changes. */
    method EnsureWritable(len: nat)
      requires Valid()
      modifies this, data
      ensures Valid() && (data == old(data) || fresh(data))
      ensures Contents() == old(Contents())
      ensures Shape() == old(Shape()).Reserved(len)
      ensures len <= WritableBytes() <==> old(Fits(len))
    {
      if WritableBytes() < len {
        MakeSpace(len);
      }
    }

    method MakeSpace(len: nat)
      requires Valid() && WritableBytes() < len
      modifies this, data
      ensures Valid() && (data == old(data) || fresh(data))
      ensures Contents() == old(Contents())
      ensures Shape() == old(Shape()).Reserved(len)
      ensures len <= WritableBytes() <==> old(Fits(len))
    {
      if WritableBytes() + PrependableBytes() < len + CHEAP_PREPEND {
        var newSize := writer + len;
        if newSize > MAX_CAPACITY {
          newSize := MAX_CAPACITY;
        }
        var grown := new byte[newSize](_ => 0);
        forall i | 0 <= i < data.Length {
          grown[i] := data[i];
        }
        data := grown;
      } else {
        var readable := ReadableBytes();
        forall i | 0 <= i < readable {
          data[CHEAP_PREPEND + i] := data[reader + i];
        }
        reader := CHEAP_PREPEND;
        writer := reader + readable;
      }
    }

    /** Copy bytes into the free tail and count them as written. */
    method StoreTail(bytes: seq<byte>)
      requires Valid() && |bytes| <= WritableBytes()
      modifies this, data
      ensures Valid() && data == old(data)
      ensures Contents() == old(Contents()) + bytes
      ensures Shape() == old(Shape()).(writer := old(writer) + |bytes|)
    {
      forall i | 0 <= i < |bytes| {
        data[writer + i] := bytes[i];
      }
      assert data[reader..writer] == old(data[reader..writer]);
      assert data[writer..writer + |bytes|] == bytes;
      writer := writer + |bytes|;
    }

    method Append(bytes: seq<byte>)
      requires Valid() && Fits(|bytes|)
      modifies this, data
      ensures Valid() && (data == old(data) || fresh(data))
      ensures Contents() == old(Contents()) + bytes
      ensures Shape() == old(Shape()).Appended(|bytes|)
      ensures |bytes| <= old(WritableBytes()) ==> WritableBytes() == old(WritableBytes()) - |bytes|
    {
      EnsureWritable(|bytes|);
      StoreTail(bytes);
    }

    method ReadFd(r: ReadResult) returns (n: int)
      requires Valid() && Receivable(r)
      modifies this, data
      ensures Valid() && (data == old(data) || fresh(data))
      ensures n == if r.Data? then |r.bytes| else -1
      ensures Contents() == old(Contents()) + if r.Data? then r.bytes else []
      ensures Shape() == old(Shape()).Received(r)
    {
      if r.Failed? {
        return -1;
      }
      n := |r.bytes|;
      var writable := WritableBytes();
      if n <= writable {
        StoreTail(r.bytes);
      } else {
        StoreTail(r.bytes[..writable]);
        Append(r.bytes[writable..]);
        assert r.bytes[..writable] + r.bytes[writable..] == r.bytes;
      }
    }

    method FindCrlf() returns (r: Option<nat>)
      requires Valid()
      ensures r == FirstCrlf(Contents())
    {
      var i := reader;
      while i + 2 <= writer
        invariant reader <= i <= writer
        invariant forall j: nat :: j < i - reader ==> !CrlfAt(Contents(), j)
        decreases writer - i
      {
        if data[i] == CR && data[i + 1] == LF {
          assert CrlfAt(Contents(), i - reader);
          return Some(i - reader);
        }
        assert !CrlfAt(Contents(), i - reader);
        i := i + 1;
      }
      return None;
    }
  }

  // ---------- whole runs of one buffer ----------

  datatype Op =
    | Append(bytes: seq<byte>)
    | Retrieve(n: nat)
    | RetrieveAsString(n: nat)
    | Reserve(n: nat)
    | ReadFd(r: ReadResult)

  /** What an operation does to a plain byte queue. */
  function QueueStep(q: seq<byte>, op: Op): seq<byte> {
    match op
    case Append(bytes) => q + bytes
    case Retrieve(n) => Drop(q, n)
    case RetrieveAsString(n) => Drop(q, n)
    case Reserve(_) => q
    case ReadFd(r) => if r.Data? then q + r.bytes else q
  }

  function Output(q: seq<byte>, op: Op): seq<byte> {
    if op.RetrieveAsString? then Take(q, op.n) else []
  }

  function QueueRun(q: seq<byte>, ops: seq<Op>): (seq<byte>, seq<byte>)
    decreases |ops|
  {
    if ops == [] then ([], q)
    else
      var (out, left) := QueueRun(QueueStep(q, ops[0]), ops[1..]);
      (Output(q, ops[0]) + out, left)
  }

  /** What an operation does to the layout. */
  function LayoutStep(l: Layout, op: Op): (m: Layout)
    requires l.Good() && Admissible(l, op)
    ensures m.Good()
  {
    match op
    case Append(bytes) => l.Appended(|bytes|)
    case Retrieve(n) => l.Retrieved(n)
    case RetrieveAsString(n) => l.Retrieved(n)
    case Reserve(n) => l.Reserved(n)
    case ReadFd(r) => l.Received(r)
  }

  /** Room can be had for what is to be stored, under the cap. */
  predicate Admissible(l: Layout, op: Op)
    requires l.Good()
  {
    match op
    case Append(bytes) => l.Fits(|bytes|)
    case ReadFd(r) => l.Receivable(r)
    case _ => true
  }

  predicate AdmissibleRun(l: Layout, ops: seq<Op>)
    requires l.Good()
    decreases |ops|
  {
    ops == [] || (Admissible(l, ops[0]) && AdmissibleRun(LayoutStep(l, ops[0]), ops[1..]))
  }

  /** Perform one operation on the buffer, and on the queue it stands for. */
  method Perform(b: Buffer, op: Op) returns (out: seq<byte>)
    requires b.Valid() && Admissible(b.Shape(), op)
    modifies b, b.data
    ensures b.Valid() && (b.data == old(b.data) || fresh(b.data))
    ensures b.Contents() == QueueStep(old(b.Contents()), op) && b.Shape() == LayoutStep(old(b.Shape()), op)
    ensures out == Output(old(b.Contents()), op)
  {
    out := [];
    match op {
      case Append(bytes) =>
        b.Append(bytes);
      case Retrieve(n) =>
        b.Retrieve(n);
      case RetrieveAsString(n) =>
        out := b.RetrieveAsString(n);
      case Reserve(n) =>
        b.EnsureWritable(n);
      case ReadFd(r) =>
        var _ := b.ReadFd(r);
    }
  }

  /** Every run of a buffer that never asks for room past the cap reads out and leaves what the same run of a byte
      queue does. */
  method RunBuffer(ops: seq<Op>) returns (out: seq<byte>, left: seq<byte>)
    requires AdmissibleRun(FRESH, ops)
    ensures out == QueueRun([], ops).0 && left == QueueRun([], ops).1
  {
    hide LayoutStep, QueueStep, Output, Admissible;
    var b := new Buffer();
    var todo := ops;
    out := [];
    while todo != []
      invariant b.Valid() && fresh(b) && fresh(b.data)
      invariant AdmissibleRun(b.Shape(), todo)
      invariant QueueRun([], ops).0 == out + QueueRun(b.Contents(), todo).0
      invariant QueueRun([], ops).1 == QueueRun(b.Contents(), todo).1
      decreases |todo|
    {
      var produced := Perform(b, todo[0]);
      out, todo := out + produced, todo[1..];
    }
    left := b.data[b.reader..b.writer];
  }
}
