/** One TCP connection as its owning loop drives it: sending, draining, half-closing, and the two parked coroutines.
    The kernel is an oracle: each event carries the answer its system call gets. */
module ConnectionSpec {
  import opened Bytes
  import opened Buffers

  type Handle = nat

  datatype Phase = Connecting | Connected | Disconnecting | Disconnected

  /** The answer to a write: a byte count or -1, and whether errno then reads EAGAIN / EWOULDBLOCK. */
  datatype WriteResult = WriteResult(n: int, wouldBlock: bool)

  /** What the kernel and the loop have seen of this connection so far. */
  datatype History = History(
    wire: seq<byte>,           // bytes the kernel took, in order
    accepted: seq<byte>,       // bytes of all the sends that were accepted
    received: seq<byte>,       // bytes the kernel delivered
    consumed: seq<byte>,       // bytes the user took from the input buffer
    fins: nat,                 // how often SHUT_WR was issued
    suspended: multiset<Handle>,    // coroutines suspended in a read or a write, once per suspension
    scheduled: multiset<Handle>)    // coroutines handed to the loop for resumption

  datatype Conn = Conn(
    phase: Phase, reading: bool, writing: bool, input: seq<byte>, output: seq<byte>,
    readCoro: Option<Handle>, writeCoro: Option<Handle>, hist: History)
  {
    predicate Open() {
      phase.Connected? || phase.Disconnecting?
    }
  }

  const INIT := Conn(Connecting, false, false, [], [], None, None, History([], [], [], [], 0, multiset{}, multiset{}))

  datatype Event =
    | Establish
    | Send(data: seq<byte>, w: WriteResult)
    | Shutdown
    | ForceClose
    | Closed                                     // handle_close and handle_error
    | Destroyed
    | Readable(r: ReadResult)
    | Writable(w: WriteResult)
    | AwaitRead(h: Handle, hint: nat)
    | ReadSome(r: ReadResult)
    | Consume(n: nat)
    | AwaitWrite(h: Handle, data: seq<byte>, w: WriteResult)

  predicate Answers(w: WriteResult, len: nat) {
    -1 <= w.n <= len
  }

  // ---------- the handlers ----------

  function Written(s: Conn, bytes: seq<byte>): Conn {
    s.(hist := s.hist.(wire := s.hist.wire + bytes))
  }

  function Fin(s: Conn): Conn {
    s.(hist := s.hist.(fins := s.hist.fins + 1))
  }

  function Schedule(s: Conn, h: Handle): Conn {
    s.(hist := s.hist.(scheduled := s.hist.scheduled + multiset{h}))
  }

  function Suspend(s: Conn, h: Handle): Conn {
    s.(hist := s.hist.(suspended := s.hist.suspended + multiset{h}))
  }

  function Accept(s: Conn, data: seq<byte>): Conn {
    s.(hist := s.hist.(accepted := s.hist.accepted + data))
  }

  function HandleClose(s: Conn): Conn {
    s.(phase := Disconnected, reading := false, writing := false)
  }

  function Enqueue(s: Conn, data: seq<byte>): Conn {
    if data == [] then s else s.(output := s.output + data, writing := true)
  }

  /** What of data the direct write of a send leaves for the output buffer; nothing once the write failed for good. */
  function Unsent(s: Conn, data: seq<byte>, w: WriteResult): seq<byte>
    requires Answers(w, |data|)
  {
    if s.writing || s.output != [] then data
    else if w.n >= 0 then data[w.n..]
    else if w.wouldBlock then data
    else []
  }

  function SendInLoop(s: Conn, data: seq<byte>, w: WriteResult): Conn
    requires Answers(w, |data|)
  {
    if s.writing || s.output != [] then Enqueue(s, data)
    else if w.n >= 0 then Enqueue(Written(s, data[..w.n]), data[w.n..])
    else if w.wouldBlock then Enqueue(s, data)
    else HandleClose(s)
  }

  function SendData(s: Conn, data: seq<byte>, w: WriteResult): Conn
    requires Answers(w, |data|)
  {
    if s.phase.Connected? then SendInLoop(Accept(s, data), data, w) else s
  }

  function ShutdownWrite(s: Conn): Conn {
    if s.phase.Connected? then
      var t := s.(phase := Disconnecting);
      if t.writing then t else Fin(t)
    else s
  }

  function ResumeReader(s: Conn): Conn {
    if s.readCoro.Some? then Schedule(s.(readCoro := None), s.readCoro.value) else s
  }

  function ResumeWriter(s: Conn): Conn {
    if s.writeCoro.Some? then Schedule(s.(writeCoro := None), s.writeCoro.value) else s
  }

  function Received(s: Conn, bytes: seq<byte>): Conn {
    s.(input := s.input + bytes, hist := s.hist.(received := s.hist.received + bytes))
  }

  function HandleRead(s: Conn, r: ReadResult): Conn {
    match r
    case Data(bytes) => if bytes != [] then ResumeReader(Received(s, bytes)) else HandleClose(s)
    case Failed(wouldBlock) => if wouldBlock then s else HandleClose(s)
  }

  /** The kernel takes the first n bytes of the output buffer. */
  function Taken(s: Conn, n: nat): Conn
    requires n <= |s.output|
  {
    Written(s.(output := s.output[n..]), s.output[..n])
  }

  function HandleWrite(s: Conn, w: WriteResult): Conn
    requires Answers(w, |s.output|)
  {
    if !s.writing then s
    else if w.n > 0 then
      var t := Taken(s, w.n);
      if t.output != [] then t
      else
        var u := ResumeWriter(t.(writing := false));
        if u.phase.Disconnecting? then Fin(u) else u
    else if w.wouldBlock then s
    else HandleClose(s)
  }

  /** co_await AsyncRead: ready at once, rescheduled because something is there, or parked until input arrives. */
  function AwaitReading(s: Conn, h: Handle, hint: nat): Conn {
    if |s.input| >= hint then s
    else if s.input != [] then Schedule(Suspend(s, h), h)
    else Suspend(s, h).(readCoro := Some(h), reading := true)
  }

  function ReadInput(s: Conn, r: ReadResult): Conn {
    if s.input == [] && r.Data? then Received(s, r.bytes) else s
  }

  function ConsumeInput(s: Conn, n: nat): Conn {
    s.(input := Drop(s.input, n), hist := s.hist.(consumed := s.hist.consumed + Take(s.input, n)))
  }

  /** co_await AsyncWrite: send, then rescheduled when nothing is left to write, or parked until the drain. */
  function AwaitWriting(s: Conn, h: Handle, data: seq<byte>, w: WriteResult): Conn
    requires Answers(w, |data|)
  {
    var t := Suspend(SendData(s, data, w), h);
    if t.output == [] then Schedule(t, h)
    else t.(writeCoro := Some(h), writing := true)
  }

  // ---------- runs ----------

  /** The kernel answers are ones its system calls can give. */
  predicate Enabled(s: Conn, e: Event) {
    match e
    case Establish => s.phase.Connecting?
    case Send(data, w) => Answers(w, |data|)
    case Writable(w) => Answers(w, |s.output|)
    case AwaitWrite(_, data, w) => Answers(w, |data|)
    case _ => true
  }

  function Step(s: Conn, e: Event): Conn
    requires Enabled(s, e)
  {
    match e
    case Establish => s.(phase := Connected, reading := true)
    case Send(data, w) => SendData(s, data, w)
    case Shutdown => ShutdownWrite(s)
    case ForceClose => if s.phase.Connected? || s.phase.Connecting? then HandleClose(s) else s
    case Closed => HandleClose(s)
    case Destroyed => s.(phase := Disconnected)
    case Readable(r) => HandleRead(s, r)
    case Writable(w) => HandleWrite(s, w)
    case AwaitRead(h, hint) => AwaitReading(s, h, hint)
    case ReadSome(r) => ReadInput(s, r)
    case Consume(n) => ConsumeInput(s, n)
    case AwaitWrite(h, data, w) => AwaitWriting(s, h, data, w)
  }

  predicate EnabledRun(s: Conn, es: seq<Event>)
    decreases |es|
  {
    es == [] || (Enabled(s, es[0]) && EnabledRun(Step(s, es[0]), es[1..]))
  }

  function Run(s: Conn, es: seq<Event>): Conn
    requires EnabledRun(s, es)
    decreases |es|
  {
    if es == [] then s else Run(Step(s, es[0]), es[1..])
  }

  lemma {:induction false} RunConcat(s: Conn, a: seq<Event>, b: seq<Event>)
    requires EnabledRun(s, a)
    ensures EnabledRun(s, a + b) <==> EnabledRun(Run(s, a), b)
    ensures EnabledRun(s, a + b) ==> Run(s, a + b) == Run(Run(s, a), b)
    decreases |a|
  {
    if a == [] {
      assert a + b == b;
    } else {
      assert (a + b)[0] == a[0] && (a + b)[1..] == a[1..] + b;
      RunConcat(Step(s, a[0]), a[1..], b);
    }
  }

  lemma RunStep(s: Conn, es: seq<Event>, e: Event)
    requires EnabledRun(s, es) && Enabled(Run(s, es), e)
    ensures EnabledRun(s, es + [e]) && Run(s, es + [e]) == Step(Run(s, es), e)
  {
    RunConcat(s, es, [e]);
  }

  // ---------- what every step keeps ----------

  /** The output buffer holds exactly what was accepted and not yet taken. */
  predicate StreamInv(s: Conn) {
    && s.hist.wire + s.output <= s.hist.accepted
    && (s.Open() ==> s.hist.wire + s.output == s.hist.accepted)
    && (s.phase.Connecting? ==> s.hist.accepted == [])
    && s.hist.consumed + s.input == s.hist.received
  }

  predicate InterestInv(s: Conn) {
    && (s.Open() ==> s.reading)
    && (s.Open() ==> (s.writing <==> s.output != []))
    && (s.phase.Connecting? ==> !s.writing && s.output == [])
  }

  /** At most one SHUT_WR, never wanting once a connection that shuts down has nothing to write; and it leaves nothing
      to write and no way to accept more. */
  predicate FinInv(s: Conn) {
    && s.hist.fins <= 1
    && (s.hist.fins == 1 ==>
          (s.phase.Disconnecting? || s.phase.Disconnected?) && s.output == [] && s.hist.wire == s.hist.accepted)
    && (s.phase.Disconnecting? && s.output == [] ==> s.hist.fins == 1)
  }

  predicate ParkedInv(s: Conn) {
    && (s.readCoro.Some? && s.Open() ==> s.reading)
    && (s.writeCoro.Some? && s.Open() ==> s.output != [] && s.writing)
    && (s.phase.Connecting? ==> s.writeCoro.None?)
  }

  function Waiting(o: Option<Handle>): multiset<Handle> {
    if o.Some? then multiset{o.value} else multiset{}
  }

  predicate Inv(s: Conn) {
    InterestInv(s) && StreamInv(s) && FinInv(s) && ParkedInv(s)
  }

  lemma StepKeepsInterest(s: Conn, e: Event)
    requires InterestInv(s) && Enabled(s, e)
    ensures InterestInv(Step(s, e))
  {
  }

  lemma SendKeepsStream(s: Conn, data: seq<byte>, w: WriteResult)
    requires InterestInv(s) && StreamInv(s) && Answers(w, |data|)
    ensures StreamInv(SendData(s, data, w))
  {
    if s.phase.Connected? {
      var a := Accept(s, data);
      if s.writing {
        assert a.hist.wire + (a.output + data) == a.hist.accepted;
      } else if w.n >= 0 {
        assert data == data[..w.n] + data[w.n..];
        var t := Enqueue(Written(a, data[..w.n]), data[w.n..]);
        assert t.hist.wire + t.output == s.hist.wire + (data[..w.n] + data[w.n..]);
      }
    }
  }

  lemma WriteKeepsStream(s: Conn, w: WriteResult)
    requires StreamInv(s) && Answers(w, |s.output|)
    ensures StreamInv(HandleWrite(s, w))
  {
  }

  lemma InputKeepsStream(s: Conn, e: Event)
    requires StreamInv(s) && Enabled(s, e)
    requires e.Readable? || e.ReadSome? || e.Consume?
    ensures StreamInv(Step(s, e))
  {
    if e.Consume? {
      assert Take(s.input, e.n) + Drop(s.input, e.n) == s.input;
    } else if e.r.Data? {
      ReceivedKeepsStream(s, e.r.bytes);
    }
    hide Take, Drop, Received;
  }

  lemma ReceivedKeepsStream(s: Conn, bytes: seq<byte>)
    requires StreamInv(s)
    ensures StreamInv(Received(s, bytes))
  {
  }

  lemma StepKeepsStream(s: Conn, e: Event)
    requires InterestInv(s) && StreamInv(s) && Enabled(s, e)
    ensures StreamInv(Step(s, e))
  {
    match e {
      case Send(data, w) => SendKeepsStream(s, data, w);
      case AwaitWrite(h, data, w) => SendKeepsStream(s, data, w);
      case Writable(w) => WriteKeepsStream(s, w);
      case Readable(_) => InputKeepsStream(s, e);
      case ReadSome(_) => InputKeepsStream(s, e);
      case Consume(_) => InputKeepsStream(s, e);
      case _ =>
    }
  }

  lemma WriteKeepsFin(s: Conn, w: WriteResult)
    requires InterestInv(s) && StreamInv(s) && FinInv(s) && Answers(w, |s.output|)
    ensures FinInv(HandleWrite(s, w))
  {
  }

  lemma SendKeepsFin(s: Conn, data: seq<byte>, w: WriteResult)
    requires FinInv(s) && Answers(w, |data|)
    ensures FinInv(SendData(s, data, w))
  {
  }

  /** SHUT_WR is issued by a step only when that step leaves everything accepted on the wire. */
  lemma StepKeepsFin(s: Conn, e: Event)
    requires InterestInv(s) && StreamInv(s) && FinInv(s) && Enabled(s, e)
    ensures FinInv(Step(s, e))
  {
    match e {
      case Writable(w) => WriteKeepsFin(s, w);
      case Send(data, w) => SendKeepsFin(s, data, w);
      case AwaitWrite(_, data, w) => SendKeepsFin(s, data, w);
      case Shutdown => assert s.hist.wire + [] == s.hist.wire;
      case _ =>
    }
  }

  lemma SendKeepsParked(s: Conn, data: seq<byte>, w: WriteResult)
    requires InterestInv(s) && ParkedInv(s) && Answers(w, |data|)
    ensures ParkedInv(SendData(s, data, w)) && InterestInv(SendData(s, data, w))
    ensures SendData(s, data, w).writeCoro == s.writeCoro && SendData(s, data, w).input == s.input
  {
  }

  lemma WriteKeepsParked(s: Conn, w: WriteResult)
    requires InterestInv(s) && ParkedInv(s) && Answers(w, |s.output|)
    ensures ParkedInv(HandleWrite(s, w))
  {
  }

  lemma StepKeepsParked(s: Conn, e: Event)
    requires InterestInv(s) && ParkedInv(s) && Enabled(s, e)
    ensures ParkedInv(Step(s, e))
  {
    match e {
      case Writable(w) => WriteKeepsParked(s, w);
      case Send(data, w) => SendKeepsParked(s, data, w);
      case AwaitWrite(_, data, w) => SendKeepsParked(s, data, w);
      case _ =>
    }
    hide SendData, HandleWrite, Take;
  }

  lemma StepKeepsInv(s: Conn, e: Event)
    requires Inv(s) && Enabled(s, e)
    ensures Inv(Step(s, e))
  {
    hide Step, Enabled, InterestInv, StreamInv, FinInv, ParkedInv;
    StepKeepsInterest(s, e);
    StepKeepsStream(s, e);
    StepKeepsFin(s, e);
    StepKeepsParked(s, e);
  }

  lemma {:induction false} RunKeepsInv(s: Conn, es: seq<Event>)
    requires Inv(s) && EnabledRun(s, es)
    ensures Inv(Run(s, es))
    decreases |es|
  {
    if es != [] {
      StepKeepsInv(s, es[0]);
      RunKeepsInv(Step(s, es[0]), es[1..]);
    }
  }

  // ---------- the guarantees of whole runs ----------

  /** The bytes handed to send, directly or by an awaited write, while the connection was up. */
  function Sent(s: Conn, es: seq<Event>): seq<byte>
    requires EnabledRun(s, es)
    decreases |es|
  {
    if es == [] then []
    else
      (if s.phase.Connected? && (es[0].Send? || es[0].AwaitWrite?) then es[0].data else [])
      + Sent(Step(s, es[0]), es[1..])
  }

  /** The bytes the kernel delivered: a read event always reads, read_some only when nothing is buffered. */
  function Delivered(s: Conn, es: seq<Event>): seq<byte>
    requires EnabledRun(s, es)
    decreases |es|
  {
    if es == [] then []
    else
      (if (es[0].Readable? || (es[0].ReadSome? && s.input == [])) && es[0].r.Data? then es[0].r.bytes else [])
      + Delivered(Step(s, es[0]), es[1..])
  }

  lemma SendHistory(s: Conn, data: seq<byte>, w: WriteResult)
    requires Answers(w, |data|)
    ensures var t := SendData(s, data, w);
            t.hist.received == s.hist.received
            && t.hist.accepted == s.hist.accepted + if s.phase.Connected? then data else []
  {
  }

  lemma StepHistory(s: Conn, e: Event)
    requires Enabled(s, e)
    ensures Step(s, e).hist.accepted ==
            s.hist.accepted + if s.phase.Connected? && (e.Send? || e.AwaitWrite?) then e.data else []
    ensures Step(s, e).hist.received ==
            s.hist.received + if (e.Readable? || (e.ReadSome? && s.input == [])) && e.r.Data? then e.r.bytes else []
  {
    if e.Send? || e.AwaitWrite? {
      SendHistory(s, e.data, e.w);
    }
  }

  lemma {:induction false} HistoryIsEvents(s: Conn, es: seq<Event>)
    requires EnabledRun(s, es)
    ensures Run(s, es).hist.accepted == s.hist.accepted + Sent(s, es)
    ensures Run(s, es).hist.received == s.hist.received + Delivered(s, es)
    decreases |es|
  {
    if es != [] {
      StepHistory(s, es[0]);
      HistoryIsEvents(Step(s, es[0]), es[1..]);
    }
  }

  /** What reaches the kernel is, in order and without loss or repetition, what was sent; as long as the connection
      is open the output buffer holds the rest, and write events are asked for exactly when there is a rest, read events
      always. */
  lemma OutputIntegrity(es: seq<Event>)
    requires EnabledRun(INIT, es)
    ensures var s := Run(INIT, es);
            && s.hist.wire <= Sent(INIT, es)
            && (s.Open() ==> s.hist.wire + s.output == Sent(INIT, es))
            && (s.Open() ==> s.reading && (s.writing <==> s.output != []))
  {
    RunKeepsInv(INIT, es);
    HistoryIsEvents(INIT, es);
    var s := Run(INIT, es);
    assert s.hist.wire <= s.hist.wire + s.output;
  }

  /** What the user reads is, in order, what the kernel delivered; the input buffer holds the rest. */
  lemma InputIntegrity(es: seq<Event>)
    requires EnabledRun(INIT, es)
    ensures var s := Run(INIT, es); s.hist.consumed + s.input == Delivered(INIT, es)
  {
    RunKeepsInv(INIT, es);
    HistoryIsEvents(INIT, es);
  }

  lemma {:induction false} FinIsFinal(s: Conn, es: seq<Event>)
    requires Inv(s) && s.hist.fins == 1 && EnabledRun(s, es)
    ensures var t := Run(s, es);
            t.hist.fins == 1 && t.hist.wire == s.hist.wire && t.hist.accepted == s.hist.accepted
    decreases |es|
  {
    if es != [] {
      var t := Step(s, es[0]);
      StepKeepsInv(s, es[0]);
      FinStays(s, es[0]);
      FinIsFinal(t, es[1..]);
    }
  }

  lemma FinStays(s: Conn, e: Event)
    requires FinInv(s) && s.hist.fins == 1 && Enabled(s, e)
    requires FinInv(Step(s, e))
    ensures var t := Step(s, e);
            t.hist.fins == 1 && t.hist.wire == s.hist.wire && t.hist.accepted == s.hist.accepted
  {
  }

  /** SHUT_WR comes at most once, after every accepted byte has reached the kernel, and nothing is accepted or
      written from then on, whatever happens. */
  lemma GracefulShutdown(before: seq<Event>, after: seq<Event>)
    requires EnabledRun(INIT, before) && EnabledRun(INIT, before + after)
    requires Run(INIT, before).hist.fins > 0
    ensures var s, t := Run(INIT, before), Run(INIT, before + after);
            && s.output == [] && s.hist.wire == Sent(INIT, before)
            && t.hist.fins == 1 && t.hist.wire == s.hist.wire && Sent(INIT, before + after) == Sent(INIT, before)
  {
    hide Step, Enabled;
    HistoryIsEvents(INIT, before);
    HistoryIsEvents(INIT, before + after);
    RunConcat(INIT, before, after);
    RunKeepsInv(INIT, before);
    FinIsFinal(Run(INIT, before), after);
  }

  /** On a connection that shuts down SHUT_WR has been issued if and only if everything sent is on the wire. */
  lemma ShutdownIsAnswered(es: seq<Event>)
    requires EnabledRun(INIT, es)
    ensures var s := Run(INIT, es);
            s.phase.Disconnecting? ==> (s.hist.fins == 1 <==> s.hist.wire == Sent(INIT, es))
  {
    RunKeepsInv(INIT, es);
    OutputIntegrity(es);
  }

  /** Shutting down a connected connection whose output is all written issues SHUT_WR at once; otherwise it waits. */
  lemma ShutdownAtOnce(es: seq<Event>)
    requires EnabledRun(INIT, es) && Run(INIT, es).phase.Connected?
    ensures var t := Step(Run(INIT, es), Shutdown);
            && t.phase.Disconnecting? && (t.hist.fins == 1 <==> t.hist.wire == Sent(INIT, es))
            && (t.hist.fins == 0 <==> t.output != [])
  {
    RunStep(INIT, es, Shutdown);
    HistoryIsEvents(INIT, es);
    HistoryIsEvents(INIT, es + [Shutdown]);
    RunKeepsInv(INIT, es + [Shutdown]);
    OutputIntegrity(es + [Shutdown]);
    StepHistory(Run(INIT, es), Shutdown);
  }

  // ---------- what brings a connection down, and what is taken from it ----------

  /** The end of file, an answer that is an error and not EAGAIN, or somebody who wants it closed. */
  predicate Fatal(s: Conn, e: Event) {
    match e
    case Closed => true
    case Destroyed => true
    case ForceClose => !s.phase.Disconnecting?
    case Readable(r) => r == Data([]) || r == Failed(false)
    case Writable(w) => s.writing && w.n <= 0 && !w.wouldBlock
    case Send(_, w) => s.phase.Connected? && s.output == [] && w.n < 0 && !w.wouldBlock
    case AwaitWrite(_, _, w) => s.phase.Connected? && s.output == [] && w.n < 0 && !w.wouldBlock
    case _ => false
  }

  lemma PhaseMoves(s: Conn, e: Event)
    requires InterestInv(s) && Enabled(s, e)
    ensures Step(s, e).phase == if Fatal(s, e) then Disconnected
                                else if e.Establish? then Connected
                                else if e.Shutdown? && s.phase.Connected? then Disconnecting
                                else s.phase
    ensures Fatal(s, e) && !e.Destroyed? && !e.ForceClose? ==> !Step(s, e).reading && !Step(s, e).writing
    ensures e.ForceClose? && s.phase.Connected? ==> !Step(s, e).reading && !Step(s, e).writing
  {
    if e.AwaitWrite? {
      SendPhase(s, e.data, e.w);
    } else if e.Send? {
      SendPhase(s, e.data, e.w);
    }
    hide SendData;
  }

  lemma SendPhase(s: Conn, data: seq<byte>, w: WriteResult)
    requires InterestInv(s) && Answers(w, |data|)
    ensures var t, fatal := SendData(s, data, w), s.phase.Connected? && s.output == [] && w.n < 0 && !w.wouldBlock;
            && t.phase == (if fatal then Disconnected else s.phase)
            && (fatal ==> !t.reading && !t.writing && t.output == [])
  {
  }

  ghost predicate NeverFatal(s: Conn, es: seq<Event>)
    requires EnabledRun(s, es)
    decreases |es|
  {
    es == [] || (!Fatal(s, es[0]) && NeverFatal(Step(s, es[0]), es[1..]))
  }

  lemma {:induction false} DownAfter(s: Conn, es: seq<Event>)
    requires Inv(s) && EnabledRun(s, es)
    ensures Run(s, es).phase.Disconnected? <==> s.phase.Disconnected? || !NeverFatal(s, es)
    decreases |es|
  {
    if es != [] {
      hide Step, Fatal, Enabled;
      PhaseMovesInv(s, es[0]);
      StepKeepsInv(s, es[0]);
      DownAfter(Step(s, es[0]), es[1..]);
    }
  }

  lemma PhaseMovesInv(s: Conn, e: Event)
    requires Inv(s) && Enabled(s, e)
    ensures Step(s, e).phase.Disconnected? <==> s.phase.Disconnected? || Fatal(s, e)
  {
    PhaseMoves(s, e);
    hide Step, Fatal;
  }

  /** A connection is down if and only if one of the events of its run was fatal; a full socket or a partial write
      never is. */
  lemma DownIffFatal(es: seq<Event>)
    requires EnabledRun(INIT, es)
    ensures Run(INIT, es).phase.Disconnected? <==> !NeverFatal(INIT, es)
  {
    DownAfter(INIT, es);
  }

  /** Only consuming takes from the input buffer, and it takes as much as is asked for, as far as it goes. */
  lemma StepConsumes(s: Conn, e: Event)
    requires StreamInv(s) && Enabled(s, e)
    ensures var t := Step(s, e);
            if e.Consume? then
              var n := if e.n <= |s.input| then e.n else |s.input|;
              t.hist.consumed == s.hist.consumed + s.input[..n] && t.input == s.input[n..]
            else t.hist.consumed == s.hist.consumed && s.input <= t.input
  {
    if e.AwaitWrite? || e.Send? {
      SendKeepsInput(s, e.data, e.w);
    }
    hide SendData;
  }

  lemma SendKeepsInput(s: Conn, data: seq<byte>, w: WriteResult)
    requires Answers(w, |data|)
    ensures var t := SendData(s, data, w); t.input == s.input && t.hist.consumed == s.hist.consumed
  {
  }

  // The other direction: a connection that is shut down and whose kernel keeps taking bytes does get its SHUT_WR.

  function Sum(ns: seq<nat>): nat {
    if ns == [] then 0 else ns[0] + Sum(ns[1..])
  }

  function Writes(ns: seq<nat>): seq<Event> {
    seq(|ns|, i requires 0 <= i < |ns| => Writable(WriteResult(ns[i], false)))
  }

  /** What one write that takes n bytes does to an open connection. */
  lemma WriteTakes(s: Conn, n: nat)
    requires Inv(s) && s.Open() && 0 < n <= |s.output|
    ensures var t := HandleWrite(s, WriteResult(n, false));
            && Inv(t) && t.phase == s.phase && t.output == s.output[n..]
            && (n < |s.output| ==> t.writeCoro == s.writeCoro && t.hist.scheduled == s.hist.scheduled)
            && t.hist.accepted == s.hist.accepted
            && (n == |s.output| ==>
                  && t.output == [] && !t.writing && t.writeCoro.None?
                  && t.hist.fins == (if s.phase.Disconnecting? then 1 else 0)
                  && t.hist.scheduled == s.hist.scheduled + Waiting(s.writeCoro))
  {
    var e := Writable(WriteResult(n, false));
    StepKeepsInv(s, e);
  }

  /** Any division of the output into partial writes drains it, wakes the parked writer, and ends a shutdown. */
  lemma {:induction false} DrainCompletes(s: Conn, ns: seq<nat>)
    requires Inv(s) && s.Open() && s.output != []
    requires Sum(ns) == |s.output| && forall i :: 0 <= i < |ns| ==> ns[i] > 0
    ensures EnabledRun(s, Writes(ns))
    ensures var t := Run(s, Writes(ns));
            && t.output == [] && !t.writing && t.writeCoro.None? && t.hist.wire == s.hist.accepted
            && t.hist.fins == (if s.phase.Disconnecting? then 1 else 0)
            && t.hist.scheduled == s.hist.scheduled + Waiting(s.writeCoro)
    decreases |ns|
  {
    var e := Writable(WriteResult(ns[0], false));
    assert Writes(ns)[0] == e && Writes(ns)[1..] == Writes(ns[1..]);
    WriteTakes(s, ns[0]);
    hide HandleWrite, InterestInv, FinInv, ParkedInv;
    var t := Step(s, e);
    if ns[1..] == [] {
      assert t.hist.wire + [] == t.hist.wire;
    } else {
      DrainCompletes(t, ns[1..]);
    }
  }
}
