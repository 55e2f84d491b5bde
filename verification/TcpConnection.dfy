/** The connection object: two buffers and a channel, each handler refining its step of ConnectionSpec. */
module TcpConnections {
  import opened Bytes
  import opened Buffers
  import opened ConnectionSpec

  const READ_EVENT: bv8 := 0x01
  const WRITE_EVENT: bv8 := 0x04

  class Channel {
    var events: bv8
    var addedToLoop: bool

    predicate IsReading()
      reads this
    {
      events & READ_EVENT != 0
    }

    predicate IsWriting()
      reads this
    {
      events & WRITE_EVENT != 0
    }

    constructor ()
      ensures !IsReading() && !IsWriting() && !addedToLoop
    {
      events, addedToLoop := 0, false;
    }

    method EnableReading()
      modifies this
      ensures IsReading() && IsWriting() == old(IsWriting()) && addedToLoop
    {
      events, addedToLoop := events | READ_EVENT, true;
    }

    method DisableReading()
      modifies this
      ensures !IsReading() && IsWriting() == old(IsWriting()) && addedToLoop
    {
      events, addedToLoop := events & !READ_EVENT, true;
    }

    method EnableWriting()
      modifies this
      ensures IsWriting() && IsReading() == old(IsReading()) && addedToLoop
    {
      events, addedToLoop := events | WRITE_EVENT, true;
    }

    method DisableWriting()
      modifies this
      ensures !IsWriting() && IsReading() == old(IsReading()) && addedToLoop
    {
      events, addedToLoop := events & !WRITE_EVENT, true;
    }

    method DisableAll()
      modifies this
      ensures !IsReading() && !IsWriting() && addedToLoop
    {
      events, addedToLoop := 0, true;
    }
  }

  /** The ready mask of one poll result. */
  datatype Ready = Ready(readable: bool, urgent: bool, writable: bool, error: bool, hup: bool, peerClosed: bool)

  /** The handlers one ready mask calls, in the order they are called. */
  function Handlers(m: Ready, r: ReadResult, w: WriteResult): seq<Event> {
    Closers(m) + Transfers(m, r, w)
  }

  function Closers(m: Ready): seq<Event> {
    (if m.hup && !m.readable then [Closed] else []) + (if m.error then [Closed] else [])
  }

  function Transfers(m: Ready, r: ReadResult, w: WriteResult): seq<Event> {
    (if m.readable || m.urgent || m.peerClosed then [Readable(r)] else [])
    + (if m.writable then [Writable(w)] else [])
  }

  /** Which handlers a mask calls: each at most once, closing for either reason, and in the order closing, reading,
      writing. Data that comes together with a hang-up is read first. */
  lemma HandlersOfMask(m: Ready, r: ReadResult, w: WriteResult)
    ensures var hs := Handlers(m, r, w);
            && (Closed in hs <==> m.error || (m.hup && !m.readable))
            && (Readable(r) in hs <==> m.readable || m.urgent || m.peerClosed)
            && (Writable(w) in hs <==> m.writable)
            && (forall h :: h in hs ==> h in {Closed, Readable(r), Writable(w)})
            && (forall i, j :: 0 <= i < j < |hs| ==>
                  !hs[j].Closed? || (hs[i].Closed? && m.error && m.hup && !m.readable))
            && (forall i :: 0 <= i < |hs| - 1 ==> !hs[i].Writable?)
  {
  }

  lemma OutputKept(s: Conn, r: ReadResult)
    ensures ConnectionSpec.HandleRead(s, r).output == s.output
  {
  }

  class TcpConnection {
    const channel: Channel
    const input: Buffer
    const output: Buffer
    var phase: Phase
    var readCoro: Option<Handle>
    var readCoroPending: bool
    var writeCoro: Option<Handle>
    var writeCoroPending: bool
    ghost var hist: History

    ghost function Footprint(): set<object>
      reads this, input, output
    {
      {this, channel, input, output, input.data, output.data}
    }

    ghost predicate Valid()
      reads Footprint()
    {
      && input != output && input.data != output.data
      && input.Valid() && output.Valid()
      && (readCoroPending <==> readCoro.Some?)
      && (writeCoroPending <==> writeCoro.Some?)
    }

    ghost function View(): Conn
      reads Footprint()
      requires Valid()
    {
      Conn(phase, channel.IsReading(), channel.IsWriting(), input.Contents(), output.Contents(),
           readCoro, writeCoro, hist)
    }

    constructor ()
      ensures Valid() && fresh(Footprint())
      ensures View() == INIT
    {
      channel := new Channel();
      input := new Buffer();
      output := new Buffer();
      phase := Connecting;
      readCoro, readCoroPending, writeCoro, writeCoroPending := None, false, None, false;
      hist := INIT.hist;
    }

    method ConnectEstablished()
      requires Valid() && phase.Connecting?
      modifies Footprint()
      ensures Valid() && fresh(Footprint() - old(Footprint()))
      ensures View() == Step(old(View()), Establish)
    {
      phase := Connected;
      channel.EnableReading();
    }

    method ConnectDestroyed()
      requires Valid()
      modifies Footprint()
      ensures Valid() && fresh(Footprint() - old(Footprint()))
      ensures View() == Step(old(View()), Destroyed)
    {
      phase := Disconnected;
    }

    method HandleClose()
      requires Valid()
      modifies this`phase, channel
      ensures Valid()
      ensures View() == Step(old(View()), Closed)
    {
      phase := Disconnected;
      channel.DisableAll();
    }

    method ForceClose()
      requires Valid()
      modifies Footprint()
      ensures Valid() && fresh(Footprint() - old(Footprint()))
      ensures View() == Step(old(View()), Event.ForceClose)
    {
      if phase.Connected? || phase.Connecting? {
        HandleClose();
      }
    }

    method Shutdown()
      requires Valid()
      modifies Footprint()
      ensures Valid() && fresh(Footprint() - old(Footprint()))
      ensures View() == Step(old(View()), Event.Shutdown)
    {
      if phase.Connected? {
        phase := Disconnecting;
        if !channel.IsWriting() {
          hist := hist.(fins := hist.fins + 1);
        }
      }
    }

    method SendInLoop(data: seq<byte>, w: WriteResult)
      requires Valid() && Answers(w, |data|)
      requires output.Fits(|Unsent(View(), data, w)|)
      modifies Footprint()
      ensures Valid() && fresh(Footprint() - old(Footprint()))
      ensures View() == ConnectionSpec.SendInLoop(old(View()), data, w)
    {
      var rest := data;
      if !channel.IsWriting() && output.ReadableBytes() == 0 {
        assert output.Contents() == [];
        if w.n >= 0 {
          hist := hist.(wire := hist.wire + data[..w.n]);
          rest := data[w.n..];
          if w.n >= |data| {
            return;
          }
        } else if !w.wouldBlock {
          HandleClose();
          return;
        }
      }
      QueueOutput(rest);
    }

    /** Buffer what could not be written and ask for write events. */
    method QueueOutput(data: seq<byte>)
      requires Valid() && output.Fits(|data|)
      modifies Footprint()
      ensures Valid() && fresh(Footprint() - old(Footprint()))
      ensures View() == Enqueue(old(View()), data)
    {
      if |data| > 0 {
        output.Append(data);
        if !channel.IsWriting() {
          channel.EnableWriting();
        }
      }
    }

    method WakeReader()
      requires Valid()
      modifies this
      ensures Valid() && View() == ResumeReader(old(View()))
    {
      if readCoroPending && readCoro.Some? {
        readCoroPending := false;
        var h := readCoro.value;
        readCoro := None;
        hist := hist.(scheduled := hist.scheduled + multiset{h});
      }
    }

    method WakeWriter()
      requires Valid()
      modifies this
      ensures Valid() && View() == ResumeWriter(old(View()))
    {
      if writeCoroPending && writeCoro.Some? {
        writeCoroPending := false;
        var h := writeCoro.value;
        writeCoro := None;
        hist := hist.(scheduled := hist.scheduled + multiset{h});
      }
    }

    method Send(data: seq<byte>, w: WriteResult)
      requires Valid() && Answers(w, |data|)
      requires phase.Connected? ==> output.Fits(|Unsent(View(), data, w)|)
      modifies Footprint()
      ensures Valid() && fresh(Footprint() - old(Footprint()))
      ensures View() == Step(old(View()), Event.Send(data, w))
    {
      if phase.Connected? {
        hist := hist.(accepted := hist.accepted + data);
        SendInLoop(data, w);
      }
    }

    /** Read from the socket into the input buffer. */
    method Receive(r: ReadResult) returns (n: int)
      requires Valid() && input.Receivable(r)
      modifies this`hist, input, input.data
      ensures Valid() && fresh(Footprint() - old(Footprint()))
      ensures n == if r.Data? then |r.bytes| else -1
      ensures View() == if r.Data? then Received(old(View()), r.bytes) else old(View())
    {
      n := input.ReadFd(r);
      if r.Data? {
        hist := hist.(received := hist.received + r.bytes);
      }
    }

    method HandleRead(r: ReadResult)
      requires Valid() && input.Receivable(r)
      modifies Footprint()
      ensures Valid() && fresh(Footprint() - old(Footprint()))
      ensures View() == Step(old(View()), Readable(r))
    {
      var n := Receive(r);
      if n > 0 {
        WakeReader();
      } else if n == 0 {
        assert r.bytes == [] && View() == old(View());
        HandleClose();
      } else if !r.wouldBlock {
        HandleClose();
      }
    }

    /** The kernel took the first n buffered bytes. */
    method RetireOutput(n: nat)
      requires Valid() && 0 < n <= |output.Contents()|
      modifies this`hist, output
      ensures Valid() && output.data == old(output.data)
      ensures View() == Taken(old(View()), n)
    {
      hist := hist.(wire := hist.wire + output.Contents()[..n]);
      output.Retrieve(n);
      assert output.Contents() == old(output.Contents())[n..];
    }

    /** The output buffer just ran empty. */
    method FinishDrain()
      requires Valid() && output.Contents() == []
      modifies this, channel
      ensures Valid()
      ensures var u := ResumeWriter(old(View()).(writing := false));
              View() == if u.phase.Disconnecting? then Fin(u) else u
    {
      channel.DisableWriting();
      WakeWriter();
      if phase.Disconnecting? {
        hist := hist.(fins := hist.fins + 1);
      }
    }

    method HandleWrite(w: WriteResult)
      requires Valid() && Answers(w, |output.Contents()|)
      modifies Footprint()
      ensures Valid() && fresh(Footprint() - old(Footprint()))
      ensures View() == Step(old(View()), Writable(w))
    {
      if channel.IsWriting() {
        if w.n > 0 {
          RetireOutput(w.n);
          if output.ReadableBytes() == 0 {
            assert output.Contents() == [];
            FinishDrain();
          }
        } else if !w.wouldBlock {
          HandleClose();
        }
      }
    }

    method ReadSome(r: ReadResult) returns (n: int)
      requires Valid() && input.Receivable(r)
      modifies Footprint()
      ensures Valid() && fresh(Footprint() - old(Footprint()))
      ensures View() == ReadInput(old(View()), r)
      ensures n == if View().input != [] then |View().input| else if r.Data? then 0 else -1
    {
      if input.ReadableBytes() > 0 {
        n := input.ReadableBytes();
      } else {
        assert input.Contents() == [];
        n := Receive(r);
      }
    }

    method Consume(n: nat) returns (bytes: seq<byte>)
      requires Valid()
      modifies Footprint()
      ensures Valid() && fresh(Footprint() - old(Footprint()))
      ensures View() == Step(old(View()), Event.Consume(n))
      ensures bytes == Take(old(View()).input, n)
    {
      hide Drop, Take;
      bytes := input.RetrieveAsString(n);
      hist := hist.(consumed := hist.consumed + bytes);
    }

    method ResumeReadCoro(h: Handle)
      requires Valid()
      modifies this, channel
      ensures Valid()
      ensures View() == old(View()).(readCoro := Some(h), reading := true)
    {
      readCoro, readCoroPending := Some(h), true;
      if !channel.IsReading() {
        channel.EnableReading();
      }
    }

    method ResumeWriteCoro(h: Handle)
      requires Valid()
      modifies this, channel
      ensures Valid()
      ensures View() ==
              old(View()).(writeCoro := Some(h), writing := old(View()).writing || old(View()).output != [])
    {
      writeCoro, writeCoroPending := Some(h), true;
      if !channel.IsWriting() && output.ReadableBytes() > 0 {
        channel.EnableWriting();
      }
    }

    /** co_await AsyncRead; ready means the coroutine was not suspended at all. */
    method AwaitRead(h: Handle, hint: nat) returns (ready: bool)
      requires Valid()
      modifies Footprint()
      ensures Valid() && fresh(Footprint() - old(Footprint()))
      ensures View() == Step(old(View()), Event.AwaitRead(h, hint))
      ensures ready <==> |old(View()).input| >= hint
    {
      ready := input.ReadableBytes() >= hint;
      if ready {
        return;
      }
      hist := hist.(suspended := hist.suspended + multiset{h});
      if input.ReadableBytes() > 0 {
        hist := hist.(scheduled := hist.scheduled + multiset{h});
        return;
      }
      assert input.Contents() == [];
      ResumeReadCoro(h);
    }

    /** co_await AsyncWrite. */
    method AwaitWrite(h: Handle, data: seq<byte>, w: WriteResult)
      requires Valid() && Answers(w, |data|)
      requires phase.Connected? ==> output.Fits(|Unsent(View(), data, w)|)
      modifies Footprint()
      ensures Valid() && fresh(Footprint() - old(Footprint()))
      ensures View() == Step(old(View()), Event.AwaitWrite(h, data, w))
    {
      hide SendData, Drop, Take, Unsent, Schedule, Suspend, Layout.Good, Layout.Fits;
      Send(data, w);
      SuspendWriter(h);
    }

    /** The writer is suspended: rescheduled when nothing is left to write, else parked. */
    method SuspendWriter(h: Handle)
      requires Valid()
      modifies this, channel
      ensures Valid()
      ensures var t := Suspend(old(View()), h);
              View() == if t.output == [] then Schedule(t, h) else t.(writeCoro := Some(h), writing := true)
    {
      hist := hist.(suspended := hist.suspended + multiset{h});
      if output.ReadableBytes() == 0 {
        assert output.Contents() == [];
        hist := hist.(scheduled := hist.scheduled + multiset{h});
      } else {
        ResumeWriteCoro(h);
      }
    }

    /** Dispatch one ready mask: closing, errors, reading, writing, in that order. */
    method HandleEvent(m: Ready, r: ReadResult, w: WriteResult)
      requires Valid() && input.Receivable(r) && Answers(w, |output.Contents()|)
      modifies Footprint()
      ensures Valid() && fresh(Footprint() - old(Footprint()))
      ensures EnabledRun(old(View()), Handlers(m, r, w))
      ensures View() == Run(old(View()), Handlers(m, r, w))
    {
      ghost var s := View();
      DispatchClosers(m);
      RunConcat(s, Closers(m), Transfers(m, r, w));
      DispatchTransfers(m, r, w);
    }

    method DispatchClosers(m: Ready)
      requires Valid()
      modifies this`phase, channel
      ensures Valid()
      ensures EnabledRun(old(View()), Closers(m)) && View() == Run(old(View()), Closers(m))
    {
      if m.hup && !m.readable {
        HandleClose();
      }
      if m.error {
        HandleClose();
      }
      assert [Closed, Closed][1..] == [Closed] && [Closed][1..] == [];
    }

    method DispatchTransfers(m: Ready, r: ReadResult, w: WriteResult)
      requires Valid() && input.Receivable(r) && Answers(w, |output.Contents()|)
      modifies Footprint()
      ensures Valid() && fresh(Footprint() - old(Footprint()))
      ensures EnabledRun(old(View()), Transfers(m, r, w)) && View() == Run(old(View()), Transfers(m, r, w))
    {
      hide ConnectionSpec.HandleRead, ConnectionSpec.HandleWrite, Drop;
      ghost var s, done := View(), [];
      OutputKept(s, r);
      if m.readable || m.urgent || m.peerClosed {
        HandleRead(r);
        RunStep(s, done, Readable(r));
        done := [Readable(r)];
      }
      if m.writable {
        HandleWrite(w);
        RunStep(s, done, Writable(w));
        done := done + [Writable(w)];
      }
      assert done == Transfers(m, r, w);
    }
  }
}
