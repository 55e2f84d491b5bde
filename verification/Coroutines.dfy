/** What becomes of the coroutines that await one connection: parked, resumed, or lost to another that took their place;
    and what an awaited read does not promise. */
module Coroutines {
  import opened Bytes
  import opened Buffers
  import opened ConnectionSpec

  /** An await that parks while another coroutine is parked takes its place. */
  function Overwrites(s: Conn, e: Event): Option<Handle> {
    if e.AwaitRead? && s.input == [] && e.hint > 0 then s.readCoro
    else if e.AwaitWrite? && s.output != [] then s.writeCoro
    else None
  }

  /** Every suspension is still parked, or was scheduled, once, or lost its place. */
  predicate Conserved(s: Conn, lost: multiset<Handle>) {
    s.hist.suspended == s.hist.scheduled + Waiting(s.readCoro) + Waiting(s.writeCoro) + lost
  }

  predicate SameWaiting(s: Conn, t: Conn) {
    && t.readCoro == s.readCoro && t.writeCoro == s.writeCoro
    && t.hist.suspended == s.hist.suspended && t.hist.scheduled == s.hist.scheduled
  }

  lemma ResumingConserves(s: Conn, lost: multiset<Handle>)
    requires Conserved(s, lost)
    ensures Conserved(ResumeReader(s), lost) && Conserved(ResumeWriter(s), lost)
  {
    Moved(s.hist.scheduled, Waiting(s.readCoro), Waiting(s.writeCoro), lost);
    Moved(s.hist.scheduled, Waiting(s.writeCoro), Waiting(s.readCoro), lost);
  }

  /** Who waits no longer has been scheduled. */
  lemma Moved(scheduled: multiset<Handle>, resumed: multiset<Handle>, other: multiset<Handle>, lost: multiset<Handle>)
    ensures scheduled + resumed + other + lost == (scheduled + resumed) + multiset{} + other + lost
    ensures scheduled + resumed + other + lost == (scheduled + resumed) + other + multiset{} + lost
    ensures scheduled + resumed + other + lost == scheduled + other + resumed + lost
  {
  }

  lemma RescheduleConserves(s: Conn, h: Handle, lost: multiset<Handle>)
    requires Conserved(s, lost)
    ensures Conserved(Schedule(Suspend(s, h), h), lost)
  {
  }

  lemma ParkConserves(s: Conn, h: Handle, lost: multiset<Handle>)
    requires Conserved(s, lost)
    ensures Conserved(Suspend(s, h).(readCoro := Some(h), reading := true), lost + Waiting(s.readCoro))
    ensures Conserved(Suspend(s, h).(writeCoro := Some(h), writing := true), lost + Waiting(s.writeCoro))
  {
  }

  lemma ReadConserves(s: Conn, r: ReadResult, lost: multiset<Handle>)
    requires Conserved(s, lost)
    ensures Conserved(HandleRead(s, r), lost)
  {
    if r.Data? {
      SameWaitingConserves(s, Received(s, r.bytes), lost);
    }
  }

  lemma SameWaitingConserves(s: Conn, t: Conn, lost: multiset<Handle>)
    requires Conserved(s, lost) && SameWaiting(s, t)
    ensures Conserved(t, lost)
  {
  }

  lemma WriteConserves(s: Conn, w: WriteResult, lost: multiset<Handle>)
    requires Conserved(s, lost) && Answers(w, |s.output|)
    ensures Conserved(HandleWrite(s, w), lost)
  {
    if s.writing && w.n > 0 && Taken(s, w.n).output == [] {
      ResumingConserves(Taken(s, w.n).(writing := false), lost);
    }
  }

  /** A writer is parked on top of another exactly if the output buffer was not empty before the await. */
  lemma AwaitWriteConserves(s: Conn, e: Event, lost: multiset<Handle>)
    requires InterestInv(s) && ParkedInv(s) && Conserved(s, lost) && Enabled(s, e) && e.AwaitWrite?
    ensures Conserved(Step(s, e), lost + Waiting(Overwrites(s, e)))
  {
    hide Conserved;
    var t := SendData(s, e.data, e.w);
    SameWaitingConserves(s, t, lost);
    RescheduleConserves(t, e.h, lost);
    ParkConserves(t, e.h, lost);
    assert lost + multiset{} == lost;
  }

  lemma AwaitReadConserves(s: Conn, e: Event, lost: multiset<Handle>)
    requires Conserved(s, lost) && e.AwaitRead?
    ensures Conserved(Step(s, e), lost + Waiting(Overwrites(s, e)))
  {
    hide Conserved;
    RescheduleConserves(s, e.h, lost);
    ParkConserves(s, e.h, lost);
    assert lost + multiset{} == lost;
  }

  lemma StepConserves(s: Conn, e: Event, lost: multiset<Handle>)
    requires InterestInv(s) && ParkedInv(s) && Conserved(s, lost) && Enabled(s, e)
    ensures Conserved(Step(s, e), lost + Waiting(Overwrites(s, e)))
  {
    if e.AwaitRead? {
      AwaitReadConserves(s, e, lost);
    } else if e.AwaitWrite? {
      AwaitWriteConserves(s, e, lost);
    } else {
      assert lost + Waiting(Overwrites(s, e)) == lost;
      OthersConserve(s, e, lost);
    }
    hide Conserved, Step, InterestInv, ParkedInv;
  }

  lemma OthersConserve(s: Conn, e: Event, lost: multiset<Handle>)
    requires Conserved(s, lost) && Enabled(s, e) && !e.AwaitRead? && !e.AwaitWrite?
    ensures Conserved(Step(s, e), lost)
  {
    if e.Readable? {
      ReadConserves(s, e.r, lost);
    } else if e.Writable? {
      WriteConserves(s, e.w, lost);
    } else {
      SameWaitingConserves(s, Step(s, e), lost);
    }
  }

  // ---------- whole runs ----------

  /** The suspensions a run loses to later awaits. */
  function Overwritten(s: Conn, es: seq<Event>): multiset<Handle>
    requires EnabledRun(s, es)
    decreases |es|
  {
    if es == [] then multiset{} else Waiting(Overwrites(s, es[0])) + Overwritten(Step(s, es[0]), es[1..])
  }

  /** The handles suspended by the awaits of a run that did not find all they asked for. */
  function Suspensions(s: Conn, es: seq<Event>): multiset<Handle>
    requires EnabledRun(s, es)
    decreases |es|
  {
    if es == [] then multiset{}
    else
      (if (es[0].AwaitRead? && |s.input| < es[0].hint) || es[0].AwaitWrite? then multiset{es[0].h} else multiset{})
      + Suspensions(Step(s, es[0]), es[1..])
  }

  lemma InvParts(s: Conn)
    requires Inv(s)
    ensures InterestInv(s) && ParkedInv(s)
  {
  }

  lemma {:induction false} RunConserves(s: Conn, es: seq<Event>, lost: multiset<Handle>)
    requires Inv(s) && Conserved(s, lost) && EnabledRun(s, es)
    ensures Conserved(Run(s, es), lost + Overwritten(s, es))
    decreases |es|
  {
    hide Step, Conserved, Inv, Overwrites;
    if es == [] {
      assert lost + multiset{} == lost;
    } else {
      var e, more := es[0], es[1..];
      InvParts(s);
      StepConserves(s, e, lost);
      StepKeepsInv(s, e);
      RunConserves(Step(s, e), more, lost + Waiting(Overwrites(s, e)));
      assert lost + Waiting(Overwrites(s, e)) + Overwritten(Step(s, e), more) == lost + Overwritten(s, es);
    }
  }

  lemma StepSuspends(s: Conn, e: Event)
    requires Enabled(s, e)
    ensures Step(s, e).hist.suspended == s.hist.suspended
            + if (e.AwaitRead? && |s.input| < e.hint) || e.AwaitWrite? then multiset{e.h} else multiset{}
  {
    if e.AwaitWrite? {
      SendKeepsSuspended(s, e.data, e.w);
    }
    hide SendData;
  }

  lemma SendKeepsSuspended(s: Conn, data: seq<byte>, w: WriteResult)
    requires Answers(w, |data|)
    ensures SendData(s, data, w).hist.suspended == s.hist.suspended
  {
  }

  lemma {:induction false} SuspendedIsAwaited(s: Conn, es: seq<Event>)
    requires EnabledRun(s, es)
    ensures Run(s, es).hist.suspended == s.hist.suspended + Suspensions(s, es)
    decreases |es|
  {
    if es != [] {
      StepSuspends(s, es[0]);
      SuspendedIsAwaited(Step(s, es[0]), es[1..]);
    }
  }

  /** In every run, however many coroutines read and write: each suspension is parked now, or was rescheduled exactly
      once, or was lost to an await that parked on top of it. */
  lemma SuspensionsAddUp(es: seq<Event>)
    requires EnabledRun(INIT, es)
    ensures var s := Run(INIT, es);
            Suspensions(INIT, es) ==
            s.hist.scheduled + Waiting(s.readCoro) + Waiting(s.writeCoro) + Overwritten(INIT, es)
  {
    RunConserves(INIT, es, multiset{});
    SuspendedIsAwaited(INIT, es);
    assert multiset{} + Suspensions(INIT, es) == Suspensions(INIT, es);
    assert multiset{} + Overwritten(INIT, es) == Overwritten(INIT, es);
  }

  /** No await of the run finds, when it parks, another coroutine parked in its place. */
  predicate NeverOverwrites(s: Conn, es: seq<Event>)
    requires EnabledRun(s, es)
    decreases |es|
  {
    es == [] || (Overwrites(s, es[0]).None? && NeverOverwrites(Step(s, es[0]), es[1..]))
  }

  /** read_some is called by a coroutine that was resumed, not by another while one is parked. */
  predicate ReadsWhenResumed(s: Conn, es: seq<Event>)
    requires EnabledRun(s, es)
    decreases |es|
  {
    es == [] || ((es[0].ReadSome? ==> s.readCoro.None?) && ReadsWhenResumed(Step(s, es[0]), es[1..]))
  }

  predicate NothingUnread(s: Conn) {
    s.readCoro.Some? ==> s.input == []
  }

  lemma StepKeepsNothingUnread(s: Conn, e: Event)
    requires NothingUnread(s) && Enabled(s, e) && (e.ReadSome? ==> s.readCoro.None?)
    ensures NothingUnread(Step(s, e))
  {
  }

  lemma {:induction false} RunKeepsNothingUnread(s: Conn, es: seq<Event>)
    requires NothingUnread(s) && EnabledRun(s, es) && ReadsWhenResumed(s, es)
    ensures NothingUnread(Run(s, es))
    decreases |es|
  {
    if es != [] {
      StepKeepsNothingUnread(s, es[0]);
      RunKeepsNothingUnread(Step(s, es[0]), es[1..]);
    }
  }

  lemma {:induction false} NothingLost(s: Conn, es: seq<Event>)
    requires EnabledRun(s, es)
    ensures Overwritten(s, es) == multiset{} <==> NeverOverwrites(s, es)
    decreases |es|
  {
    if es != [] {
      NothingLost(Step(s, es[0]), es[1..]);
      var first := Overwrites(s, es[0]);
      assert first.Some? ==> first.value in Overwritten(s, es);
    }
  }

  lemma NothingMissing(a: multiset<Handle>, b: multiset<Handle>)
    ensures a + b == a <==> b == multiset{}
  {
    assert |a + b| == |a| + |b|;
  }

  /** A parked reader is being listened for and has nothing to read; a parked writer is being listened for and has
      bytes left; every suspended coroutine is parked now or was rescheduled exactly once for it, if and only if no
      await ever parked on top of another. */
  lemma ParkedCoroutines(es: seq<Event>)
    requires EnabledRun(INIT, es)
    ensures var s := Run(INIT, es);
            && (s.Open() && s.readCoro.Some? ==> s.reading && (ReadsWhenResumed(INIT, es) ==> s.input == []))
            && (s.Open() && s.writeCoro.Some? ==> s.output != [] && s.writing)
            && (Suspensions(INIT, es) == s.hist.scheduled + Waiting(s.readCoro) + Waiting(s.writeCoro) <==>
                NeverOverwrites(INIT, es))
  {
    RunKeepsInv(INIT, es);
    SuspensionsAddUp(es);
    NothingLost(INIT, es);
    NothingMissing(Run(INIT, es).hist.scheduled + Waiting(Run(INIT, es).readCoro) + Waiting(Run(INIT, es).writeCoro),
                   Overwritten(INIT, es));
    if ReadsWhenResumed(INIT, es) {
      RunKeepsNothingUnread(INIT, es);
    }
  }

  lemma {:induction false} LostStaysLost(s: Conn, a: seq<Event>, b: seq<Event>)
    requires EnabledRun(s, a) && EnabledRun(s, a + b)
    ensures EnabledRun(Run(s, a), b)
    ensures Overwritten(s, a + b) == Overwritten(s, a) + Overwritten(Run(s, a), b)
    ensures Suspensions(s, a + b) == Suspensions(s, a) + Suspensions(Run(s, a), b)
    decreases |a|
  {
    hide Step, Overwrites;
    if a == [] {
      assert a + b == b;
    } else {
      assert (a + b)[0] == a[0] && (a + b)[1..] == a[1..] + b;
      LostStaysLost(Step(s, a[0]), a[1..], b);
    }
  }

  /** A coroutine whose place was taken is resumed too few times for ever: in any continuation its resumptions, and
      its places, stay behind its suspensions. */
  lemma OverwrittenIsLost(before: seq<Event>, e: Event, after: seq<Event>)
    requires EnabledRun(INIT, before) && Overwrites(Run(INIT, before), e).Some?
    requires EnabledRun(INIT, before + [e]) && EnabledRun(INIT, before + [e] + after)
    ensures var h, s := Overwrites(Run(INIT, before), e).value, Run(INIT, before + [e] + after);
            s.hist.scheduled[h] + Waiting(s.readCoro)[h] + Waiting(s.writeCoro)[h]
            < Suspensions(INIT, before + [e] + after)[h]
  {
    hide Step, Overwrites;
    var h := Overwrites(Run(INIT, before), e).value;
    LostStaysLost(INIT, before, [e]);
    LostStaysLost(INIT, before + [e], after);
    assert h in Overwritten(Run(INIT, before), [e]);
    SuspensionsAddUp(before + [e] + after);
  }

  predicate Awaits(e: Event, h: Handle) {
    (e.AwaitRead? || e.AwaitWrite?) && e.h == h
  }

  lemma {:induction false} NotAwaitedNotSuspended(s: Conn, es: seq<Event>, h: Handle)
    requires EnabledRun(s, es) && forall i :: 0 <= i < |es| ==> !Awaits(es[i], h)
    ensures h !in Suspensions(s, es)
    decreases |es|
  {
    if es != [] {
      NotAwaitedNotSuspended(Step(s, es[0]), es[1..], h);
    }
  }

  lemma TwoEvents(e0: Event, e1: Event, h: Handle)
    requires Enabled(INIT, e0) && Enabled(Step(INIT, e0), e1) && !Awaits(e0, h)
    ensures EnabledRun(INIT, [e0, e1]) && Run(INIT, [e0, e1]) == Step(Step(INIT, e0), e1)
    ensures Suspensions(INIT, [e0, e1])[h] <= 1
  {
    hide Step, Enabled;
    assert [] + [e0] == [e0] && [e0] + [e1] == [e0, e1] && [e0, e1][1..] == [e1];
    RunStep(INIT, [], e0);
    RunStep(INIT, [e0], e1);
    assert Suspensions(Step(INIT, e0), [e1])[h] <= 1;
  }

  lemma FirstIsLost(e0: Event, e1: Event, e: Event, after: seq<Event>, first: Handle)
    requires !Awaits(e0, first) && Awaits(e1, first) && !Awaits(e, first)
    requires forall i :: 0 <= i < |after| ==> !Awaits(after[i], first)
    requires EnabledRun(INIT, [e0, e1, e] + after)
    requires Enabled(INIT, e0) && Enabled(Step(INIT, e0), e1)
    requires Overwrites(Step(Step(INIT, e0), e1), e) == Some(first)
    ensures first !in Run(INIT, [e0, e1, e] + after).hist.scheduled
  {
    hide Step, Overwrites, Enabled, Suspensions, Run;
    var before, rest := [e0, e1], [e] + after;
    assert [e0, e1, e] + after == before + rest && before + [e] == [e0, e1, e];
    TwoEvents(e0, e1, first);
    LostStaysLost(INIT, before, rest);
    RunStep(INIT, before, e);
    NotAwaitedNotSuspended(Run(INIT, before), rest, first);
    OverwrittenIsLost(before, e, after);
  }

  /** Two coroutines await the same connection: the first is never resumed, whatever arrives. */
  lemma SecondReaderIsLost(first: Handle, second: Handle, after: seq<Event>)
    requires first != second && forall i :: 0 <= i < |after| ==> !Awaits(after[i], first)
    requires EnabledRun(INIT, [Establish, AwaitRead(first, 1), AwaitRead(second, 1)] + after)
    ensures first !in Run(INIT, [Establish, AwaitRead(first, 1), AwaitRead(second, 1)] + after).hist.scheduled
  {
    hide EnabledRun, Run;
    FirstIsLost(Establish, AwaitRead(first, 1), AwaitRead(second, 1), after, first);
  }

  /** The same for two writers while the kernel takes nothing. */
  lemma SecondWriterIsLost(first: Handle, second: Handle, full: WriteResult, after: seq<Event>)
    requires first != second && forall i :: 0 <= i < |after| ==> !Awaits(after[i], first)
    requires full == WriteResult(-1, true)
    requires EnabledRun(INIT, [Establish, AwaitWrite(first, [65], full), AwaitWrite(second, [66], full)] + after)
    ensures first !in
            Run(INIT, [Establish, AwaitWrite(first, [65], full), AwaitWrite(second, [66], full)] + after).hist.scheduled
  {
    hide EnabledRun, Run;
    FirstIsLost(Establish, AwaitWrite(first, [65], full), AwaitWrite(second, [66], full), after, first);
  }

  // ---------- when coroutines are resumed ----------

  /** Exactly who is handed to the loop by an event: a reader by an arrival, a writer by the write that empties the
      output buffer, and at once a reader that finds something, too little, or a writer that leaves nothing to write. */
  lemma WhoIsResumed(s: Conn, e: Event)
    requires Inv(s) && Enabled(s, e)
    ensures var t := Step(s, e);
            t.hist.scheduled == s.hist.scheduled +
            match e
            case Readable(r) => if r.Data? && r.bytes != [] then Waiting(s.readCoro) else multiset{}
            case Writable(_) =>
              if s.output != [] && t.output == [] && s.writing then Waiting(s.writeCoro) else multiset{}
            case AwaitRead(h, hint) => if 0 < |s.input| < hint then multiset{h} else multiset{}
            case AwaitWrite(h, _, _) => if t.output == [] then multiset{h} else multiset{}
            case _ => multiset{}
  {
    if e.Send? || e.AwaitWrite? {
      SendKeepsScheduled(s, e.data, e.w);
      hide SendData;
    } else if e.Writable? {
      WriteResumes(s, e.w);
      hide HandleWrite;
    }
  }

  lemma SendKeepsScheduled(s: Conn, data: seq<byte>, w: WriteResult)
    requires Answers(w, |data|)
    ensures SendData(s, data, w).hist.scheduled == s.hist.scheduled
  {
  }

  lemma WriteResumes(s: Conn, w: WriteResult)
    requires Answers(w, |s.output|)
    ensures var t := HandleWrite(s, w);
            t.hist.scheduled == s.hist.scheduled +
            if s.output != [] && t.output == [] && s.writing then Waiting(s.writeCoro) else multiset{}
  {
  }

  /** A writer is parked exactly if its await leaves something to write, and then waits until nothing is left. */
  lemma WriterParks(s: Conn, h: Handle, data: seq<byte>, w: WriteResult)
    requires Answers(w, |data|)
    ensures var t := Step(s, AwaitWrite(h, data, w));
            t.writeCoro == if t.output != [] then Some(h) else s.writeCoro
  {
    SendKeepsWriter(s, data, w);
    hide SendData;
  }

  lemma SendKeepsWriter(s: Conn, data: seq<byte>, w: WriteResult)
    requires Answers(w, |data|)
    ensures SendData(s, data, w).writeCoro == s.writeCoro
  {
  }

  // ---------- what the hint of a read does not promise ----------

  /** The coroutine is handed to the loop for an await of hint bytes while fewer are there: at once, or by the delivery
      r. What else arrives or is consumed before it runs is not looked at. */
  predicate ResumedShort(s: Conn, h: Handle, hint: nat, r: ReadResult) {
    var t := AwaitReading(s, h, hint);
    var u := HandleRead(t, r);
    || (t.hist.scheduled == s.hist.scheduled + multiset{h} && |t.input| < hint)
    || (t.hist.scheduled == s.hist.scheduled && t.hist.suspended == s.hist.suspended + multiset{h}
        && u.hist.scheduled == t.hist.scheduled + multiset{h} && |u.input| < hint)
  }

  /** A read is documented to resume once hint bytes are buffered. Some delivery hands it to the loop with fewer exactly
      when it is not satisfied from the buffer and asks for more than one byte. */
  lemma HintNotAwaited(s: Conn, h: Handle, hint: nat)
    ensures (exists r :: ResumedShort(s, h, hint, r)) <==> |s.input| < hint && hint >= 2
    ensures forall r :: ResumedShort(s, h, hint, r) <==>
              0 < |s.input| < hint || (s.input == [] && r.Data? && 0 < |r.bytes| < hint)
  {
    assert forall r :: ResumedShort(s, h, hint, r) <==>
             0 < |s.input| < hint || (s.input == [] && r.Data? && 0 < |r.bytes| < hint);
    if |s.input| < hint && hint >= 2 {
      assert ResumedShort(s, h, hint, Data([65]));
    }
  }

  /** Two bytes asked for, one delivered: resumed with one. */
  lemma HintExample(h: Handle)
    ensures var es := [Establish, AwaitRead(h, 2), Readable(Data([65]))];
            && EnabledRun(INIT, es)
            && Run(INIT, es).hist.scheduled == multiset{h} && |Run(INIT, es).input| == 1
  {
    RunStep(INIT, [], Establish);
    RunStep(INIT, [Establish], AwaitRead(h, 2));
    RunStep(INIT, [Establish, AwaitRead(h, 2)], Readable(Data([65])));
    assert [Establish, AwaitRead(h, 2)] + [Readable(Data([65]))] == [Establish, AwaitRead(h, 2), Readable(Data([65]))];
  }
}
