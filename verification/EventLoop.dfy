/** The event loop object: its fields, and the methods that change them, over the steps of LoopSpec. */
module EventLoops {
  import opened LoopSpec

  datatype Caller = LoopThread | Other(thread: Thread)

  /** A task queued by the loop thread's own code or by another thread. */
  datatype Arrival = Arrival(caller: Caller, task: Task)

  function Tasks(arrivals: seq<Arrival>): seq<Task> {
    seq(|arrivals|, i requires 0 <= i < |arrivals| => arrivals[i].task)
  }

  /** Queueing these makes the eventfd readable: any does during a drain, otherwise only what other threads queue. */
  predicate Alerts(arrivals: seq<Arrival>, draining: bool) {
    exists i :: 0 <= i < |arrivals| && (arrivals[i].caller.Other? || draining)
  }

  /** What is queued while a batch runs: arrivals(k) from the moment its k-th task starts until the next one does, by
      that task itself or by other threads, in whatever order they get to it. */
  function During(batch: seq<Task>, arrivals: nat -> seq<Arrival>, k: nat): seq<Task> {
    if batch == [] then [] else Tasks(arrivals(k)) + During(batch[1..], arrivals, k + 1)
  }

  /** What a drain leaves queued: arrivals(0) from the swap until the first task starts, and what comes after that. */
  function Left(batch: seq<Task>, arrivals: nat -> seq<Arrival>): seq<Task> {
    Tasks(arrivals(0)) + During(batch, arrivals, 1)
  }

  /** Half-way through a drain of batch, with tasks to go: where every task pushed by now is. */
  predicate Draining(batch: seq<Task>, tasks: seq<Task>, arrivals: nat -> seq<Arrival>,
                     k: nat, start: seq<Task>, pending: seq<Task>, queued: seq<Task>, executed: seq<Task>) {
    && executed + tasks == start && queued == start + pending
    && pending + During(tasks, arrivals, k) == Left(batch, arrivals)
  }

  lemma DrainingStep(batch: seq<Task>, tasks: seq<Task>, arrivals: nat -> seq<Arrival>,
                     k: nat, start: seq<Task>, pending: seq<Task>, queued: seq<Task>, executed: seq<Task>)
    requires Draining(batch, tasks, arrivals, k, start, pending, queued, executed) && tasks != []
    ensures var added := Tasks(arrivals(k));
            Draining(batch, tasks[1..], arrivals, k + 1, start, pending + added, queued + added, executed + [tasks[0]])
  {
  }

  lemma DrainingEnds(batch: seq<Task>, arrivals: nat -> seq<Arrival>, start: seq<Task>, executed: seq<Task>)
    requires executed + batch == start
    ensures var first := Tasks(arrivals(0)); Draining(batch, batch, arrivals, 1, start, first, start + first, executed)
    ensures forall k: nat, pending, queued, done ::
              Draining(batch, [], arrivals, k, start, pending, queued, done) ==>
                done == start && queued == start + pending && pending == Left(batch, arrivals)
  {
  }

  lemma AlertsStep(arrivals: seq<Arrival>, i: nat, draining: bool)
    requires i < |arrivals|
    ensures Alerts(arrivals[..i + 1], draining) <==>
            Alerts(arrivals[..i], draining) || arrivals[i].caller.Other? || draining
  {
    assert arrivals[..i + 1] == arrivals[..i] + [arrivals[i]];
    assert arrivals[..i + 1][i] == arrivals[i];
    if Alerts(arrivals[..i], draining) {
      var j :| 0 <= j < i && (arrivals[..i][j].caller.Other? || draining);
      assert arrivals[..i + 1][j] == arrivals[..i][j];
    }
  }

  lemma WakesInDrain(arrivals: seq<Arrival>)
    ensures Alerts(arrivals, true) <==> Tasks(arrivals) != []
  {
    if arrivals != [] {
      assert arrivals[0].caller.Other? || true;
      assert Alerts(arrivals, true);
    }
  }

  class EventLoop {
    var pendingTasks: seq<Task>
    var callingPendingTasks: bool
    var quit: bool
    var wakeupCounter: nat         // the eventfd
    ghost var view: Loop

    ghost predicate Valid()
      reads this
    {
      && Inv(view)
      && view.pending == pendingTasks && view.calling == callingPendingTasks
      && view.quit == quit && view.eventfd == wakeupCounter
    }

    /** The loop thread is free to act: no wakeup of its own is outstanding. */
    ghost predicate Ready()
      reads this
    {
      Valid() && !view.loopOwes
    }

    constructor ()
      ensures Ready() && view == INIT
    {
      pendingTasks, callingPendingTasks, quit, wakeupCounter := [], false, false, 0;
      view := INIT;
    }

    /** Advance the history; the caller changes the fields to match. */
    ghost method Act(a: Action)
      requires Inv(view) && Enabled(view, a)
      modifies this`view
      ensures Inv(view) && view == Step(old(view), a)
    {
      StepKeepsWake(view, a);
      StepConserves(view, a);
      view := Step(view, a);
    }

    method Wakeup(caller: Caller)
      requires Valid()
      requires Enabled(view, if caller.LoopThread? then LoopWake else OtherWake(caller.thread))
      modifies this
      ensures Valid()
      ensures view == Step(old(view), if caller.LoopThread? then LoopWake else OtherWake(caller.thread))
    {
      Act(if caller.LoopThread? then LoopWake else OtherWake(caller.thread));
      if wakeupCounter < EVENTFD_MAX {
        wakeupCounter := wakeupCounter + 1;
      }
    }

    method HandleReadWakeup()
      requires Valid() && Enabled(view, ReadWakeup)
      modifies this
      ensures Valid() && view == Step(old(view), ReadWakeup)
    {
      Act(ReadWakeup);
      wakeupCounter := 0;
    }

    /** Queue one task; the wakeup follows unless the loop thread does this outside a drain. */
    method QueueInLoop(caller: Caller, task: Task)
      requires Ready()
      requires caller.LoopThread? ==> Enabled(view, LoopPush(task))
      modifies this
      ensures Ready()
      ensures pendingTasks == old(pendingTasks) + [task]
      ensures view.queued == old(view.queued) + [task]
      ensures view == old(view).(pending := view.pending, queued := view.queued, eventfd := view.eventfd)
      ensures wakeupCounter ==
              if caller.Other? || old(callingPendingTasks) then Bump(old(wakeupCounter)) else old(wakeupCounter)
    {
      Act(if caller.LoopThread? then LoopPush(task) else OtherPush(caller.thread, task));
      pendingTasks := pendingTasks + [task];
      if caller.Other? || callingPendingTasks {
        Wakeup(caller);
      }
      if caller.Other? {
        assert old(view).owing + multiset{caller.thread} - multiset{caller.thread} == old(view).owing;
      }
    }

    /** On the loop thread the task runs at once, past the queue; from elsewhere it is queued. */
    method RunInLoop(caller: Caller, task: Task) returns (ranNow: bool)
      requires Ready()
      modifies this
      ensures Ready() && (ranNow <==> caller.LoopThread?)
      ensures ranNow ==> view == old(view)
      ensures !ranNow ==> pendingTasks == old(pendingTasks) + [task] && wakeupCounter > 0
      ensures !ranNow ==> view == old(view).(pending := view.pending, queued := view.queued, eventfd := view.eventfd)
                          && view.queued == old(view.queued) + [task]
    {
      ranNow := caller.LoopThread?;
      if !ranNow {
        QueueInLoop(caller, task);
      }
    }

    method RequestQuit(caller: Caller)
      requires Ready()
      requires caller.LoopThread? ==> Enabled(view, LoopQuit)
      modifies this
      ensures Ready() && quit
      ensures view == old(view).(quit := true, eventfd := view.eventfd)
      ensures caller.Other? ==> wakeupCounter > 0
    {
      Act(if caller.LoopThread? then LoopQuit else OtherQuit(caller.thread));
      quit := true;
      if caller.Other? {
        Wakeup(caller);
        assert old(view).owing + multiset{caller.thread} - multiset{caller.thread} == old(view).owing;
      }
    }

    /** Other threads, and the loop thread's own code, queue tasks in this order. */
    method QueueArrivals(arrivals: seq<Arrival>)
      requires Ready() && (view.pc.Callbacks? || view.pc.Running?)
      modifies this
      ensures Ready()
      ensures pendingTasks == old(pendingTasks) + Tasks(arrivals)
      ensures view.queued == old(view.queued) + Tasks(arrivals)
      ensures view == old(view).(pending := view.pending, queued := view.queued, eventfd := view.eventfd)
      ensures wakeupCounter > 0 <==> old(wakeupCounter) > 0 || Alerts(arrivals, old(callingPendingTasks))
    {
      for i := 0 to |arrivals|
        invariant Ready()
        invariant pendingTasks == old(pendingTasks) + Tasks(arrivals[..i])
        invariant view.queued == old(view.queued) + Tasks(arrivals[..i])
        invariant view == old(view).(pending := view.pending, queued := view.queued, eventfd := view.eventfd)
        invariant wakeupCounter > 0 <==> old(wakeupCounter) > 0 || Alerts(arrivals[..i], old(callingPendingTasks))
      {
        AlertsStep(arrivals, i, callingPendingTasks);
        QueueInLoop(arrivals[i].caller, arrivals[i].task);
        assert Tasks(arrivals[..i + 1]) == Tasks(arrivals[..i]) + [arrivals[i].task];
      }
      assert arrivals[..|arrivals|] == arrivals;
    }

    /** Take the whole queue as the batch to run. */
    method SwapPending() returns (tasks: seq<Task>)
      requires Ready() && Enabled(view, Swap)
      modifies this
      ensures Ready() && view == Step(old(view), Swap)
      ensures tasks == old(pendingTasks) == view.batch && view.executed + tasks == view.queued
    {
      Act(Swap);
      tasks := pendingTasks;
      callingPendingTasks, pendingTasks := true, [];
      assert view.executed + view.batch + [] == view.executed + view.batch;
    }

    /** Run the next task of the batch; it and other threads queue theirs meanwhile. */
    method RunNext(ghost tasks: seq<Task>, arrived: seq<Arrival>)
      requires Ready() && view.pc.Running? && view.batch == tasks && tasks != []
      modifies this
      ensures Ready() && view.pc.Running? && view.batch == tasks[1..]
      ensures pendingTasks == old(pendingTasks) + Tasks(arrived)
      ensures view.queued == old(view.queued) + Tasks(arrived)
      ensures view.executed == old(view.executed) + [tasks[0]]
      ensures view.rounds == old(view.rounds) && quit == old(quit)
      ensures wakeupCounter > 0 <==> old(wakeupCounter) > 0 || Tasks(arrived) != []
    {
      WakesInDrain(arrived);
      Act(RunTask);
      QueueArrivals(arrived);
      hide Conserved;
    }

    /** Swap the queue out and run the batch. Exactly the tasks queued so far run, in order; what they or other
        threads queue meanwhile is left for the next drain, with the eventfd readable. */
    method DoPendingTasks(arrivals: nat -> seq<Arrival>)
      requires Ready() && Enabled(view, Swap)
      modifies this
      ensures Ready() && view.pc.Checking? && view.rounds == old(view.rounds) + 1
      ensures view.executed == old(view.queued)
      ensures pendingTasks == Left(old(pendingTasks), arrivals)
      ensures view.queued == old(view.queued) + pendingTasks
      ensures wakeupCounter > 0 <==> old(wakeupCounter) > 0 || pendingTasks != []
      ensures quit == old(quit)
    {
      hide Inv, Left, Draining;
      ghost var start := view.queued;
      var tasks := SwapPending();
      ghost var batch := tasks;
      DrainingEnds(batch, arrivals, start, view.executed);
      WakesInDrain(arrivals(0));
      QueueArrivals(arrivals(0));
      assert [] + Tasks(arrivals(0)) == Tasks(arrivals(0));
      var k := 1;
      while tasks != []
        invariant Ready() && view.pc.Running? && view.batch == tasks
        invariant view.rounds == old(view.rounds) && quit == old(quit)
        invariant Draining(batch, tasks, arrivals, k, start, pendingTasks, view.queued, view.executed)
        invariant wakeupCounter > 0 <==> old(wakeupCounter) > 0 || pendingTasks != []
        decreases |tasks|
      {
        DrainingStep(batch, tasks, arrivals, k, start, pendingTasks, view.queued, view.executed);
        RunNext(tasks, arrivals(k));
        tasks, k := tasks[1..], k + 1;
      }
      Act(FinishDrain);
      callingPendingTasks := false;
    }

    /** One turn of the loop: poll, dispatch, timers, drain. The callbacks of the turn and other threads queue early
        before the eventfd is read and late from then to the swap; the poll reports it only if it is readable. */
    method Iterate(wake: bool, early: seq<Arrival>, late: seq<Arrival>, arrivals: nat -> seq<Arrival>)
      requires Ready() && view.pc.Polling? && (wake ==> wakeupCounter > 0)
      modifies this
      ensures Ready() && view.pc.Checking?
      ensures view.executed == old(view.queued) + Tasks(early) + Tasks(late)
      ensures pendingTasks == Left(old(pendingTasks) + Tasks(early) + Tasks(late), arrivals)
      ensures wakeupCounter > 0 <==>
              pendingTasks != [] || Alerts(late, false)
              || (!wake && (old(wakeupCounter) > 0 || Alerts(early, false)))
    {
      Act(PollReturns(wake));
      QueueArrivals(early);
      if wake {
        HandleReadWakeup();
      }
      QueueArrivals(late);
      DoPendingTasks(arrivals);
    }
  }
}
