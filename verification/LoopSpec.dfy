/** The cross-thread task queue of an event loop, as interleaved atomic steps of the loop and of any other threads. */
module LoopSpec {
  type Task = nat
  type Thread = nat

  /** Where the loop thread is. User code runs inside Callbacks and, one task at a time, inside Running. */
  datatype Pc =
    | Checking                 // about to test quit_
    | Polling                  // about to poll, or blocked in it
    | Callbacks(wake: bool)    // dispatching events and timers; wake: the eventfd event is still to be handled
    | Running                  // draining a batch of tasks
    | Stopped

  datatype Loop = Loop(
    pc: Pc, pending: seq<Task>, batch: seq<Task>, calling: bool, quit: bool, eventfd: nat,
    loopOwes: bool,              // the loop thread is between a push and its wakeup
    owing: multiset<Thread>,     // other threads between a push, or a quit, and their wakeup
    queued: seq<Task>,           // every task ever pushed, in order
    executed: seq<Task>,         // every task ever started, in order
    mark: nat,                   // how many tasks had been pushed at the last swap
    rounds: nat)                 // drains completed

  const INIT := Loop(Checking, [], [], false, false, 0, false, multiset{}, [], [], 0, 0)

  /** An eventfd counter stops short of its maximum; a write that would pass it fails and is ignored. */
  const EVENTFD_MAX: nat := 0xFFFF_FFFF_FFFF_FFFE

  function Bump(n: nat): nat {
    if n < EVENTFD_MAX then n + 1 else n
  }

  datatype Action =
    | Check
    | PollReturns(wake: bool)
    | ReadWakeup
    | Swap
    | RunTask
    | FinishDrain
    | LoopPush(task: Task)
    | LoopWake
    | LoopQuit
    | OtherPush(thread: Thread, task: Task)
    | OtherQuit(thread: Thread)
    | OtherWake(thread: Thread)

  predicate Enabled(s: Loop, a: Action) {
    match a
    case Check => s.pc.Checking?
    case PollReturns(wake) => s.pc.Polling? && (wake ==> s.eventfd > 0)
    case ReadWakeup => s.pc.Callbacks? && s.pc.wake && !s.loopOwes
    case Swap => s.pc.Callbacks? && !s.pc.wake && !s.loopOwes
    case RunTask => s.pc.Running? && s.batch != [] && !s.loopOwes
    case FinishDrain => s.pc.Running? && s.batch == [] && !s.loopOwes
    case LoopPush(_) => (s.pc.Callbacks? || s.pc.Running?) && !s.loopOwes
    case LoopWake => s.loopOwes
    case LoopQuit => s.pc.Callbacks? || s.pc.Running?
    case OtherPush(_, _) => true
    case OtherQuit(_) => true
    case OtherWake(t) => t in s.owing
  }

  function Push(s: Loop, task: Task): Loop {
    s.(pending := s.pending + [task], queued := s.queued + [task])
  }

  function Step(s: Loop, a: Action): Loop
    requires Enabled(s, a)
  {
    match a
    case Check => s.(pc := if s.quit then Stopped else Polling)
    case PollReturns(wake) => s.(pc := Callbacks(wake))
    case ReadWakeup => s.(eventfd := 0, pc := Callbacks(false))
    case Swap => s.(pc := Running, calling := true, batch := s.pending, pending := [], mark := |s.queued|)
    case RunTask => s.(executed := s.executed + [s.batch[0]], batch := s.batch[1..])
    case FinishDrain => s.(pc := Checking, calling := false, rounds := s.rounds + 1)
    case LoopPush(task) => Push(s, task).(loopOwes := s.calling)
    case LoopWake => s.(eventfd := Bump(s.eventfd), loopOwes := false)
    case LoopQuit => s.(quit := true)
    case OtherPush(t, task) => Push(s, task).(owing := s.owing + multiset{t})
    case OtherQuit(t) => s.(quit := true, owing := s.owing + multiset{t})
    case OtherWake(t) => s.(eventfd := Bump(s.eventfd), owing := s.owing - multiset{t})
  }

  predicate EnabledRun(s: Loop, actions: seq<Action>)
    decreases |actions|
  {
    actions == [] || (Enabled(s, actions[0]) && EnabledRun(Step(s, actions[0]), actions[1..]))
  }

  function Run(s: Loop, actions: seq<Action>): Loop
    requires EnabledRun(s, actions)
    decreases |actions|
  {
    if actions == [] then s else Run(Step(s, actions[0]), actions[1..])
  }

  lemma {:induction false} RunConcat(s: Loop, a: seq<Action>, b: seq<Action>)
    requires EnabledRun(s, a)
    ensures EnabledRun(s, a + b) <==> EnabledRun(Run(s, a), b)
    ensures EnabledRun(s, a + b) ==> Run(s, a + b) == Run(Run(s, a), b)
    decreases |a|
  {
    if a == [] {
      assert a + b == b;
    } else {
      assert (a + b)[0] == a[0] && (a + b)[1..] == a[1..] + b;
      RunConcat(Step(s, a[0]), a[1..], b);
    }
  }

  // ---------- what every step keeps ----------

  /** Somebody is about to write the eventfd, or it is already readable. */
  predicate Signalled(s: Loop) {
    s.eventfd > 0 || s.loopOwes || s.owing != multiset{}
  }

  predicate WakeInv(s: Loop) {
    && (s.calling <==> s.pc.Running?)
    && (s.loopOwes ==> s.pc.Running?)
    && (s.batch != [] ==> s.pc.Running?)
    && (s.pc.Polling? || s.pc.Checking? || s.pc.Running? ==> s.pending != [] ==> Signalled(s))
    && (s.pc.Polling? && s.quit ==> Signalled(s))
    && (s.pc.Stopped? ==> s.quit)
  }

  /** No task is lost, repeated or overtaken. */
  predicate Conserved(s: Loop) {
    && s.executed + s.batch + s.pending == s.queued
    && |s.executed| + |s.batch| == s.mark
  }

  predicate Inv(s: Loop) {
    WakeInv(s) && Conserved(s)
  }

  lemma StepKeepsWake(s: Loop, a: Action)
    requires WakeInv(s) && Enabled(s, a)
    ensures WakeInv(Step(s, a))
  {
  }

  lemma StepConserves(s: Loop, a: Action)
    requires Inv(s) && Enabled(s, a)
    ensures Conserved(Step(s, a))
  {
  }

  lemma {:induction false} RunKeepsInv(s: Loop, actions: seq<Action>)
    requires Inv(s) && EnabledRun(s, actions)
    ensures Inv(Run(s, actions))
    decreases |actions|
  {
    if actions != [] {
      StepConserves(s, actions[0]);
      RunKeepsInv(Step(s, actions[0]), actions[1..]);
    }
  }

  // ---------- the guarantees of whole runs ----------

  /** Whenever the loop is about to poll with work pending, or told to quit, the poll cannot block for good:
      the eventfd is readable, or another thread is about to write it. */
  lemma NoLostWakeup(actions: seq<Action>)
    requires EnabledRun(INIT, actions)
    ensures var s := Run(INIT, actions);
            s.pc.Polling? && (s.pending != [] || s.quit) ==> s.eventfd > 0 || s.owing != multiset{}
  {
    RunKeepsInv(INIT, actions);
  }

  predicate Told(actions: seq<Action>) {
    exists i :: 0 <= i < |actions| && (actions[i].LoopQuit? || actions[i].OtherQuit?)
  }

  lemma StepQuits(s: Loop, a: Action)
    requires Enabled(s, a)
    ensures Step(s, a).quit <==> s.quit || a.LoopQuit? || a.OtherQuit?
  {
  }

  lemma {:induction false} QuitIsTold(s: Loop, actions: seq<Action>)
    requires EnabledRun(s, actions)
    ensures Run(s, actions).quit <==> s.quit || Told(actions)
    decreases |actions|
  {
    if actions != [] {
      StepQuits(s, actions[0]);
      QuitIsTold(Step(s, actions[0]), actions[1..]);
      assert actions == [actions[0]] + actions[1..];
      hide Step, Enabled;
    }
  }

  /** The loop stops only if somebody told it to quit. */
  lemma StopsOnlyIfTold(actions: seq<Action>)
    requires EnabledRun(INIT, actions)
    ensures Run(INIT, actions).pc.Stopped? ==> Told(actions)
  {
    RunKeepsInv(INIT, actions);
    QuitIsTold(INIT, actions);
  }

  // ---------- the eventfd ----------

  function Wakes(actions: seq<Action>): nat {
    if actions == [] then 0 else (if actions[0].LoopWake? || actions[0].OtherWake? then 1 else 0) + Wakes(actions[1..])
  }

  predicate Reads(actions: seq<Action>) {
    ReadWakeup in actions
  }

  /** Until it is read the eventfd counts the wakeups, up to its maximum. */
  lemma {:induction false} EventfdCounts(s: Loop, actions: seq<Action>)
    requires EnabledRun(s, actions) && !Reads(actions) && s.eventfd <= EVENTFD_MAX
    ensures var max, n := 0xFFFF_FFFF_FFFF_FFFE, s.eventfd + Wakes(actions);
            Run(s, actions).eventfd == if n <= max then n else max
    decreases |actions|
  {
    if actions != [] {
      StepCounts(s, actions[0]);
      EventfdCounts(Step(s, actions[0]), actions[1..]);
      hide Step, Enabled;
    }
  }

  lemma StepCounts(s: Loop, a: Action)
    requires Enabled(s, a) && s.eventfd <= EVENTFD_MAX
    ensures var n := s.eventfd + if a.LoopWake? || a.OtherWake? then 1 else 0;
            Step(s, a).eventfd ==
            if a.ReadWakeup? then 0 else if n <= EVENTFD_MAX then n else EVENTFD_MAX
  {
  }

  /** After it has been read no poll reports it until somebody writes it again: the loop does not spin. */
  lemma NoSpuriousWakeup(s: Loop, actions: seq<Action>)
    requires Enabled(s, ReadWakeup) && EnabledRun(Step(s, ReadWakeup), actions)
    requires Wakes(actions) == 0
    ensures Run(Step(s, ReadWakeup), actions).eventfd == 0
    ensures PollReturns(true) !in actions
  {
    QuietEventfd(Step(s, ReadWakeup), actions);
  }

  lemma {:induction false} QuietEventfd(s: Loop, actions: seq<Action>)
    requires EnabledRun(s, actions) && s.eventfd == 0 && Wakes(actions) == 0
    ensures Run(s, actions).eventfd == 0 && PollReturns(true) !in actions
    decreases |actions|
  {
    if actions != [] {
      QuietEventfd(Step(s, actions[0]), actions[1..]);
    }
  }

  // ---------- who owes a wakeup ----------

  /** The wakeups other threads take on, by pushing a task or telling the loop to quit, and those they pay. */
  function TakenOn(actions: seq<Action>): multiset<Thread> {
    if actions == [] then multiset{}
    else
      (if actions[0].OtherPush? || actions[0].OtherQuit? then multiset{actions[0].thread} else multiset{})
      + TakenOn(actions[1..])
  }

  function Paid(actions: seq<Action>): multiset<Thread> {
    if actions == [] then multiset{}
    else (if actions[0].OtherWake? then multiset{actions[0].thread} else multiset{}) + Paid(actions[1..])
  }

  lemma StepOwes(s: Loop, a: Action)
    requires Enabled(s, a)
    ensures Step(s, a).owing + (if a.OtherWake? then multiset{a.thread} else multiset{}) ==
            s.owing + if a.OtherPush? || a.OtherQuit? then multiset{a.thread} else multiset{}
    ensures Step(s, a).loopOwes <==> (a.LoopPush? && s.calling) || (!a.LoopPush? && !a.LoopWake? && s.loopOwes)
  {
  }

  /** A thread owes exactly the wakeups it has taken on and not paid. */
  lemma {:induction false} OwingAddsUp(s: Loop, actions: seq<Action>)
    requires EnabledRun(s, actions)
    ensures Run(s, actions).owing + Paid(actions) == s.owing + TakenOn(actions)
    decreases |actions|
  {
    if actions != [] {
      StepOwes(s, actions[0]);
      var a, n, more := actions[0], Step(s, actions[0]), actions[1..];
      OwingAddsUp(n, more);
      hide Step, Enabled;
      BothAddUp(s.owing, n.owing, Run(s, actions).owing,
                if a.OtherWake? then multiset{a.thread} else multiset{}, Paid(more),
                if a.OtherPush? || a.OtherQuit? then multiset{a.thread} else multiset{}, TakenOn(more));
    }
  }

  lemma BothAddUp(first: multiset<Thread>, next: multiset<Thread>, last: multiset<Thread>, paid: multiset<Thread>,
                  paidLater: multiset<Thread>, taken: multiset<Thread>, takenLater: multiset<Thread>)
    requires next + paid == first + taken && last + paidLater == next + takenLater
    ensures last + (paid + paidLater) == first + (taken + takenLater)
  {
    assert last + (paid + paidLater) == (last + paidLater) + paid;
    assert first + (taken + takenLater) == (next + paid) + takenLater;
  }

  /** Once all have written what they owe, a loop that polls with work pending, or told to quit, finds the eventfd
      readable. */
  lemma PaidUpIsReadable(actions: seq<Action>)
    requires EnabledRun(INIT, actions) && Paid(actions) == TakenOn(actions)
    ensures var s := Run(INIT, actions); s.pc.Polling? && (s.pending != [] || s.quit) ==> s.eventfd > 0
  {
    OwingAddsUp(INIT, actions);
    NoLostWakeup(actions);
    assert INIT.owing + TakenOn(actions) == TakenOn(actions);
  }

  // ---------- quitting ----------

  function Polls(actions: seq<Action>): nat {
    if actions == [] then 0 else (if actions[0].PollReturns? then 1 else 0) + Polls(actions[1..])
  }

  /** Once told to quit, the loop stops at its next check: whatever any threads do afterwards, at most the poll it was
      in returns, at most one drain ends, and a check leads nowhere but to the end. */
  lemma {:induction false} QuitStops(s: Loop, actions: seq<Action>)
    requires s.quit && EnabledRun(s, actions)
    ensures var t := Run(s, actions);
            && t.quit && (Check in actions ==> t.pc.Stopped?)
            && Polls(actions) <= (if s.pc.Polling? then 1 else 0)
            && t.rounds <= s.rounds + (if s.pc.Checking? || s.pc.Stopped? then 0 else 1)
            && (s.pc.Checking? || s.pc.Stopped? ==> t.pc.Checking? || t.pc.Stopped?)
            && (s.pc.Stopped? ==> t.pc.Stopped?)
            && (!s.pc.Polling? ==> !t.pc.Polling?)
    decreases |actions|
  {
    if actions != [] {
      QuitStops(Step(s, actions[0]), actions[1..]);
    }
  }

  /** The tasks pushed in a run, by any thread, in order. */
  function Pushed(actions: seq<Action>): seq<Task> {
    if actions == [] then []
    else (if actions[0].LoopPush? || actions[0].OtherPush? then [actions[0].task] else []) + Pushed(actions[1..])
  }

  lemma StepQueues(s: Loop, a: Action)
    requires Enabled(s, a)
    ensures Step(s, a).queued == s.queued + if a.LoopPush? || a.OtherPush? then [a.task] else []
  {
  }

  lemma {:induction false} QueuedIsPushed(s: Loop, actions: seq<Action>)
    requires EnabledRun(s, actions)
    ensures Run(s, actions).queued == s.queued + Pushed(actions)
    decreases |actions|
  {
    if actions != [] {
      StepQueues(s, actions[0]);
      QueuedIsPushed(Step(s, actions[0]), actions[1..]);
    }
  }

  /** Tasks start in the order they were pushed, each at most once; what was pushed during a drain is not in its
      batch: the batch ends where the queue was when it was swapped out. */
  lemma TaskOrder(actions: seq<Action>)
    requires EnabledRun(INIT, actions)
    ensures var s, pushed := Run(INIT, actions), Pushed(actions);
            && s.executed <= pushed
            && s.executed + s.batch + s.pending == pushed
            && s.mark <= |pushed| && s.executed + s.batch == pushed[..s.mark] && s.pending == pushed[s.mark..]
  {
    assert Inv(INIT) by { InitInv(); }
    RunKeepsInv(INIT, actions);
    QueuedIsPushed(INIT, actions);
    assert [] + Pushed(actions) == Pushed(actions);
  }

  lemma InitInv()
    ensures Inv(INIT)
  {
  }

  /** How a later state of a run relates to one where the loop was about to poll. */
  predicate Later(s: Loop, t: Loop) {
    && s.queued <= t.queued
    && t.rounds >= s.rounds
    && (t.rounds == s.rounds ==>
          t.pc.Polling? || t.pc.Callbacks? || (t.pc.Running? && t.mark >= |s.queued|))
    && (t.rounds > s.rounds ==> |t.executed| >= |s.queued|)
  }

  lemma {:induction false} RunGoesLater(s: Loop, t: Loop, actions: seq<Action>)
    requires Inv(t) && Later(s, t) && EnabledRun(t, actions)
    ensures Later(s, Run(t, actions))
    decreases |actions|
  {
    if actions != [] {
      StepKeepsWake(t, actions[0]);
      StepConserves(t, actions[0]);
      RunGoesLater(s, Step(t, actions[0]), actions[1..]);
    }
  }

  /** Every task queued before the loop polls has been run when that iteration ends, whatever other threads do. */
  lemma RunsWithinOneIteration(before: seq<Action>, after: seq<Action>)
    requires EnabledRun(INIT, before) && EnabledRun(Run(INIT, before), after)
    requires Run(INIT, before).pc.Polling?
    ensures var s, t := Run(INIT, before), Run(Run(INIT, before), after);
            t.rounds > s.rounds ==> s.queued <= t.executed
  {
    RunKeepsInv(INIT, before);
    var s := Run(INIT, before);
    RunKeepsInv(s, after);
    RunGoesLater(s, s, after);
  }

  /** What the loop thread does from its poll to its next check when nobody interferes. */
  function Iteration(s: Loop): seq<Action> {
    (if s.eventfd > 0 then [PollReturns(true), ReadWakeup] else [PollReturns(false)])
    + [Swap] + seq(|s.pending|, _ => RunTask) + [FinishDrain]
  }

  lemma {:induction false} DrainsBatch(s: Loop)
    requires Inv(s) && s.pc.Running? && !s.loopOwes
    ensures var runs := seq(|s.batch|, _ => RunTask);
            && EnabledRun(s, runs)
            && Run(s, runs) == s.(executed := s.executed + s.batch, batch := [])
    decreases |s.batch|
  {
    var runs := seq(|s.batch|, _ => RunTask);
    if s.batch == [] {
      assert runs == [] && s.executed + s.batch == s.executed;
    } else {
      var t := Step(s, RunTask);
      assert runs[1..] == seq(|t.batch|, _ => RunTask);
      DrainsBatch(t);
    }
  }

  lemma Extend(s: Loop, actions: seq<Action>, a: Action)
    requires EnabledRun(s, actions) && Enabled(Run(s, actions), a)
    ensures EnabledRun(s, actions + [a]) && Run(s, actions + [a]) == Step(Run(s, actions), a)
  {
    RunConcat(s, actions, [a]);
  }

  /** Left alone, the loop gets from its poll to the end of the iteration and has then run everything queued. */
  lemma IterationRunsEverything(s: Loop)
    requires Inv(s) && s.pc.Polling?
    ensures EnabledRun(s, Iteration(s))
    ensures var t := Run(s, Iteration(s));
            t.executed == s.queued && t.pending == [] && t.pc.Checking? && t.eventfd == 0 && t.quit == s.quit
  {
    var wake := if s.eventfd > 0 then [PollReturns(true), ReadWakeup] else [PollReturns(false)];
    if s.eventfd > 0 {
      Extend(s, [PollReturns(true)], ReadWakeup);
    }
    Extend(s, wake, Swap);
    var head := wake + [Swap];
    RunKeepsInv(s, head);
    var u := Run(s, head);
    DrainsBatch(u);
    var runs := seq(|s.pending|, _ => RunTask);
    RunConcat(s, head, runs);
    Extend(s, head + runs, FinishDrain);
  }
}
