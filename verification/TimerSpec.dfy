/** Timers without a heap: the set of live ones, and what it means to fire those that are due. */
module TimerSpec {
  type TimerId = nat

  datatype Timer = Timer(expire: nat, interval: nat, repeat: bool)

  /** The live timers and the next id to hand out. */
  datatype Live = Live(timers: map<TimerId, Timer>, nextId: TimerId)

  const INIT := Live(map[], 1)

  /** What user code does to the timers; an add reads the clock. */
  datatype Op = Add(clock: nat, delay: nat, repeat: bool) | Cancel(id: TimerId)

  function NewTimer(op: Op): Timer
    requires op.Add?
  {
    Timer(op.clock + op.delay, if op.repeat then op.delay else 0, op.repeat)
  }

  function ApplyOp(l: Live, op: Op): Live {
    match op
    case Add(_, _, _) => Live(l.timers[l.nextId := NewTimer(op)], l.nextId + 1)
    case Cancel(id) => l.(timers := l.timers - {id})
  }

  function ApplyOps(l: Live, ops: seq<Op>): Live
    decreases |ops|
  {
    if ops == [] then l else ApplyOps(ApplyOp(l, ops[0]), ops[1..])
  }

  lemma {:induction false} ApplyOpsStep(l: Live, ops: seq<Op>, op: Op)
    ensures ApplyOps(l, ops + [op]) == ApplyOp(ApplyOps(l, ops), op)
    decreases |ops|
  {
    if ops == [] {
    } else {
      assert (ops + [op])[1..] == ops[1..] + [op];
      ApplyOpsStep(ApplyOp(l, ops[0]), ops[1..], op);
    }
  }

  /** After its callback a repeating timer that is still live is rearmed; any other is gone. */
  function Settle(l: Live, id: TimerId, now: nat): Live {
    if id !in l.timers then l
    else if l.timers[id].repeat then
      l.(timers := l.timers[id := l.timers[id].(expire := now + l.timers[id].interval)])
    else l.(timers := l.timers - {id})
  }

  /** Fire one timer whose callback does ops. */
  function Fire(l: Live, id: TimerId, now: nat, ops: seq<Op>): Live {
    Settle(ApplyOps(l, ops), id, now)
  }

  predicate Due(l: Live, id: TimerId, now: nat) {
    id in l.timers && l.timers[id].expire <= now
  }

  predicate EarliestDue(l: Live, id: TimerId, now: nat) {
    Due(l, id, now) && forall j :: j in l.timers ==> l.timers[id].expire <= l.timers[j].expire
  }

  predicate NothingDue(l: Live, now: nat) {
    forall id :: id in l.timers ==> l.timers[id].expire > now
  }

  /** Each timer of fired is an earliest due one when its turn comes; the callback of the k-th does script(k). */
  predicate EarliestFirst(l: Live, fired: seq<TimerId>, now: nat, script: nat -> seq<Op>, k: nat)
    decreases |fired|
  {
    fired == []
    || (EarliestDue(l, fired[0], now)
        && EarliestFirst(Fire(l, fired[0], now, script(k)), fired[1..], now, script, k + 1))
  }

  function After(l: Live, fired: seq<TimerId>, now: nat, script: nat -> seq<Op>, k: nat): Live
    decreases |fired|
  {
    if fired == [] then l else After(Fire(l, fired[0], now, script(k)), fired[1..], now, script, k + 1)
  }

  /** fired is what one tick may fire: always an earliest due timer, until none is due. */
  predicate Schedule(l: Live, fired: seq<TimerId>, now: nat, script: nat -> seq<Op>, k: nat) {
    EarliestFirst(l, fired, now, script, k) && NothingDue(After(l, fired, now, script, k), now)
  }

  lemma {:induction false} FireNext(l: Live, fired: seq<TimerId>, now: nat, script: nat -> seq<Op>, k: nat, id: TimerId)
    requires EarliestFirst(l, fired, now, script, k) && EarliestDue(After(l, fired, now, script, k), id, now)
    ensures EarliestFirst(l, fired + [id], now, script, k)
    ensures After(l, fired + [id], now, script, k) ==
            Fire(After(l, fired, now, script, k), id, now, script(k + |fired|))
    decreases |fired|
  {
    if fired == [] {
    } else {
      assert (fired + [id])[0] == fired[0] && (fired + [id])[1..] == fired[1..] + [id];
      FireNext(Fire(l, fired[0], now, script(k)), fired[1..], now, script, k + 1, id);
    }
  }

  // ---------- assumptions on user code ----------

  /** A repeating timer has a pause, or at least is not due yet. */
  predicate Paced(ops: seq<Op>, now: nat) {
    forall i :: 0 <= i < |ops| && ops[i].Add? && ops[i].repeat ==>
      ops[i].delay >= 1 || ops[i].clock + ops[i].delay > now
  }

  /** The clock has not run back. */
  predicate Forward(ops: seq<Op>, now: nat) {
    forall i :: 0 <= i < |ops| && ops[i].Add? ==> ops[i].clock >= now
  }

  /** Nothing is added that is due. */
  predicate Ahead(ops: seq<Op>, now: nat) {
    forall i :: 0 <= i < |ops| && ops[i].Add? ==> ops[i].clock + ops[i].delay > now
  }

  ghost predicate ScriptPaced(script: nat -> seq<Op>, now: nat) {
    forall k :: Paced(script(k), now)
  }

  ghost predicate ScriptForward(script: nat -> seq<Op>, now: nat) {
    forall k :: Forward(script(k), now)
  }

  /** From the until-th callback on the clock, or the delay, takes what is added past now. */
  ghost predicate ScriptAhead(script: nat -> seq<Op>, now: nat, until: nat) {
    forall k :: k >= until ==> Ahead(script(k), now)
  }

  /** Every live timer has an id that was handed out. */
  predicate WellFormed(l: Live) {
    forall id :: id in l.timers ==> id < l.nextId
  }

  /** No timer that is due repeats without a pause. */
  predicate Steady(l: Live, now: nat) {
    forall id :: id in l.timers && Due(l, id, now) && l.timers[id].repeat ==> l.timers[id].interval >= 1
  }

  // ---------- what the operations of one callback do ----------

  predicate AddedBy(t: Timer, ops: seq<Op>) {
    exists i :: 0 <= i < |ops| && ops[i].Add? && t == NewTimer(ops[i])
  }

  /** Timers not cancelled are untouched, and new ones carry new ids. */
  lemma {:induction false} OpsFrame(l: Live, ops: seq<Op>)
    requires WellFormed(l)
    ensures var m := ApplyOps(l, ops);
            && WellFormed(m) && m.nextId >= l.nextId
            && (forall id :: id in l.timers && Cancel(id) !in ops ==> id in m.timers)
            && (forall id :: id in m.timers && id < l.nextId ==>
                  id in l.timers && m.timers[id] == l.timers[id] && Cancel(id) !in ops)
            && (forall id :: id in m.timers && id >= l.nextId ==> AddedBy(m.timers[id], ops))
    decreases |ops|
  {
    if ops != [] {
      var n := ApplyOp(l, ops[0]);
      OpsFrame(n, ops[1..]);
      var m := ApplyOps(l, ops);
      forall id | id in m.timers && id >= l.nextId
        ensures AddedBy(m.timers[id], ops)
      {
        if id < n.nextId {
          assert m.timers[id] == NewTimer(ops[0]);
        } else {
          var i :| 0 <= i < |ops[1..]| && ops[1..][i].Add? && m.timers[id] == NewTimer(ops[1..][i]);
          assert ops[i + 1] == ops[1..][i];
        }
      }
    }
  }

  lemma FireFrame(l: Live, f: TimerId, now: nat, ops: seq<Op>)
    requires WellFormed(l) && Due(l, f, now)
    ensures var m := Fire(l, f, now, ops);
            && WellFormed(m) && m.nextId >= l.nextId
            && (forall id: TimerId :: id != f && Due(m, id, now) && id < l.nextId ==>
                  id in l.timers && m.timers[id] == l.timers[id] && Cancel(id) !in ops)
            && (forall id :: id != f && Due(l, id, now) && Cancel(id) !in ops ==> Due(m, id, now))
            && (forall id :: id in m.timers && id >= l.nextId ==> AddedBy(m.timers[id], ops))
  {
    OpsFrame(l, ops);
  }

  /** A timer that fired is not due any more, and neither the due ones nor the added ones repeat without a pause. */
  lemma FireKeepsSteady(l: Live, f: TimerId, now: nat, ops: seq<Op>)
    requires WellFormed(l) && Steady(l, now) && Paced(ops, now) && Due(l, f, now)
    ensures Steady(Fire(l, f, now, ops), now) && !Due(Fire(l, f, now, ops), f, now)
  {
    OpsFrame(l, ops);
  }

  // ---------- what one tick fires ----------

  ghost predicate CancelledBy(id: TimerId, script: nat -> seq<Op>, from: nat, until: nat) {
    exists j :: from <= j < until && Cancel(id) in script(j)
  }

  /** When each timer that fires was to expire. */
  function Expiries(l: Live, fired: seq<TimerId>, now: nat, script: nat -> seq<Op>, k: nat): (es: seq<nat>)
    requires EarliestFirst(l, fired, now, script, k)
    ensures |es| == |fired|
    decreases |fired|
  {
    if fired == [] then []
    else
      [l.timers[fired[0]].expire] + Expiries(Fire(l, fired[0], now, script(k)), fired[1..], now, script, k + 1)
  }

  predicate NoneBefore(l: Live, time: nat) {
    forall id :: id in l.timers ==> l.timers[id].expire >= time
  }

  lemma FireGoesForward(l: Live, f: TimerId, now: nat, ops: seq<Op>)
    requires WellFormed(l) && Forward(ops, now) && EarliestDue(l, f, now)
    ensures NoneBefore(Fire(l, f, now, ops), l.timers[f].expire)
  {
    OpsFrame(l, ops);
  }

  predicate Rising(es: seq<nat>, from: nat, to: nat) {
    && (forall i :: 0 <= i < |es| ==> from <= es[i] <= to)
    && (forall i, j :: 0 <= i < j < |es| ==> es[i] <= es[j])
  }

  lemma RisingOn(e: nat, es: seq<nat>, from: nat, to: nat)
    requires Rising(es, e, to) && from <= e <= to
    ensures Rising([e] + es, from, to)
  {
  }

  /** The timers fire in the order of their expiry. */
  lemma {:induction false} ExpiriesRise(l: Live, fired: seq<TimerId>, now: nat, script: nat -> seq<Op>, k: nat,
                                        time: nat)
    requires WellFormed(l) && ScriptForward(script, now) && EarliestFirst(l, fired, now, script, k)
    requires NoneBefore(l, time)
    ensures Rising(Expiries(l, fired, now, script, k), time, now)
    decreases |fired|
  {
    if fired != [] {
      var f, ops := fired[0], script(k);
      var m := Fire(l, f, now, ops);
      FireFrame(l, f, now, ops);
      FireGoesForward(l, f, now, ops);
      ExpiriesRise(m, fired[1..], now, script, k + 1, l.timers[f].expire);
      RisingOn(l.timers[f].expire, Expiries(m, fired[1..], now, script, k + 1), time, now);
    }
  }

  /** An id that was handed out and is not due now does not become due in this tick. */
  lemma {:induction false} NotDueStays(l: Live, fired: seq<TimerId>, now: nat, script: nat -> seq<Op>, k: nat,
                                       id: TimerId)
    requires WellFormed(l) && EarliestFirst(l, fired, now, script, k) && id < l.nextId && !Due(l, id, now)
    ensures id !in fired
    decreases |fired|
  {
    if fired != [] {
      FireFrame(l, fired[0], now, script(k));
      NotDueStays(Fire(l, fired[0], now, script(k)), fired[1..], now, script, k + 1, id);
    }
  }

  lemma {:induction false} FiresOnce(l: Live, fired: seq<TimerId>, now: nat, script: nat -> seq<Op>, k: nat)
    requires WellFormed(l) && Steady(l, now) && ScriptPaced(script, now) && EarliestFirst(l, fired, now, script, k)
    ensures WellFormed(After(l, fired, now, script, k)) && Steady(After(l, fired, now, script, k), now)
    ensures forall i, j :: 0 <= i < j < |fired| ==> fired[i] != fired[j]
    decreases |fired|
  {
    if fired != [] {
      var f, ops := fired[0], script(k);
      FireFrame(l, f, now, ops);
      FireKeepsSteady(l, f, now, ops);
      FiresOnce(Fire(l, f, now, ops), fired[1..], now, script, k + 1);
      NotDueStays(Fire(l, f, now, ops), fired[1..], now, script, k + 1, f);
    }
  }

  /** Of the timers there were before the tick, one that fires was due and not cancelled by an earlier callback; any
      other that fires was added by a callback, as due at once. */
  predicate Justified(l: Live, id: TimerId, expiry: nat, now: nat, cancelled: bool) {
    if id < l.nextId then Due(l, id, now) && expiry == l.timers[id].expire && !cancelled else expiry == now
  }

  ghost predicate AllJustified(l: Live, fired: seq<TimerId>, now: nat, script: nat -> seq<Op>, k: nat)
    requires EarliestFirst(l, fired, now, script, k)
  {
    var es := Expiries(l, fired, now, script, k);
    forall i :: 0 <= i < |fired| ==> Justified(l, fired[i], es[i], now, CancelledBy(fired[i], script, k, k + i))
  }

  lemma {:induction false} FiredJustified(l: Live, fired: seq<TimerId>, now: nat, script: nat -> seq<Op>, k: nat)
    requires WellFormed(l) && Steady(l, now) && EarliestFirst(l, fired, now, script, k)
    requires ScriptPaced(script, now) && ScriptForward(script, now)
    ensures AllJustified(l, fired, now, script, k)
    decreases |fired|
  {
    if fired != [] {
      var f, rest, m := fired[0], fired[1..], Fire(l, fired[0], now, script(k));
      FireFrame(l, f, now, script(k));
      FireKeepsSteady(l, f, now, script(k));
      FiresOnce(l, fired, now, script, k);
      FiredJustified(m, rest, now, script, k + 1);
      var es, later := Expiries(l, fired, now, script, k), Expiries(m, rest, now, script, k + 1);
      forall i | 0 < i < |fired|
        ensures Justified(l, fired[i], es[i], now, CancelledBy(fired[i], script, k, k + i))
      {
        assert fired[i] == rest[i - 1] && es[i] == later[i - 1];
        assert Justified(m, rest[i - 1], later[i - 1], now, CancelledBy(rest[i - 1], script, k + 1, k + 1 + (i - 1)));
        if l.nextId <= fired[i] < m.nextId {
          assert AddedBy(m.timers[fired[i]], script(k));
        }
      }
    }
  }

  lemma {:induction false} DueFiresOrIsCancelled(l: Live, fired: seq<TimerId>, now: nat, script: nat -> seq<Op>, k: nat,
                                                 id: TimerId)
    requires WellFormed(l) && Schedule(l, fired, now, script, k)
    requires Due(l, id, now) && id !in fired
    ensures CancelledBy(id, script, k, k + |fired|)
    decreases |fired|
  {
    var f, rest, m := fired[0], fired[1..], Fire(l, fired[0], now, script(k));
    FireFrame(l, f, now, script(k));
    if Cancel(id) !in script(k) {
      DueFiresOrIsCancelled(m, rest, now, script, k + 1, id);
    }
  }

  /** The timer is due after the first n of a tick have fired. */
  predicate DueAfter(l: Live, fired: seq<TimerId>, now: nat, script: nat -> seq<Op>, k: nat, n: nat, id: TimerId)
    requires n <= |fired|
  {
    Due(After(l, fired[..n], now, script, k), id, now)
  }

  lemma {:induction false} ScheduleSuffix(l: Live, fired: seq<TimerId>, now: nat, script: nat -> seq<Op>, k: nat,
                                          n: nat)
    requires WellFormed(l) && Schedule(l, fired, now, script, k) && n <= |fired|
    ensures WellFormed(After(l, fired[..n], now, script, k))
    ensures Schedule(After(l, fired[..n], now, script, k), fired[n..], now, script, k + n)
    decreases n
  {
    if n > 0 {
      FireFrame(l, fired[0], now, script(k));
      ScheduleSuffix(Fire(l, fired[0], now, script(k)), fired[1..], now, script, k + 1, n - 1);
      assert fired[..n][0] == fired[0] && fired[..n][1..] == fired[1..][..n - 1] && fired[n..] == fired[1..][n - 1..];
    } else {
      assert fired[..0] == [] && fired[0..] == fired;
    }
  }

  /** One tick fires in order of expiry and each timer at most once: of those there were, exactly the ones that are due
      and still live when their turn comes; and whatever is due at any moment of it, because it was before or because
      a callback has just added it, fires later in the same tick or is cancelled; afterwards nothing is due. */
  lemma TickIsExact(l: Live, fired: seq<TimerId>, now: nat, script: nat -> seq<Op>, k: nat)
    requires WellFormed(l) && Steady(l, now) && Schedule(l, fired, now, script, k)
    requires ScriptPaced(script, now) && ScriptForward(script, now)
    ensures forall i, j :: 0 <= i < j < |fired| ==> fired[i] != fired[j]
    ensures Rising(Expiries(l, fired, now, script, k), 0, now)
    ensures AllJustified(l, fired, now, script, k)
    ensures forall n: nat, id :: n <= |fired| && DueAfter(l, fired, now, script, k, n, id) && id !in fired[n..] ==>
              CancelledBy(id, script, k + n, k + |fired|)
    ensures WellFormed(After(l, fired, now, script, k)) && NothingDue(After(l, fired, now, script, k), now)
  {
    FiresOnce(l, fired, now, script, k);
    ExpiriesRise(l, fired, now, script, k, 0);
    FiredJustified(l, fired, now, script, k);
    forall n: nat, id | n <= |fired| && DueAfter(l, fired, now, script, k, n, id) && id !in fired[n..]
      ensures CancelledBy(id, script, k + n, k + |fired|)
    {
      ScheduleSuffix(l, fired, now, script, k, n);
      DueFiresOrIsCancelled(After(l, fired[..n], now, script, k), fired[n..], now, script, k + n, id);
    }
  }

  // ---------- cancelling is final ----------

  /** An id that was handed out and is no longer live. */
  predicate Dead(l: Live, id: TimerId) {
    id < l.nextId && id !in l.timers
  }

  lemma {:induction false} OpsKeepDead(l: Live, ops: seq<Op>, id: TimerId)
    requires Dead(l, id)
    ensures Dead(ApplyOps(l, ops), id)
    decreases |ops|
  {
    if ops != [] {
      OpsKeepDead(ApplyOp(l, ops[0]), ops[1..], id);
    }
  }

  lemma {:induction false} DeadNeverFires(l: Live, fired: seq<TimerId>, now: nat, script: nat -> seq<Op>, k: nat,
                                          id: TimerId)
    requires Dead(l, id) && Schedule(l, fired, now, script, k)
    ensures id !in fired && Dead(After(l, fired, now, script, k), id)
    decreases |fired|
  {
    if fired != [] {
      OpsKeepDead(l, script(k), id);
      DeadNeverFires(Fire(l, fired[0], now, script(k)), fired[1..], now, script, k + 1, id);
    }
  }

  /** A cancel inside a callback of the tick already stops the timer in that tick. */
  lemma CancelInsideCallback(l: Live, fired: seq<TimerId>, now: nat, script: nat -> seq<Op>, k: nat,
                             before: seq<Op>, after: seq<Op>, id: TimerId)
    requires fired != [] && Schedule(l, fired, now, script, k)
    requires script(k) == before + [Cancel(id)] + after
    requires id < ApplyOps(l, before).nextId
    ensures id !in fired[1..] && Dead(After(l, fired, now, script, k), id)
  {
    ApplyOpsSplit(l, before + [Cancel(id)], after);
    ApplyOpsStep(l, before, Cancel(id));
    OpsKeepDead(ApplyOps(l, before + [Cancel(id)]), after, id);
    DeadNeverFires(Fire(l, fired[0], now, script(k)), fired[1..], now, script, k + 1, id);
  }

  lemma {:induction false} ApplyOpsSplit(l: Live, a: seq<Op>, b: seq<Op>)
    ensures ApplyOps(l, a + b) == ApplyOps(ApplyOps(l, a), b)
    decreases |a|
  {
    if a == [] {
      assert a + b == b;
    } else {
      assert (a + b)[0] == a[0] && (a + b)[1..] == a[1..] + b;
      ApplyOpsSplit(ApplyOp(l, a[0]), a[1..], b);
    }
  }

  /** What happens to a wheel over its life. */
  datatype Event = Do(op: Op) | Tick(now: nat, fired: seq<TimerId>, script: nat -> seq<Op>)

  ghost predicate Possible(l: Live, e: Event) {
    e.Tick? ==> Schedule(l, e.fired, e.now, e.script, 0)
  }

  function Step(l: Live, e: Event): Live {
    match e
    case Do(op) => ApplyOp(l, op)
    case Tick(now, fired, script) => After(l, fired, now, script, 0)
  }

  ghost predicate PossibleRun(l: Live, es: seq<Event>)
    decreases |es|
  {
    es == [] || (Possible(l, es[0]) && PossibleRun(Step(l, es[0]), es[1..]))
  }

  /** Once cancelled, a timer fires in no later tick of any run: ids are not handed out twice. */
  lemma {:induction false} CancelIsFinal(l: Live, id: TimerId, es: seq<Event>)
    requires id < l.nextId && PossibleRun(ApplyOp(l, Cancel(id)), es)
    ensures forall i :: 0 <= i < |es| && es[i].Tick? ==> id !in es[i].fired
  {
    DeadForever(ApplyOp(l, Cancel(id)), id, es);
  }

  lemma {:induction false} DeadForever(l: Live, id: TimerId, es: seq<Event>)
    requires Dead(l, id) && PossibleRun(l, es)
    ensures forall i :: 0 <= i < |es| && es[i].Tick? ==> id !in es[i].fired
    decreases |es|
  {
    if es != [] {
      if es[0].Tick? {
        DeadNeverFires(l, es[0].fired, es[0].now, es[0].script, 0, id);
      }
      DeadForever(Step(l, es[0]), id, es[1..]);
    }
  }

  // ---------- when a timer fires ----------

  ghost function Run(l: Live, es: seq<Event>): Live
    decreases |es|
  {
    if es == [] then l else Run(Step(l, es[0]), es[1..])
  }

  ghost predicate Spares(e: Event, id: TimerId) {
    match e
    case Do(op) => op != Cancel(id)
    case Tick(_, _, script) => forall k :: Cancel(id) !in script(k)
  }

  /** A timer is due from its delay after the clock on, and not before. */
  lemma DueFromExpiry(l: Live, clock: nat, delay: nat, repeat: bool, now: nat)
    ensures var m := ApplyOp(l, Add(clock, delay, repeat));
            && (Due(m, l.nextId, now) <==> now >= clock + delay)
            && m.timers[l.nextId].repeat == repeat && m.timers[l.nextId].interval == (if repeat then delay else 0)
  {
  }

  lemma FireKeepsOthers(l: Live, f: TimerId, now: nat, ops: seq<Op>, id: TimerId)
    requires WellFormed(l) && id in l.timers && id != f && Cancel(id) !in ops
    ensures var m := Fire(l, f, now, ops); id in m.timers && m.timers[id] == l.timers[id]
    ensures WellFormed(Fire(l, f, now, ops)) && Fire(l, f, now, ops).nextId >= l.nextId
  {
    OpsFrame(l, ops);
  }

  lemma {:induction false} KeptByTick(l: Live, fired: seq<TimerId>, now: nat, script: nat -> seq<Op>, k: nat,
                                      id: TimerId)
    requires WellFormed(l) && EarliestFirst(l, fired, now, script, k)
    requires id in l.timers && l.timers[id].expire > now && forall j :: Cancel(id) !in script(j)
    ensures var m := After(l, fired, now, script, k);
            id !in fired && id in m.timers && m.timers[id] == l.timers[id] && WellFormed(m)
    decreases |fired|
  {
    if fired != [] {
      FireKeepsOthers(l, fired[0], now, script(k), id);
      KeptByTick(Fire(l, fired[0], now, script(k)), fired[1..], now, script, k + 1, id);
    }
  }

  lemma {:induction false} KeptUntilDue(l: Live, es: seq<Event>, id: TimerId)
    requires WellFormed(l) && PossibleRun(l, es) && id in l.timers
    requires forall i :: 0 <= i < |es| ==> Spares(es[i], id) && (es[i].Tick? ==> es[i].now < l.timers[id].expire)
    ensures var m := Run(l, es); WellFormed(m) && id in m.timers && m.timers[id] == l.timers[id]
    ensures forall i :: 0 <= i < |es| && es[i].Tick? ==> id !in es[i].fired
    decreases |es|
  {
    if es != [] {
      var e := es[0];
      if e.Tick? {
        KeptByTick(l, e.fired, e.now, e.script, 0, id);
      }
      KeptUntilDue(Step(l, e), es[1..], id);
    }
  }

  /** A timer added at a clock with a delay and not cancelled fires in no tick before that delay has passed, and fires
      in the first tick after it, whatever else is added, cancelled and fired meanwhile. */
  lemma FiresOnTime(l: Live, clock: nat, delay: nat, repeat: bool, es: seq<Event>, tick: Event)
    requires WellFormed(l) && tick.Tick? && tick.now >= clock + delay && Spares(tick, l.nextId)
    requires var m := ApplyOp(l, Add(clock, delay, repeat)); PossibleRun(m, es) && Possible(Run(m, es), tick)
    requires forall i :: 0 <= i < |es| ==> Spares(es[i], l.nextId) && (es[i].Tick? ==> es[i].now < clock + delay)
    ensures forall i :: 0 <= i < |es| && es[i].Tick? ==> l.nextId !in es[i].fired
    ensures l.nextId in tick.fired
  {
    var m := ApplyOp(l, Add(clock, delay, repeat));
    KeptUntilDue(m, es, l.nextId);
    if l.nextId !in tick.fired {
      DueFiresOrIsCancelled(Run(m, es), tick.fired, tick.now, tick.script, 0, l.nextId);
    }
  }

  lemma FireSettles(l: Live, id: TimerId, now: nat, ops: seq<Op>)
    requires WellFormed(l) && id in l.timers && Cancel(id) !in ops
    ensures var m := Fire(l, id, now, ops);
            && id < m.nextId
            && if l.timers[id].repeat then
                 id in m.timers && m.timers[id] == l.timers[id].(expire := now + l.timers[id].interval)
               else id !in m.timers
  {
    OpsFrame(l, ops);
  }

  /** A due timer that nobody cancels is gone after the tick, or, if it repeats, next due its interval after it. */
  lemma {:induction false} RearmedByTick(l: Live, fired: seq<TimerId>, now: nat, script: nat -> seq<Op>, k: nat,
                                         id: TimerId)
    requires WellFormed(l) && Steady(l, now) && ScriptPaced(script, now) && Schedule(l, fired, now, script, k)
    requires Due(l, id, now) && forall j :: Cancel(id) !in script(j)
    ensures var m := After(l, fired, now, script, k);
            if l.timers[id].repeat then
              id in m.timers && m.timers[id] == l.timers[id].(expire := now + l.timers[id].interval)
            else id !in m.timers
    decreases |fired|
  {
    var f, rest, m := fired[0], fired[1..], Fire(l, fired[0], now, script(k));
    FireFrame(l, f, now, script(k));
    FireKeepsSteady(l, f, now, script(k));
    if f != id {
      RearmedByTick(m, rest, now, script, k + 1, id);
    } else {
      FireSettles(l, id, now, script(k));
      if l.timers[id].repeat {
        KeptByTick(m, rest, now, script, k + 1, id);
      } else {
        DeadNeverFires(m, rest, now, script, k + 1, id);
      }
    }
    hide Steady, Paced, ScriptPaced, Fire;
  }

  /** A repeating timer that fired in a tick is due again its delay after that tick, and not before. */
  lemma RepeatsAfterDelay(l: Live, clock: nat, delay: nat, fired: seq<TimerId>, now: nat, script: nat -> seq<Op>,
                          t: nat)
    requires var m := ApplyOp(l, Add(clock, delay, true));
             WellFormed(m) && Steady(m, now) && ScriptPaced(script, now) && Schedule(m, fired, now, script, 0)
    requires now >= clock + delay && forall j :: Cancel(l.nextId) !in script(j)
    ensures Due(After(ApplyOp(l, Add(clock, delay, true)), fired, now, script, 0), l.nextId, t) <==> t >= now + delay
  {
    RearmedByTick(ApplyOp(l, Add(clock, delay, true)), fired, now, script, 0, l.nextId);
  }

  // ---------- ids ----------

  function Additions(ops: seq<Op>): nat {
    if ops == [] then 0 else (if ops[0].Add? then 1 else 0) + Additions(ops[1..])
  }

  /** Ids are handed out one after the other. */
  lemma {:induction false} IdsInOrder(l: Live, ops: seq<Op>)
    ensures ApplyOps(l, ops).nextId == l.nextId + Additions(ops)
    decreases |ops|
  {
    if ops != [] {
      IdsInOrder(ApplyOp(l, ops[0]), ops[1..]);
    }
  }

  predicate NoZero(l: Live) {
    l.nextId >= 1 && 0 !in l.timers
  }

  lemma {:induction false} OpsKeepNoZero(l: Live, ops: seq<Op>)
    requires NoZero(l)
    ensures NoZero(ApplyOps(l, ops))
    decreases |ops|
  {
    if ops != [] {
      OpsKeepNoZero(ApplyOp(l, ops[0]), ops[1..]);
    }
  }

  lemma {:induction false} TickKeepsNoZero(l: Live, fired: seq<TimerId>, now: nat, script: nat -> seq<Op>, k: nat)
    requires NoZero(l)
    ensures NoZero(After(l, fired, now, script, k))
    decreases |fired|
  {
    if fired != [] {
      OpsKeepNoZero(l, script(k));
      TickKeepsNoZero(Fire(l, fired[0], now, script(k)), fired[1..], now, script, k + 1);
    }
  }

  /** 0 is no timer's id, so that it can stand for none. */
  lemma {:induction false} NoTimerIsZero(l: Live, es: seq<Event>)
    requires NoZero(l)
    ensures NoZero(INIT) && NoZero(Run(l, es))
    decreases |es|
  {
    if es != [] {
      if es[0].Tick? {
        TickKeepsNoZero(l, es[0].fired, es[0].now, es[0].script, 0);
      }
      NoTimerIsZero(Step(l, es[0]), es[1..]);
    }
  }

  // ---------- when a tick ends ----------

  function DueIds(l: Live, now: nat): set<TimerId> {
    set id | id in l.timers && l.timers[id].expire <= now
  }

  lemma {:induction false} EarliestExists(l: Live, now: nat, among: set<TimerId>) returns (f: TimerId)
    requires among != {} && among <= l.timers.Keys
    ensures f in among && forall j :: j in among ==> l.timers[f].expire <= l.timers[j].expire
    decreases among
  {
    f :| f in among;
    if among != {f} {
      var g := EarliestExists(l, now, among - {f});
      if l.timers[g].expire < l.timers[f].expire {
        f := g;
      }
    }
  }

  /** A tick has a place to stop when no repeating timer that is due, or is added as due, lacks a pause, and from some
      callback on the clock has moved on: up to then each firing is one callback less, then one due timer less. */
  lemma {:induction false} TickEnds(l: Live, now: nat, script: nat -> seq<Op>, k: nat, until: nat)
    returns (fired: seq<TimerId>)
    requires WellFormed(l) && Steady(l, now) && ScriptPaced(script, now) && ScriptAhead(script, now, until)
    ensures Schedule(l, fired, now, script, k)
    decreases if k < until then until - k else 0, DueIds(l, now)
  {
    fired := [];
    if DueIds(l, now) == {} {
      assert forall id :: id in l.timers ==> id !in DueIds(l, now);
    } else {
      var f := EarliestExists(l, now, DueIds(l, now));
      FireFrame(l, f, now, script(k));
      FireKeepsSteady(l, f, now, script(k));
      var m := Fire(l, f, now, script(k));
      if k >= until {
        assert DueIds(m, now) <= DueIds(l, now) && f in DueIds(l, now) && f !in DueIds(m, now);
      }
      assert EarliestDue(l, f, now) by {
        assert forall j :: j in l.timers && l.timers[j].expire <= now ==> j in DueIds(l, now);
      }
      var rest := TickEnds(m, now, script, k + 1, until);
      fired := [f] + rest;
      assert fired[1..] == rest;
    }
  }

  const QUIET: nat -> seq<Op> := _ => []

  lemma {:induction false} ZeroIntervalNeverSettles(l: Live, id: TimerId, now: nat, fired: seq<TimerId>, k: nat)
    requires Due(l, id, now) && l.timers[id].repeat && l.timers[id].interval == 0
    ensures !Schedule(l, fired, now, QUIET, k)
    decreases |fired|
  {
    if fired != [] && EarliestDue(l, fired[0], now) {
      ZeroIntervalNeverSettles(Fire(l, fired[0], now, []), id, now, fired[1..], k + 1);
    }
  }

  /** With callbacks that leave the timers alone, a tick ends if and only if no due repeating timer has interval 0. */
  lemma QuietTickEnds(l: Live, now: nat)
    requires WellFormed(l)
    ensures (exists fired :: Schedule(l, fired, now, QUIET, 0)) <==> Steady(l, now)
  {
    if Steady(l, now) {
      var fired := TickEnds(l, now, QUIET, 0, 0);
    } else {
      var id :| Due(l, id, now) && l.timers[id].repeat && l.timers[id].interval == 0;
      forall fired
        ensures !Schedule(l, fired, now, QUIET, 0)
      {
        ZeroIntervalNeverSettles(l, id, now, fired, 0);
      }
    }
  }

  /** The game server hands its tick interval to a new wheel as it comes: its loop gets past the first expiry if and
      only if that interval is not 0. */
  lemma GameServerTick(clock: nat, interval: nat, now: nat)
    requires now >= clock + interval
    ensures var l := ApplyOp(INIT, Add(clock, interval, true));
            (exists fired :: Schedule(l, fired, now, QUIET, 0)) <==> interval >= 1
  {
    var l := ApplyOp(INIT, Add(clock, interval, true));
    assert Due(l, 1, now) && l.timers[1].repeat;
    QuietTickEnds(l, now);
  }
}
