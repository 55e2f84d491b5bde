/** The timer heap with lazy cancellation, refining the live timers of TimerSpec. */
module TimerWheels {
  import opened TimerSpec

  datatype TimerNode = TimerNode(id: TimerId, expire: nat, interval: nat, repeat: bool)

  function NodeOf(id: TimerId, t: Timer): TimerNode {
    TimerNode(id, t.expire, t.interval, t.repeat)
  }

  /** Ids are distinct, and every live timer has its node, however many cancelled ones are left. */
  predicate Consistent(nodes: set<TimerNode>, l: Live) {
    && (forall m, n :: m in nodes && n in nodes && m.id == n.id ==> m == n)
    && (forall n :: n in nodes ==> n.id < l.nextId)
    && (forall id :: id in l.timers ==> NodeOf(id, l.timers[id]) in nodes)
  }

  lemma AddConsistent(nodes: set<TimerNode>, l: Live, op: Op)
    requires Consistent(nodes, l) && WellFormed(l) && op.Add?
    ensures var node := NodeOf(l.nextId, NewTimer(op));
            node !in nodes && Consistent(nodes + {node}, ApplyOp(l, op))
    ensures WellFormed(ApplyOp(l, op)) && ApplyOp(l, op).timers.Keys == l.timers.Keys + {l.nextId}
  {
  }

  lemma CancelConsistent(nodes: set<TimerNode>, l: Live, id: TimerId)
    requires Consistent(nodes, l) && WellFormed(l)
    ensures Consistent(nodes, ApplyOp(l, Cancel(id))) && WellFormed(ApplyOp(l, Cancel(id)))
    ensures ApplyOp(l, Cancel(id)).timers.Keys == l.timers.Keys - {id}
  {
  }

  lemma StaleConsistent(nodes: set<TimerNode>, l: Live, node: TimerNode)
    requires Consistent(nodes, l) && node.id !in l.timers
    ensures Consistent(nodes - {node}, l)
  {
  }

  lemma SettleConsistent(nodes: set<TimerNode>, l: Live, node: TimerNode, now: nat)
    requires Consistent(nodes + {node}, l) && node !in nodes && WellFormed(l)
    ensures WellFormed(Settle(l, node.id, now))
    ensures Settle(l, node.id, now).timers.Keys ==
            if node.repeat && node.id in l.timers then l.timers.Keys else l.timers.Keys - {node.id}
    ensures node.repeat && node.id in l.timers ==>
              Consistent(nodes + {node.(expire := now + node.interval)}, Settle(l, node.id, now))
    ensures !(node.repeat && node.id in l.timers) ==> Consistent(nodes, Settle(l, node.id, now))
  {
    assert node.id in l.timers ==> NodeOf(node.id, l.timers[node.id]) == node;
  }

  /** Firing these timers, an earliest due one each time, leads from start to l. */
  predicate Leads(start: Live, fired: seq<TimerId>, now: nat, script: nat -> seq<Op>, l: Live) {
    EarliestFirst(start, fired, now, script, 0) && l == After(start, fired, now, script, 0)
  }

  lemma LeadsOn(start: Live, fired: seq<TimerId>, now: nat, script: nat -> seq<Op>, l: Live, id: TimerId)
    requires Leads(start, fired, now, script, l)
    ensures EarliestDue(l, id, now) ==>
              Leads(start, fired + [id], now, script, Fire(l, id, now, script(|fired|)))
  {
    if EarliestDue(l, id, now) {
      FireNext(start, fired, now, script, 0, id);
    }
  }

  class TimerWheel {
    /** The heap. Ids are distinct, so a set of nodes; which of several earliest nodes is on top is left open. */
    var timers: set<TimerNode>
    var active: set<TimerId>
    var nextId: TimerId
    var lastTickMs: nat

    ghost var live: Live                 // the timers this wheel stands for
    ghost var running: set<TimerNode>    // the node popped for the callback that is running, if any

    ghost predicate Valid()
      reads this
    {
      && WellFormed(live) && live.nextId == nextId && live.timers.Keys == active
      && running !! timers && Consistent(timers + running, live)
    }

    /** No callback is running. */
    ghost predicate Idle()
      reads this
    {
      Valid() && running == {}
    }

    constructor (now: nat)
      ensures Idle() && live == INIT
    {
      timers, active, nextId, lastTickMs := {}, {}, 1, now;
      live, running := INIT, {};
    }

    method AddTimer(clock: nat, delay: nat, repeat: bool) returns (id: TimerId)
      requires Valid()
      modifies this
      ensures Valid() && running == old(running)
      ensures live == ApplyOp(old(live), Add(clock, delay, repeat)) && id == old(live).nextId
      ensures timers == old(timers) + {NodeOf(id, NewTimer(Add(clock, delay, repeat)))}
    {
      id := nextId;
      nextId := nextId + 1;
      var node := TimerNode(id, clock + delay, if repeat then delay else 0, repeat);
      active := active + {id};
      AddConsistent(timers + running, live, Add(clock, delay, repeat));
      assert node == NodeOf(id, NewTimer(Add(clock, delay, repeat)));
      hide Consistent, WellFormed;
      assert timers + running + {node} == timers + {node} + running;
      timers := timers + {node};
      live := ApplyOp(live, Add(clock, delay, repeat));
    }

    method CancelTimer(id: TimerId)
      requires Valid()
      modifies this
      ensures Valid() && running == old(running) && timers == old(timers)
      ensures live == ApplyOp(old(live), Cancel(id))
    {
      CancelConsistent(timers + running, live, id);
      active := active - {id};
      live := ApplyOp(live, Cancel(id));
    }

    /** A callback: any additions and cancellations. */
    method RunCallback(ops: seq<Op>, ghost now: nat)
      requires Valid()
      modifies this
      ensures Valid() && running == old(running)
      ensures live == ApplyOps(old(live), ops)
      ensures Ahead(ops, now) ==> forall n :: n in timers && n.expire <= now ==> n in old(timers)
      ensures old(timers) <= timers
    {
      assert ops[..0] == [];
      for i := 0 to |ops|
        invariant Valid() && running == old(running)
        invariant live == ApplyOps(old(live), ops[..i])
        invariant Ahead(ops, now) ==> forall n :: n in timers && n.expire <= now ==> n in old(timers)
        invariant old(timers) <= timers
      {
        assert ops[..i + 1] == ops[..i] + [ops[i]];
        ApplyOpsStep(old(live), ops[..i], ops[i]);
        match ops[i] {
          case Add(clock, delay, repeat) => var _ := AddTimer(clock, delay, repeat);
          case Cancel(id) => CancelTimer(id);
        }
      }
      assert ops[..|ops|] == ops;
    }

    predicate IsTop(node: TimerNode)
      reads this
    {
      node in timers && forall n :: n in timers ==> node.expire <= n.expire
    }

    /** An earliest node. */
    method Top() returns (node: TimerNode)
      requires timers != {}
      ensures IsTop(node)
    {
      node :| node in timers;
      var rest := timers;
      while rest != {}
        invariant node in timers && rest <= timers
        invariant forall n :: n in timers && n !in rest ==> node.expire <= n.expire
        decreases rest
      {
        var n :| n in rest;
        if n.expire < node.expire {
          node := n;
        }
        rest := rest - {n};
      }
    }

    /** The earliest node was popped and is live: run its callback, then rearm or forget it. */
    method FireNode(node: TimerNode, now: nat, ops: seq<Op>)
      requires Idle() && IsTop(node) && node.id in active && node.expire <= now
      requires Steady(live, now) && Paced(ops, now)
      modifies this
      ensures Idle()
      ensures EarliestDue(old(live), node.id, now) && live == Fire(old(live), node.id, now, ops)
      ensures Steady(live, now)
      ensures Ahead(ops, now) ==> forall n :: n in timers && n.expire <= now ==> n in old(timers) && n != node
    {
      assert timers + running == timers;
      assert NodeOf(node.id, live.timers[node.id]) == node;
      assert EarliestDue(live, node.id, now) by {
        assert forall j :: j in live.timers ==> NodeOf(j, live.timers[j]) in timers;
      }
      timers, running := timers - {node}, {node};
      assert timers + running == old(timers);
      OpsFrame(live, ops);
      FireKeepsSteady(live, node.id, now, ops);
      hide Steady, Consistent, EarliestDue;
      RunCallback(ops, now);
      Rearm(node, now);
    }

    /** After the callback: rearm a live repeating timer, forget any other. */
    method Rearm(node: TimerNode, now: nat)
      requires Valid() && running == {node}
      modifies this
      ensures Idle() && live == Settle(old(live), node.id, now)
      ensures forall n :: n in timers && n !in old(timers) ==> node.repeat && n == node.(expire := now + node.interval)
    {
      SettleConsistent(timers, live, node, now);
      running := {};
      if node.repeat && node.id in active {
        timers := timers + {node.(expire := now + node.interval)};
      } else {
        active := active - {node.id};
      }
      live := Settle(live, node.id, now);
      assert timers + running == timers;
    }

    /** Fire everything due: fired is a schedule of the live timers. The clock has moved on by the until-th callback. */
    method Tick(now: nat, script: nat -> seq<Op>, ghost until: nat) returns (fired: seq<TimerId>)
      requires Idle() && Steady(live, now) && ScriptPaced(script, now) && ScriptAhead(script, now, until)
      modifies this
      ensures Idle()
      ensures Schedule(old(live), fired, now, script, 0) && live == After(old(live), fired, now, script, 0)
      ensures forall n :: n in timers ==> n.expire > now
    {
      lastTickMs := now;
      fired := [];
      ghost var start := live;
      while true
        invariant Idle() && Steady(live, now) && Leads(start, fired, now, script, live)
        decreases if |fired| < until then until - |fired| else 0, set n | n in timers && n.expire <= now
      {
        if timers == {} {
          break;
        }
        var node := Top();
        if node.expire > now {
          break;
        }
        ghost var before := set n | n in timers && n.expire <= now;
        assert node in before;
        if node.id !in active {
          StaleConsistent(timers + running, live, node);
          assert timers + running - {node} == timers - {node} + running;
          timers := timers - {node};
          continue;
        }
        assert Paced(script(|fired|), now) && (|fired| >= until ==> Ahead(script(|fired|), now));
        LeadsOn(start, fired, now, script, live, node.id);
        hide ScriptPaced, ScriptAhead, Paced, Ahead, Steady, Leads, Consistent, WellFormed, EarliestDue;
        FireNode(node, now, script(|fired|));
        fired := fired + [node.id];
      }
      assert timers + running == timers;
      assert forall id :: id in live.timers ==> NodeOf(id, live.timers[id]) in timers;
    }

    /** How long the loop may sleep: never past the earliest live timer, whatever stale nodes there are. */
    method NextTimeoutMs(clock: nat) returns (ms: nat)
      requires Idle()
      ensures ms <= 1000
      ensures ms == 1000 || exists n :: n in timers && ms == if n.expire <= clock then 0 else n.expire - clock
      ensures forall id :: id in live.timers ==>
                ms <= if live.timers[id].expire <= clock then 0 else live.timers[id].expire - clock
    {
      assert timers + running == timers;
      assert forall id :: id in live.timers ==> NodeOf(id, live.timers[id]) in timers;
      if timers == {} {
        return 1000;
      }
      var top := Top();
      if top.expire <= clock {
        return 0;
      }
      assert top in timers;
      var diff := top.expire - clock;
      return if diff < 1000 then diff else 1000;
    }
  }
}
