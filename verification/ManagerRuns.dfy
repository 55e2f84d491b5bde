/** Whole runs of the room manager: any datagrams from any addresses, departures and ticks, in any order. */
module ManagerRuns {
  import opened RoomSpec
  import opened ManagerSpec
  import L = RoomLedger

  /** The manager, the ledger of its room, and every player id ever handed out. */
  datatype World = World(m: Manager, ledger: L.Ledger, issued: seq<PlayerId>)

  function Start(intervalMs: nat): World {
    World(NewManager(intervalMs), L.Opened(NewRoom(ROOM_ID, intervalMs)), [])
  }

  ghost predicate WorldInv(w: World) {
    && Inv(w.m) && L.Inv(w.ledger) && w.ledger.room == TheRoom(w.m)
    && w.m.nextPlayerId == (|w.issued| + 1) % ID_LIMIT
    && (forall i :: 0 <= i < |w.issued| ==> w.issued[i] == (i + 1) % ID_LIMIT)
    && forall id :: id in TheRoom(w.m).players ==> id in w.issued
  }

  ghost function Joined(es: seq<Event>): set<PlayerId> {
    set i | 0 <= i < |es| && es[i].Join? :: es[i].id
  }

  lemma StepRoster(r: Room, e: Event)
    requires Possible(r, e)
    ensures Step(r, e).players.Keys <= r.players.Keys + if e.Join? then {e.id} else {}
  {
    if !e.Join? && !e.Leave? && !e.Refresh? {
      CommandKeepsAddresses(r, e);
    }
  }

  lemma {:induction false} RosterGrows(r: Room, es: seq<Event>)
    requires PossibleEvents(r, es)
    ensures StepAll(r, es).players.Keys <= r.players.Keys + Joined(es)
    decreases |es|
  {
    if es != [] {
      StepRoster(r, es[0]);
      RosterGrows(Step(r, es[0]), es[1..]);
      assert es[0].Join? ==> es[0].id in Joined(es);
      assert Joined(es[1..]) <= Joined(es);
      hide Step, Possible;
    }
  }

  /** Whoever comes into the room has been handed an id. */
  lemma NewcomersAreIssued(m: Manager, a: Action)
    requires PossibleAction(m, a)
    ensures StepAll(TheRoom(m), EventsOf(m, a)).players.Keys <=
            TheRoom(m).players.Keys + if FirstJoin(m, a) then {m.nextPlayerId} else {}
  {
    RosterGrows(TheRoom(m), EventsOf(m, a));
    OnlyNewcomersJoin(m, a);
    hide EventsOf, Joined, PossibleAction;
  }

  lemma OnlyNewcomersJoin(m: Manager, a: Action)
    ensures Joined(EventsOf(m, a)) <= if FirstJoin(m, a) then {m.nextPlayerId} else {}
  {
  }

  lemma {:induction false} LedgerFollows(l: L.Ledger, es: seq<Event>)
    requires L.Inv(l) && PossibleEvents(l.room, es)
    ensures L.PossibleRun(l, es) && L.Run(l, es).room == StepAll(l.room, es) && L.Inv(L.Run(l, es))
    decreases |es|
  {
    if es != [] {
      L.StepKeepsInv(l, es[0]);
      LedgerFollows(L.LedgerStep(l, es[0]), es[1..]);
    }
  }

  ghost function WorldStep(w: World, a: Action): World
    requires WorldInv(w) && PossibleAction(w.m, a)
  {
    LedgerFollows(w.ledger, EventsOf(w.m, a));
    World(Act(w.m, a), L.Run(w.ledger, EventsOf(w.m, a)),
          w.issued + if FirstJoin(w.m, a) then [w.m.nextPlayerId] else [])
  }

  lemma StepKeepsWorld(w: World, a: Action)
    requires WorldInv(w) && PossibleAction(w.m, a)
    ensures WorldInv(WorldStep(w, a))
  {
    hide Inv, L.Inv, L.Run, EventsOf, IndexAfter, StepAll, PossibleEvents;
    LedgerFollows(w.ledger, EventsOf(w.m, a));
    ActKeepsInv(w.m, a);
    NoRoomNoEvents(w.m, a);
    NextId(|w.issued|);
    NewcomersAreIssued(w.m, a);
  }

  lemma NextId(n: nat)
    ensures ((n + 1) % ID_LIMIT + 1) % ID_LIMIT == (n + 2) % ID_LIMIT
  {
  }

  /** Before the first join there is nobody to speak for, and nothing happens to the room. */
  lemma NoRoomNoEvents(m: Manager, a: Action)
    requires Inv(m) && PossibleAction(m, a)
    ensures TheRoom(Act(m, a)) == StepAll(TheRoom(m), EventsOf(m, a))
  {
  }

  ghost predicate PossibleRun(w: World, actions: seq<Action>)
    requires WorldInv(w)
    decreases |actions|
  {
    actions == []
    || (PossibleAction(w.m, actions[0])
        && (StepKeepsWorld(w, actions[0]); PossibleRun(WorldStep(w, actions[0]), actions[1..])))
  }

  ghost function Run(w: World, actions: seq<Action>): (v: World)
    requires WorldInv(w) && PossibleRun(w, actions)
    ensures WorldInv(v)
    decreases |actions|
  {
    if actions == [] then w
    else
      StepKeepsWorld(w, actions[0]);
      Run(WorldStep(w, actions[0]), actions[1..])
  }

  lemma StartInv(intervalMs: nat)
    ensures WorldInv(Start(intervalMs))
  {
  }

  /** The runs of a new manager. */
  ghost predicate PossiblePlay(intervalMs: nat, actions: seq<Action>) {
    StartInv(intervalMs);
    PossibleRun(Start(intervalMs), actions)
  }

  ghost function Play(intervalMs: nat, actions: seq<Action>): (w: World)
    requires PossiblePlay(intervalMs, actions)
    ensures WorldInv(w)
  {
    StartInv(intervalMs);
    Run(Start(intervalMs), actions)
  }

  /** In every reachable state an address leads to a player exactly when the player is in the room at that address,
      so there are as many addresses as players. */
  lemma IndexIsRoster(intervalMs: nat, actions: seq<Action>)
    requires PossiblePlay(intervalMs, actions)
    ensures var m := Play(intervalMs, actions).m;
            && (forall key, id ::
                  (key in m.index && m.index[key] == Binding(ROOM_ID, id)) <==>
                  (id in TheRoom(m).players && PeerKey(TheRoom(m).players[id].peer) == key))
            && |m.index| == |TheRoom(m).players|
  {
    var m := Play(intervalMs, actions).m;
    CountsAgree(m.index, TheRoom(m).players);
  }

  /** Ids are handed out in order, so none twice before all 2^32 have been used. */
  lemma IdsAreFresh(intervalMs: nat, actions: seq<Action>, i: nat, j: nat)
    requires PossiblePlay(intervalMs, actions)
    requires i < j < |Play(intervalMs, actions).issued| && j < ID_LIMIT
    ensures Play(intervalMs, actions).issued[i] != Play(intervalMs, actions).issued[j]
  {
  }

  /** Until the ids run out nobody who asks to join, from whatever address, is turned away. */
  lemma JoinsSucceed(intervalMs: nat, actions: seq<Action>, peer: Peer, packet: Packet)
    requires PossiblePlay(intervalMs, actions) && packet.command.JoinGame? && packet.command.room.Some?
    requires |Play(intervalMs, actions).issued| < ID_LIMIT - 1
    ensures PeerKey(peer) in IndexAfter(Play(intervalMs, actions).m, Receive(peer, packet))
  {
    var w := Play(intervalMs, actions);
    NextIsNew(w);
    hide Inv, L.Inv, PeerKey;
  }

  lemma NextIsNew(w: World)
    requires WorldInv(w) && |w.issued| < ID_LIMIT - 1
    ensures Admits(TheRoom(w.m), w.m.nextPlayerId)
  {
    hide Inv, L.Inv, TheRoom;
    NotYetIssued(w.issued, w.m.nextPlayerId);
  }

  lemma NotYetIssued(issued: seq<PlayerId>, next: nat)
    requires |issued| < ID_LIMIT - 1 && next == (|issued| + 1) % ID_LIMIT
    requires forall i :: 0 <= i < |issued| ==> issued[i] == (i + 1) % ID_LIMIT
    ensures next !in issued && next != 0
  {
    assert next == |issued| + 1;
    forall i | 0 <= i < |issued|
      ensures issued[i] != next
    {
      assert (i + 1) % ID_LIMIT == i + 1;
    }
  }

  lemma FairWorld(w: World, id: PlayerId)
    requires WorldInv(w) && id in TheRoom(w.m).players
    ensures var p := TheRoom(w.m).players[id];
            && id in w.ledger.accounts
            && p.hp == 100 + 100 * w.ledger.accounts[id].respawns - 25 * w.ledger.accounts[id].hits
            && p.deaths == w.ledger.accounts[id].deaths <= 60
            && (p.alive <==> p.hp > 0)
    ensures var players := TheRoom(w.m).players;
            (w.ledger.goneKills + L.Total(players, L.KILL_COUNTER) ==
             w.ledger.goneDeaths + L.Total(players, L.DEATH_COUNTER)) <==> L.Unwrapped(w.ledger.accounts)
    ensures TheRoom(w.m).matchOver <==> L.Elapsed(w.ledger) >= 300000
  {
    L.PlayerFacts(w.ledger, id);
    L.ScoreFacts(w.ledger);
  }

  /** Whatever clients send, in every reachable state every player's health, deaths and the score add up, nobody has
      died more than 60 times, and the clock is right. */
  lemma GameStaysFair(intervalMs: nat, actions: seq<Action>, id: PlayerId)
    requires PossiblePlay(intervalMs, actions) && id in TheRoom(Play(intervalMs, actions).m).players
    ensures var w := Play(intervalMs, actions);
            var p := TheRoom(w.m).players[id];
            && id in w.ledger.accounts
            && p.hp == 100 + 100 * w.ledger.accounts[id].respawns - 25 * w.ledger.accounts[id].hits
            && p.deaths == w.ledger.accounts[id].deaths <= 60
            && (p.alive <==> p.hp > 0)
            && ((w.ledger.goneKills + L.Total(TheRoom(w.m).players, L.KILL_COUNTER) ==
                 w.ledger.goneDeaths + L.Total(TheRoom(w.m).players, L.DEATH_COUNTER)) <==>
                L.Unwrapped(w.ledger.accounts))
            && (TheRoom(w.m).matchOver <==> L.Elapsed(w.ledger) >= 300000)
  {
    FairWorld(Play(intervalMs, actions), id);
  }
}
