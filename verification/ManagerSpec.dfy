/** The room manager: which address speaks for which player, and what each datagram does to the single room. */
module ManagerSpec {
  import opened Bytes
  import opened RoomSpec
  import opened Vectors
  import RoomLedger

  const ROOM_ID: nat := 1
  const DOT: byte := 46
  const COLON: byte := 58

  type Key = seq<byte>

  // ---------- address keys ----------

  /** The address in dotted form with its port. */
  function PeerKey(p: Peer): Key {
    Decimal(p.ip / 0x100_0000) + [DOT] + (Decimal(p.ip / 0x1_0000 % 0x100) + [DOT]
    + (Decimal(p.ip / 0x100 % 0x100) + [DOT] + (Decimal(p.ip % 0x100) + [COLON] + Decimal(p.port))))
  }

  predicate Digits(s: seq<byte>) {
    forall i :: 0 <= i < |s| ==> IsDigit(s[i])
  }

  /** A number ends at the first separator. */
  lemma SplitAtSeparator(a: seq<byte>, b: seq<byte>, sep: byte, x: seq<byte>, y: seq<byte>)
    requires Digits(a) && Digits(b) && !IsDigit(sep) && a + [sep] + x == b + [sep] + y
    ensures a == b && x == y
  {
    var s := a + [sep] + x;
    assert s[|a|] == sep && s[|b|] == sep;
    assert s[..|a|] == a && s[..|b|] == b && s[|a| + 1..] == x && s[|b| + 1..] == y;
  }

  lemma DecimalInjective(m: nat, n: nat)
    requires Decimal(m) == Decimal(n)
    ensures m == n
  {
    DecimalRead(m);
  }

  lemma OctetsSplit(ip: nat)
    ensures ip == ((ip / 0x100_0000 * 0x100 + ip / 0x1_0000 % 0x100) * 0x100 + ip / 0x100 % 0x100) * 0x100 + ip % 0x100
  {
  }

  /** A key as it is written. */
  lemma KeyExample()
    ensures PeerKey(Peer(0x7F00_0001, 8080)) == Ascii("127.0.0.1:8080")
  {
    assert Decimal(0x7F00_0001 / 0x100_0000) == Decimal(127) == [49, 50, 55];
    assert Decimal(0) == [48] && Decimal(1) == [49] && Decimal(8080) == [56, 48, 56, 48];
  }

  /** Different addresses have different keys. */
  lemma KeyInjective(p: Peer, q: Peer)
    ensures PeerKey(p) == PeerKey(q) <==> p == q
  {
    if PeerKey(p) == PeerKey(q) {
      var p4 := Decimal(p.ip % 0x100) + [COLON] + Decimal(p.port);
      var q4 := Decimal(q.ip % 0x100) + [COLON] + Decimal(q.port);
      var p3, q3 := Decimal(p.ip / 0x100 % 0x100) + [DOT] + p4, Decimal(q.ip / 0x100 % 0x100) + [DOT] + q4;
      var p2, q2 := Decimal(p.ip / 0x1_0000 % 0x100) + [DOT] + p3, Decimal(q.ip / 0x1_0000 % 0x100) + [DOT] + q3;
      SplitAtSeparator(Decimal(p.ip / 0x100_0000), Decimal(q.ip / 0x100_0000), DOT, p2, q2);
      SplitAtSeparator(Decimal(p.ip / 0x1_0000 % 0x100), Decimal(q.ip / 0x1_0000 % 0x100), DOT, p3, q3);
      SplitAtSeparator(Decimal(p.ip / 0x100 % 0x100), Decimal(q.ip / 0x100 % 0x100), DOT, p4, q4);
      SplitAtSeparator(Decimal(p.ip % 0x100), Decimal(q.ip % 0x100), COLON, Decimal(p.port), Decimal(q.port));
      DecimalInjective(p.ip / 0x100_0000, q.ip / 0x100_0000);
      DecimalInjective(p.ip / 0x1_0000 % 0x100, q.ip / 0x1_0000 % 0x100);
      DecimalInjective(p.ip / 0x100 % 0x100, q.ip / 0x100 % 0x100);
      DecimalInjective(p.ip % 0x100, q.ip % 0x100);
      DecimalInjective(p.port, q.port);
      OctetsSplit(p.ip);
      OctetsSplit(q.ip);
    }
  }

  // ---------- state ----------

  datatype Binding = Binding(roomId: nat, playerId: PlayerId)

  datatype Manager = Manager(
    rooms: map<nat, Room>, index: map<Key, Binding>, nextPlayerId: nat, intervalMs: nat)

  function NewManager(intervalMs: nat): Manager {
    Manager(map[], map[], 1, intervalMs)
  }

  /** A client's command, decoded; None where the payload did not decode. */
  datatype Command =
    | JoinGame(room: Option<nat>)    // the room it asks for
    | SendInput(input: Option<Input>, dist: real)
    | FireShot(shot: Option<Shot>)
    | SendChat(text: Option<seq<byte>>)
    | PickWeapon(weapon: Option<nat>)
    | AskRespawn
    | SetProfile(name: Option<seq<byte>>)
    | Ping(stamp: Option<nat>, received: nat, sent: nat)    // the client's clock, and two readings of the server's
    | Unknown

  /** A datagram: its header, and the command. */
  datatype Packet = Packet(roomId: nat, playerId: PlayerId, seqNo: nat, tick: nat, command: Command)

  datatype Action = Receive(peer: Peer, packet: Packet) | Depart(peer: Peer) | TickAll(trig: Trig)

  // ---------- who a datagram speaks for ----------

  /** The player bound to the address, or else the one the header names, if there is one. */
  function SpeaksFor(m: Manager, peer: Peer, packet: Packet): Option<Binding> {
    if PeerKey(peer) in m.index then Some(m.index[PeerKey(peer)])
    else if packet.roomId != 0 && packet.playerId != 0 && packet.roomId in m.rooms
            && packet.playerId in m.rooms[packet.roomId].players then
      Some(Binding(packet.roomId, packet.playerId))
    else None
  }

  /** The index after that: a player heard from a new address is moved to it. */
  function Rebound(m: Manager, peer: Peer, packet: Packet): map<Key, Binding> {
    if PeerKey(peer) in m.index || SpeaksFor(m, peer, packet).None? then m.index
    else
      var left := m.rooms[packet.roomId].players[packet.playerId].peer;
      (m.index - {PeerKey(left)})[PeerKey(peer) := Binding(packet.roomId, packet.playerId)]
  }

  function TheRoom(m: Manager): Room {
    if ROOM_ID in m.rooms then m.rooms[ROOM_ID] else NewRoom(ROOM_ID, m.intervalMs)
  }

  // ---------- what an action does ----------

  /** What a command asks of the room once it is known who speaks. */
  function CommandEvents(id: PlayerId, c: Command): seq<Event> {
    match c
    case SendInput(Some(input), dist) => [Move(id, input, dist)]
    case FireShot(Some(shot)) => [Fire(id, shot)]
    case PickWeapon(Some(weapon)) => [Weapon(id, weapon)]
    case SetProfile(Some(name)) => [Profile(id, name)]
    case AskRespawn => [Respawn(id)]
    case _ => []
  }

  /** The events of the room an action amounts to. */
  function EventsOf(m: Manager, a: Action): seq<Event> {
    match a
    case Depart(peer) => if PeerKey(peer) in m.index then [Leave(m.index[PeerKey(peer)].playerId)] else []
    case TickAll(trig) => if ROOM_ID in m.rooms then [Ticked(trig)] else []
    case Receive(peer, packet) =>
      if packet.command.Unknown? then []
      else if packet.command.JoinGame? then
        if !packet.command.room.Some? then []
        else if PeerKey(peer) in m.index then [Refresh(m.index[PeerKey(peer)].playerId, peer)]
        else if Admits(TheRoom(m), m.nextPlayerId) then [Join(peer, m.nextPlayerId), Refresh(m.nextPlayerId, peer)]
        else []
      else
        match SpeaksFor(m, peer, packet)
        case None => []
        case Some(b) => [Refresh(b.playerId, peer)] + CommandEvents(b.playerId, packet.command)
  }

  predicate FirstJoin(m: Manager, a: Action) {
    a.Receive? && a.packet.command.JoinGame? && a.packet.command.room.Some? && PeerKey(a.peer) !in m.index
  }

  function IndexAfter(m: Manager, a: Action): map<Key, Binding> {
    match a
    case Depart(peer) => m.index - {PeerKey(peer)}
    case TickAll(_) => m.index
    case Receive(peer, packet) =>
      if packet.command.Unknown? then m.index
      else if packet.command.JoinGame? then
        if FirstJoin(m, a) && Admits(TheRoom(m), m.nextPlayerId) then
          m.index[PeerKey(peer) := Binding(ROOM_ID, m.nextPlayerId)]
        else m.index
      else Rebound(m, peer, packet)
  }

  ghost predicate PossibleEvents(r: Room, es: seq<Event>)
    decreases |es|
  {
    es == [] || (Possible(r, es[0]) && PossibleEvents(Step(r, es[0]), es[1..]))
  }

  ghost function StepAll(r: Room, es: seq<Event>): Room
    requires PossibleEvents(r, es)
    decreases |es|
  {
    if es == [] then r else StepAll(Step(r, es[0]), es[1..])
  }

  ghost predicate PossibleAction(m: Manager, a: Action) {
    PossibleEvents(TheRoom(m), EventsOf(m, a))
  }

  ghost function Act(m: Manager, a: Action): Manager
    requires PossibleAction(m, a)
  {
    var there := ROOM_ID in m.rooms || FirstJoin(m, a);
    Manager(if there then m.rooms[ROOM_ID := StepAll(TheRoom(m), EventsOf(m, a))] else m.rooms,
            IndexAfter(m, a),
            if FirstJoin(m, a) then (m.nextPlayerId + 1) % ID_LIMIT else m.nextPlayerId,
            m.intervalMs)
  }

  // ---------- the address index ----------

  /** Each key leads to a player of room 1 who is at that address. */
  predicate KeysLeadToPlayers(index: map<Key, Binding>, players: map<PlayerId, Player>) {
    forall k :: k in index ==>
      && index[k].roomId == ROOM_ID && index[k].playerId in players
      && PeerKey(players[index[k].playerId].peer) == k
  }

  /** Each player of room 1 is found under his address; 0 is nobody's id. */
  predicate PlayersHaveKeys(index: map<Key, Binding>, players: map<PlayerId, Player>) {
    forall id :: id in players ==>
      id != 0 && PeerKey(players[id].peer) in index && index[PeerKey(players[id].peer)] == Binding(ROOM_ID, id)
  }

  predicate Bijection(index: map<Key, Binding>, players: map<PlayerId, Player>) {
    KeysLeadToPlayers(index, players) && PlayersHaveKeys(index, players)
  }

  predicate Inv(m: Manager) {
    && m.rooms.Keys <= {ROOM_ID}
    && Bijection(m.index, TheRoom(m).players)
    && TheRoom(m).id == ROOM_ID
    && (ROOM_ID !in m.rooms ==> m.index == map[])
  }

  /** A room event keeps the roster and everybody's address, but for joining, leaving and refreshing. */
  predicate SameAddresses(p: map<PlayerId, Player>, q: map<PlayerId, Player>) {
    p.Keys == q.Keys && forall id :: id in p ==> q[id].peer == p[id].peer
  }

  lemma TickKeepsAddresses(r: Room, trig: Trig)
    ensures SameAddresses(r.players, Tick(r, trig).players) && Tick(r, trig).id == r.id
  {
  }

  lemma CommandKeepsAddresses(r: Room, e: Event)
    requires Possible(r, e) && !e.Join? && !e.Leave? && !e.Refresh?
    ensures SameAddresses(r.players, Step(r, e).players) && Step(r, e).id == r.id
  {
  }

  lemma SameAddressesBijection(index: map<Key, Binding>, p: map<PlayerId, Player>, q: map<PlayerId, Player>)
    requires SameAddresses(p, q)
    ensures Bijection(index, p) ==> Bijection(index, q)
  {
  }

  lemma JoinBijection(index: map<Key, Binding>, r: Room, peer: Peer, id: PlayerId)
    requires Bijection(index, r.players) && PeerKey(peer) !in index && Admits(r, id)
    ensures Bijection(index[PeerKey(peer) := Binding(ROOM_ID, id)], AddPlayer(r, peer, id).players)
  {
  }

  lemma LeaveBijection(index: map<Key, Binding>, r: Room, key: Key)
    requires Bijection(index, r.players) && key in index
    ensures Bijection(index - {key}, RemovePlayer(r, index[key].playerId).players)
  {
  }

  /** Hearing a player from a new address moves his entry and keeps the bijection. */
  lemma MoveBijection(index: map<Key, Binding>, r: Room, id: PlayerId, peer: Peer)
    requires Bijection(index, r.players) && id in r.players && PeerKey(peer) !in index
    ensures Bijection((index - {PeerKey(r.players[id].peer)})[PeerKey(peer) := Binding(ROOM_ID, id)],
                      SetPeer(r, id, peer).players)
  {
  }

  lemma RefreshBijection(index: map<Key, Binding>, r: Room, peer: Peer)
    requires Bijection(index, r.players) && PeerKey(peer) in index
    ensures Bijection(index, SetPeer(r, index[PeerKey(peer)].playerId, peer).players)
  {
  }

  // ---------- every action keeps the index ----------

  lemma StepAllTwo(r: Room, e: Event, es: seq<Event>)
    requires PossibleEvents(r, [e] + es)
    ensures Possible(r, e) && PossibleEvents(Step(r, e), es) && StepAll(r, [e] + es) == StepAll(Step(r, e), es)
  {
  }

  lemma OneEvent(r: Room, e: Event)
    requires Possible(r, e)
    ensures PossibleEvents(r, [e]) && StepAll(r, [e]) == Step(r, e)
  {
  }

  /** A command, after its sender's address was refreshed. */
  lemma CommandKeepsBijection(index: map<Key, Binding>, r: Room, id: PlayerId, peer: Peer, c: Command)
    requires PossibleEvents(r, [Refresh(id, peer)] + CommandEvents(id, c))
    requires Bijection(index, SetPeer(r, id, peer).players) && r.id == ROOM_ID
    ensures var t := StepAll(r, [Refresh(id, peer)] + CommandEvents(id, c));
            Bijection(index, t.players) && t.id == ROOM_ID
  {
    var es := CommandEvents(id, c);
    StepAllTwo(r, Refresh(id, peer), es);
    var q := SetPeer(r, id, peer);
    if es != [] {
      CommandKeepsAddresses(q, es[0]);
    }
  }

  lemma JoinKeepsInv(m: Manager, a: Action)
    requires Inv(m) && PossibleAction(m, a) && a.Receive? && a.packet.command.JoinGame?
    ensures Inv(Act(m, a))
  {
    hide PeerKey, Bijection, NewPlayer, SetPeer, AddPlayer;
    var r, id := TheRoom(m), m.nextPlayerId;
    var key := PeerKey(a.peer);
    if a.packet.command.room.Some? {
      if key in m.index {
        OneEvent(r, EventsOf(m, a)[0]);
        RefreshBijection(m.index, r, a.peer);
        SetPeerKeepsClock(r, m.index[key].playerId, a.peer);
      } else if Admits(r, id) {
        var q, index := AddPlayer(r, a.peer, id), m.index[key := Binding(ROOM_ID, id)];
        StepAllTwo(r, Join(a.peer, id), [Refresh(id, a.peer)]);
        JoinBijection(m.index, r, a.peer, id);
        RefreshBijection(index, q, a.peer);
        SetPeerKeepsClock(q, id, a.peer);
        AddPlayerKeepsClock(r, a.peer, id);
      }
    }
  }

  lemma SetPeerKeepsClock(r: Room, id: PlayerId, peer: Peer)
    ensures SetPeer(r, id, peer).id == r.id && SetPeer(r, id, peer).serverTick == r.serverTick
  {
  }

  lemma AddPlayerKeepsClock(r: Room, peer: Peer, id: PlayerId)
    ensures AddPlayer(r, peer, id).id == r.id && AddPlayer(r, peer, id).serverTick == r.serverTick
  {
  }

  lemma DepartKeepsInv(m: Manager, peer: Peer)
    requires Inv(m) && PossibleAction(m, Depart(peer))
    ensures Inv(Act(m, Depart(peer)))
  {
    hide PeerKey;
    var key := PeerKey(peer);
    if key in m.index {
      OneEvent(TheRoom(m), Leave(m.index[key].playerId));
      LeaveBijection(m.index, TheRoom(m), key);
    } else {
      assert m.index - {key} == m.index;
    }
  }

  lemma TickKeepsInv(m: Manager, trig: Trig)
    requires Inv(m) && PossibleAction(m, TickAll(trig))
    ensures Inv(Act(m, TickAll(trig)))
  {
    if ROOM_ID in m.rooms {
      var r := TheRoom(m);
      OneEvent(r, Ticked(trig));
      TickKeepsAddresses(r, trig);
      SameAddressesBijection(m.index, r.players, Tick(r, trig).players);
    }
  }

  lemma CommandKeepsInv(m: Manager, a: Action)
    requires Inv(m) && PossibleAction(m, a)
    requires a.Receive? && !a.packet.command.JoinGame? && !a.packet.command.Unknown?
    ensures Inv(Act(m, a))
  {
    var r, who := TheRoom(m), SpeaksFor(m, a.peer, a.packet);
    if who.Some? {
      var id := who.value.playerId;
      if PeerKey(a.peer) in m.index {
        RefreshBijection(m.index, r, a.peer);
      } else {
        MoveBijection(m.index, r, id, a.peer);
      }
      CommandKeepsBijection(Rebound(m, a.peer, a.packet), r, id, a.peer, a.packet.command);
    } else {
      assert StepAll(r, []) == r by { StepAllNone(r); }
    }
  }

  lemma StepAllNone(r: Room)
    ensures PossibleEvents(r, []) && StepAll(r, []) == r
  {
  }

  /** The index and the roster stay in one-to-one correspondence through joins, departures, new addresses and ticks. */
  lemma ActKeepsInv(m: Manager, a: Action)
    requires Inv(m) && PossibleAction(m, a)
    ensures Inv(Act(m, a))
  {
    match a {
      case Depart(peer) => DepartKeepsInv(m, peer);
      case TickAll(trig) => TickKeepsInv(m, trig);
      case Receive(peer, packet) =>
        if packet.command.JoinGame? {
          JoinKeepsInv(m, a);
        } else if !packet.command.Unknown? {
          CommandKeepsInv(m, a);
        }
    }
  }

  // ---------- what the correspondence gives ----------

  /** There are as many known addresses as players. */
  lemma {:induction false} CountsAgree(index: map<Key, Binding>, players: map<PlayerId, Player>)
    requires Bijection(index, players)
    ensures |index| == |players|
    decreases |players|
  {
    hide PeerKey;
    if players == map[] {
      assert index.Keys == {};
    } else {
      var id :| id in players;
      var key := PeerKey(players[id].peer);
      var fewer, rest := players - {id}, index - {key};
      assert fewer.Keys == players.Keys - {id} && rest.Keys == index.Keys - {key};
      OneLess(index, players, id);
      CountsAgree(rest, fewer);
      hide Bijection;
    }
  }

  lemma OneLess(index: map<Key, Binding>, players: map<PlayerId, Player>, id: PlayerId)
    requires Bijection(index, players) && id in players
    ensures Bijection(index - {PeerKey(players[id].peer)}, players - {id})
  {
  }

  /** Two players are never at one address. */
  lemma DistinctAddresses(m: Manager, a: PlayerId, b: PlayerId)
    requires Inv(m) && a in TheRoom(m).players && b in TheRoom(m).players && a != b
    ensures PeerKey(TheRoom(m).players[a].peer) != PeerKey(TheRoom(m).players[b].peer)
    ensures TheRoom(m).players[a].peer != TheRoom(m).players[b].peer
  {
  }

  /** A datagram that asks nothing of the room, a ping, a chat, a payload that did not decode, changes of everybody
      in it at most one thing: the address of the player it speaks for. */
  lemma RefreshIsOnlyAddress(m: Manager, a: Action)
    requires PossibleAction(m, a) && a.Receive? && !a.packet.command.JoinGame?
    requires CommandEvents(a.packet.playerId, a.packet.command) == []
    ensures var r, t := TheRoom(m), TheRoom(Act(m, a));
            var who := if a.packet.command.Unknown? then None else SpeaksFor(m, a.peer, a.packet);
            && t == r.(players := t.players) && t.players.Keys == r.players.Keys
            && forall id :: id in r.players ==>
                 t.players[id] ==
                 if who.Some? && who.value.playerId == id then r.players[id].(peer := a.peer) else r.players[id]
  {
    var r, who := TheRoom(m), SpeaksFor(m, a.peer, a.packet);
    if a.packet.command.Unknown? || who.None? {
      StepAllNone(r);
    } else {
      assert CommandEvents(who.value.playerId, a.packet.command) == [];
      OneEvent(r, Refresh(who.value.playerId, a.peer));
    }
    hide PeerKey, Rebound, SpeaksFor;
  }

  lemma HitsIgnoreAddress(r: Room, id: PlayerId, peer: Peer, shooter: PlayerId, origin: Vec, dir: Vec, target: PlayerId)
    ensures Hittable(SetPeer(r, id, peer), shooter, origin, dir, target) <==> Hittable(r, shooter, origin, dir, target)
  {
  }

  lemma TargetsIgnoreAddress(r: Room, id: PlayerId, peer: Peer, shooter: PlayerId, origin: Vec, dir: Vec,
                             target: Option<PlayerId>)
    ensures IsTarget(SetPeer(r, id, peer), shooter, origin, dir, target) <==> IsTarget(r, shooter, origin, dir, target)
  {
    var q := SetPeer(r, id, peer);
    forall j | j in r.players
      ensures Hittable(q, shooter, origin, dir, j) <==> Hittable(r, shooter, origin, dir, j)
      ensures Along(origin, dir, q.players[j]) == Along(origin, dir, r.players[j])
    {
      HitsIgnoreAddress(r, id, peer, shooter, origin, dir, j);
    }
    if target.Some? {
      HitsIgnoreAddress(r, id, peer, shooter, origin, dir, target.value);
    }
    hide Hittable, Along;
  }

  lemma AimIgnoresAddress(r: Room, id: PlayerId, peer: Peer, shooter: PlayerId, shot: Shot)
    ensures Aimed(SetPeer(r, id, peer), shooter, shot) <==> Aimed(r, shooter, shot)
  {
    if shooter in r.players && Armed(r, shooter, shot) {
      var origin, dir := Muzzle(r.players[shooter]), Times(shot.dir, 1.0 / shot.len);
      TargetsIgnoreAddress(r, id, peer, shooter, origin, dir, shot.target);
    }
    hide IsTarget, IsNorm, Times;
  }

  /** What a shot at target that kills or not makes of a player. */
  function AfterShot(p: Player, id: PlayerId, shooter: PlayerId, target: PlayerId, kill: bool): Player {
    if id == target then Wounded(p)
    else if id == shooter && kill then p.(kills := (p.kills + 1) % COUNTER_LIMIT)
    else p
  }

  lemma AfterShotIgnoresAddress(p: Player, peer: Peer, id: PlayerId, shooter: PlayerId, target: PlayerId, kill: bool)
    ensures AfterShot(p.(peer := peer), id, shooter, target, kill) ==
            AfterShot(p, id, shooter, target, kill).(peer := peer)
  {
  }

  lemma ShotByPlayer(r: Room, shooter: PlayerId, shot: Shot)
    requires Aimed(r, shooter, shot) && Lands(r, shooter, shot)
    ensures var t := ApplyFire(r, shooter, shot);
            && t == r.(players := t.players) && t.players.Keys == r.players.Keys
            && forall j :: j in r.players ==>
                 t.players[j] == AfterShot(r.players[j], j, shooter, shot.target.value, Kills(r, shooter, shot))
  {
    RoomLedger.TargetIsOther(r, shooter, shot);
    hide Wounded, IsTarget;
  }

  lemma OutcomeIgnoresAddress(r: Room, id: PlayerId, peer: Peer, shooter: PlayerId, shot: Shot)
    ensures Lands(SetPeer(r, id, peer), shooter, shot) <==> Lands(r, shooter, shot)
    ensures Kills(SetPeer(r, id, peer), shooter, shot) <==> Kills(r, shooter, shot)
    ensures Lands(r, shooter, shot) ==> shot.target.Some?
  {
  }

  lemma MissChangesNothing(r: Room, shooter: PlayerId, shot: Shot)
    requires Aimed(r, shooter, shot) && !Lands(r, shooter, shot)
    ensures ApplyFire(r, shooter, shot) == r
  {
  }

  lemma ShotIgnoresAddress(r: Room, id: PlayerId, peer: Peer, shooter: PlayerId, shot: Shot)
    requires Aimed(r, shooter, shot) && Aimed(SetPeer(r, id, peer), shooter, shot)
    ensures ApplyFire(SetPeer(r, id, peer), shooter, shot) == SetPeer(ApplyFire(r, shooter, shot), id, peer)
  {
    hide ApplyFire, Aimed, Lands, Kills, AfterShot;
    var q := SetPeer(r, id, peer);
    OutcomeIgnoresAddress(r, id, peer, shooter, shot);
    if !Lands(r, shooter, shot) {
      MissChangesNothing(r, shooter, shot);
      MissChangesNothing(q, shooter, shot);
    } else {
      var target, kill := shot.target.value, Kills(r, shooter, shot);
      ShotByPlayer(r, shooter, shot);
      ShotByPlayer(q, shooter, shot);
      var t, u := ApplyFire(q, shooter, shot), SetPeer(ApplyFire(r, shooter, shot), id, peer);
      forall j | j in r.players
        ensures t.players[j] == u.players[j]
      {
        AfterShotIgnoresAddress(r.players[j], peer, j, shooter, target, kill);
      }
      assert t.players == u.players;
    }
  }

  lemma InputIgnoresAddress(r: Room, id: PlayerId, peer: Peer, mover: PlayerId, input: Input, dist: real)
    ensures Possible(SetPeer(r, id, peer), Move(mover, input, dist)) <==> Possible(r, Move(mover, input, dist))
    ensures ApplyInput(SetPeer(r, id, peer), mover, input, dist) == SetPeer(ApplyInput(r, mover, input, dist), id, peer)
  {
    hide IsNorm, StepTowards;
  }

  lemma WeaponIgnoresAddress(r: Room, id: PlayerId, peer: Peer, holder: PlayerId, weapon: nat)
    ensures ApplyWeapon(SetPeer(r, id, peer), holder, weapon) == SetPeer(ApplyWeapon(r, holder, weapon), id, peer)
  {
  }

  lemma ProfileIgnoresAddress(r: Room, id: PlayerId, peer: Peer, holder: PlayerId, name: seq<byte>)
    ensures ApplyProfile(SetPeer(r, id, peer), holder, name) == SetPeer(ApplyProfile(r, holder, name), id, peer)
  {
  }

  lemma RespawnIgnoresAddress(r: Room, id: PlayerId, peer: Peer, dead: PlayerId)
    ensures ApplyRespawn(SetPeer(r, id, peer), dead) == SetPeer(ApplyRespawn(r, dead), id, peer)
  {
  }

  /** Where a player is heard from makes no difference to what his command does: refreshing the address before it is
      refreshing it afterwards. */
  lemma CommandIgnoresAddress(r: Room, id: PlayerId, peer: Peer, e: Event)
    requires e.Move? || e.Fire? || e.Weapon? || e.Profile? || e.Respawn?
    ensures Possible(SetPeer(r, id, peer), e) <==> Possible(r, e)
    ensures Possible(r, e) ==> Step(SetPeer(r, id, peer), e) == SetPeer(Step(r, e), id, peer)
  {
    match e {
      case Fire(shooter, shot) =>
        AimIgnoresAddress(r, id, peer, shooter, shot);
        if Aimed(r, shooter, shot) {
          ShotIgnoresAddress(r, id, peer, shooter, shot);
        }
      case Move(mover, input, dist) => InputIgnoresAddress(r, id, peer, mover, input, dist);
      case Weapon(holder, weapon) => WeaponIgnoresAddress(r, id, peer, holder, weapon);
      case Profile(holder, name) => ProfileIgnoresAddress(r, id, peer, holder, name);
      case Respawn(dead) => RespawnIgnoresAddress(r, id, peer, dead);
    }
    hide Aimed, IsNorm, SetPeer, ApplyFire, ApplyInput, ApplyWeapon, ApplyProfile, ApplyRespawn;
  }
}
