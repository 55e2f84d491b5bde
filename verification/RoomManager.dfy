/** The manager object: it owns the room and the address index, answers datagrams, and fans messages out. */
module RoomManagers {
  import opened Bytes
  import opened Vectors
  import opened RoomSpec
  import opened ManagerSpec
  import opened GameRooms
  import W = GameWire

  datatype Message =
    | Snapshot(tick: nat, players: seq<PlayerInfo>)
    | MatchState(timeLeft: nat, over: bool)
    | HitEvent(target: PlayerId, value: int, shooter: PlayerId)
    | KillEvent(target: PlayerId, shooter: PlayerId)
    | RespawnEvent(target: PlayerId, value: int)
    | ChatLine(sender: PlayerId, text: seq<byte>)
    | JoinAck(roomId: nat, playerId: PlayerId, tick: nat, intervalMs: nat)
    | Pong(stamp: nat, received: nat, sent: nat)

  /** One datagram handed to the UDP server: where it goes, its header, and the message. */
  datatype Datagram = Datagram(
    peer: Peer, roomId: nat, playerId: PlayerId, seqNo: nat, tick: nat, message: Message)

  function Recipients(sent: seq<Datagram>): set<PlayerId> {
    set d | d in sent :: d.playerId
  }

  /** One datagram for every player of the room, at his address, and no other. */
  predicate IsFanOut(r: Room, message: Message, sent: seq<Datagram>) {
    && Recipients(sent) == r.players.Keys && Addressed(r, message, sent)
    && forall i, j :: 0 <= i < j < |sent| ==> sent[i].playerId != sent[j].playerId
  }

  predicate Addressed(r: Room, message: Message, sent: seq<Datagram>) {
    forall d :: d in sent ==> d.playerId in r.players && d == Addressing(r, d.playerId, message)
  }

  /** A message of the room to one of its players; only a snapshot carries a sequence number, its tick. */
  function Addressing(r: Room, id: PlayerId, message: Message): Datagram
    requires id in r.players
  {
    Datagram(r.players[id].peer, r.id, id, if message.Snapshot? then message.tick else 0, r.serverTick, message)
  }

  /** While the index holds, no address gets a message of a fan-out twice. */
  lemma FanOutDistinct(m: Manager, message: Message, sent: seq<Datagram>)
    requires Inv(m) && IsFanOut(TheRoom(m), message, sent)
    ensures forall i, j :: 0 <= i < j < |sent| ==> sent[i].peer != sent[j].peer
  {
  }

  method FanOut(room: GameRoom, message: Message) returns (sent: seq<Datagram>)
    ensures IsFanOut(room.View(), message, sent)
  {
    sent := [];
    var todo := room.players.Keys;
    while todo != {}
      invariant todo <= room.players.Keys && Recipients(sent) == room.players.Keys - todo
      invariant Addressed(room.View(), message, sent)
      invariant forall i, j :: 0 <= i < j < |sent| ==> sent[i].playerId != sent[j].playerId
      decreases todo
    {
      var id :| id in todo;
      var seqNo := if message.Snapshot? then message.tick else 0;
      var d := Datagram(room.players[id].peer, room.roomId, id, seqNo, room.serverTick, message);
      forall i | 0 <= i < |sent|
        ensures sent[i].playerId != id
      {
        assert sent[i] in sent && sent[i].playerId in Recipients(sent);
      }
      RecipientsStep(sent, d);
      sent := sent + [d];
      todo := todo - {id};
    }
  }

  lemma RecipientsStep(sent: seq<Datagram>, d: Datagram)
    ensures Recipients(sent + [d]) == Recipients(sent) + {d.playerId}
  {
  }

  // ---------- what is announced to the whole room ----------

  function ShotMessages(r: Room, id: PlayerId, shot: Shot): seq<Message> {
    if !Lands(r, id, shot) then []
    else [HitEvent(shot.target.value, -25, id)] + if Kills(r, id, shot) then [KillEvent(shot.target.value, id)] else []
  }

  /** A respawn is announced whether or not it was granted. */
  function CommandMessages(r: Room, id: PlayerId, c: Command): seq<Message> {
    match c
    case FireShot(Some(shot)) => ShotMessages(r, id, shot)
    case SendChat(Some(text)) => [ChatLine(id, text)]
    case AskRespawn => [RespawnEvent(id, 100)]
    case _ => []
  }

  /** Every message goes, as a fan-out, to the players there are. */
  predicate Announced(r: Room, messages: seq<Message>, parts: seq<seq<Datagram>>) {
    |parts| == |messages| && forall i :: 0 <= i < |messages| ==> IsFanOut(r, messages[i], parts[i])
  }

  function Flatten(parts: seq<seq<Datagram>>): seq<Datagram> {
    if parts == [] then [] else Flatten(parts[..|parts| - 1]) + parts[|parts| - 1]
  }

  lemma FlattenStep(parts: seq<seq<Datagram>>, part: seq<Datagram>)
    ensures Flatten(parts + [part]) == Flatten(parts) + part
  {
  }

  lemma TwoEvents(r: Room, e: Event, f: Event)
    requires Possible(r, e) && Possible(Step(r, e), f)
    ensures PossibleEvents(r, [e] + [f]) && StepAll(r, [e] + [f]) == Step(Step(r, e), f)
  {
    OneEvent(Step(r, e), f);
  }

  class GameRoomManager {
    const tickIntervalMs: nat
    var rooms: map<nat, GameRoom>
    var peerIndex: map<Key, Binding>
    var nextPlayerId: nat
    var broadcastCounter: nat
    var outbox: seq<Datagram>

    ghost function Views(): map<nat, Room>
      reads this, rooms.Values
    {
      map id | id in rooms :: rooms[id].View()
    }

    ghost function View(): Manager
      reads this, rooms.Values
    {
      Manager(Views(), peerIndex, nextPlayerId, tickIntervalMs)
    }

    ghost predicate Valid()
      reads this, rooms.Values
    {
      Inv(View())
    }

    constructor (tickIntervalMs: nat := 33)
      ensures Valid() && View() == NewManager(tickIntervalMs) && outbox == []
    {
      this.tickIntervalMs := tickIntervalMs;
      rooms, peerIndex, nextPlayerId, broadcastCounter, outbox := map[], map[], 1, 0, [];
    }

    /** The single room, opened if it is not there yet. */
    method OpenRoom() returns (room: GameRoom)
      requires Valid()
      modifies this`rooms
      ensures rooms.Keys == {ROOM_ID} && room == rooms[ROOM_ID]
      ensures fresh(rooms.Values - old(rooms.Values))
      ensures room.View() == TheRoom(old(View()))
    {
      hide Inv;
      assert rooms.Keys <= {ROOM_ID} by { assert Views().Keys == rooms.Keys; assert Inv(View()); RoomKeys(View()); }
      if ROOM_ID !in rooms {
        room := new GameRoom(ROOM_ID, tickIntervalMs);
        rooms := rooms[ROOM_ID := room];
      } else {
        room := rooms[ROOM_ID];
      }
      assert rooms.Keys == {ROOM_ID};
    }

    /** Bind the address to a player, creating room and player as needed. */
    method Join(peer: Peer) returns (joined: Option<Binding>)
      requires Valid()
      modifies this`rooms, this`peerIndex, this`nextPlayerId, rooms.Values
      ensures fresh(rooms.Values - old(rooms.Values))
      ensures PeerKey(peer) in old(peerIndex) ==>
                joined == Some(old(peerIndex)[PeerKey(peer)]) && View() == old(View())
      ensures PeerKey(peer) !in old(peerIndex) ==>
                var m, id := old(View()), old(nextPlayerId);
                && nextPlayerId == (id + 1) % ID_LIMIT
                && rooms.Keys == {ROOM_ID} && rooms[ROOM_ID].View() == RoomSpec.AddPlayer(TheRoom(m), peer, id)
                && joined == (if Admits(TheRoom(m), id) then Some(Binding(ROOM_ID, id)) else None)
                && peerIndex == if joined.Some? then m.index[PeerKey(peer) := joined.value] else m.index
    {
      hide PeerKey, Inv, NewPlayer;
      var key := PeerKey(peer);
      if key in peerIndex {
        return Some(peerIndex[key]);
      }
      var room := OpenRoom();
      var id := nextPlayerId;
      nextPlayerId := (nextPlayerId + 1) % ID_LIMIT;
      var added := room.AddPlayer(peer, id);
      if added == 0 {
        return None;
      }
      peerIndex := peerIndex[key := Binding(ROOM_ID, id)];
      return Some(Binding(ROOM_ID, id));
    }

    /** Whom a datagram speaks for, by address or else by its header; the address is refreshed. */
    method ResolveAndRefreshPeer(peer: Peer, packet: Packet) returns (who: Option<Binding>)
      requires Valid()
      modifies this`peerIndex, rooms.Values
      ensures who == SpeaksFor(old(View()), peer, packet)
      ensures peerIndex == Rebound(old(View()), peer, packet)
      ensures who.Some? ==>
                && who.value.roomId == ROOM_ID && ROOM_ID in rooms
                && rooms[ROOM_ID].View() == RoomSpec.SetPeer(TheRoom(old(View())), who.value.playerId, peer)
      ensures who.None? ==> View() == old(View())
    {
      hide PeerKey, Inv;
      RoomKeys(View());
      var key := PeerKey(peer);
      if key in peerIndex {
        var bound := peerIndex[key];
        rooms[bound.roomId].SetPeer(bound.playerId, peer);
        return Some(bound);
      }
      if packet.roomId == 0 || packet.playerId == 0 || packet.roomId !in rooms {
        return None;
      }
      var room := rooms[packet.roomId];
      if packet.playerId !in room.players {
        return None;
      }
      peerIndex := peerIndex - {PeerKey(room.players[packet.playerId].peer)};
      room.SetPeer(packet.playerId, peer);
      who := Some(Binding(packet.roomId, packet.playerId));
      peerIndex := peerIndex[key := who.value];
    }

    method LeaveByPeer(peer: Peer)
      requires Valid()
      modifies this`peerIndex, rooms.Values
      ensures Valid() && PossibleAction(old(View()), Depart(peer))
      ensures View() == Act(old(View()), Depart(peer))
    {
      hide PeerKey, Inv;
      ghost var m := View();
      RoomKeys(m);
      var key := PeerKey(peer);
      if key in peerIndex {
        var bound := peerIndex[key];
        OneEvent(TheRoom(m), Leave(bound.playerId));
        var _ := rooms[bound.roomId].RemovePlayer(bound.playerId);
        peerIndex := peerIndex - {key};
      } else {
        StepAllNone(TheRoom(m));
        assert m.index - {key} == m.index;
      }
      assert Views() == Act(m, Depart(peer)).rooms;
      ActKeepsInv(m, Depart(peer));
    }

    /** A fan-out for each message, one message after the other. */
    method Announce(room: GameRoom, messages: seq<Message>) returns (ghost parts: seq<seq<Datagram>>)
      modifies this`outbox
      ensures Announced(room.View(), messages, parts)
      ensures outbox == old(outbox) + Flatten(parts)
    {
      parts := [];
      for i := 0 to |messages|
        invariant Announced(room.View(), messages[..i], parts)
        invariant outbox == old(outbox) + Flatten(parts)
      {
        var sent := FanOut(room, messages[i]);
        FlattenStep(parts, sent);
        outbox := outbox + sent;
        parts := parts + [sent];
      }
      assert messages[..|messages|] == messages;
    }

    /** A join, answered with what the address is bound to. */
    method HandleJoin(peer: Peer, packet: Packet)
      requires Valid() && packet.command.JoinGame?
      modifies this`rooms, this`peerIndex, this`nextPlayerId, this`outbox, rooms.Values
      ensures outbox == old(outbox) + Replies(old(View()), peer, packet)
      ensures Valid() && fresh(rooms.Values - old(rooms.Values))
      ensures PossibleAction(old(View()), Receive(peer, packet))
      ensures View() == Act(old(View()), Receive(peer, packet))
    {
      hide PeerKey, Inv, JoinedRoom, Replies;
      ghost var m, a := View(), Receive(peer, packet);
      RoomKeys(m);
      JoinReply(m, peer, packet);
      JoinEvents(m, a);
      if packet.command.room.Some? {
        JoinAndAnswer(peer);
      }
      assert Views() == Act(m, a).rooms;
      ActKeepsInv(m, a);
    }

    /** Join, note the address with the player, and acknowledge. */
    method JoinAndAnswer(peer: Peer)
      requires Valid()
      modifies this`rooms, this`peerIndex, this`nextPlayerId, this`outbox, rooms.Values
      ensures rooms.Keys == {ROOM_ID} && fresh(rooms.Values - old(rooms.Values))
      ensures rooms[ROOM_ID].View() == JoinedRoom(old(View()), peer)
      ensures var m, key := old(View()), PeerKey(peer);
              var joins := key !in m.index && Admits(TheRoom(m), m.nextPlayerId);
              && peerIndex == (if joins then m.index[key := Binding(ROOM_ID, m.nextPlayerId)] else m.index)
              && nextPlayerId == (if key in m.index then m.nextPlayerId else (m.nextPlayerId + 1) % ID_LIMIT)
              && outbox == old(outbox) + if key in peerIndex
                 then [JoinAckTo(peer, peerIndex[key], TheRoom(m).serverTick, m.intervalMs)] else []
    {
      hide PeerKey, Inv, NewPlayer, RoomSpec.AddPlayer, RoomSpec.SetPeer;
      ghost var m := View();
      RoomKeys(m);
      var joined := Join(peer);
      assert PeerKey(peer) in m.index ==> Views()[ROOM_ID] == TheRoom(m);
      if joined.Some? {
        var room := rooms[joined.value.roomId];
        ghost var before := room.View();
        room.SetPeer(joined.value.playerId, peer);
        SetPeerKeepsClock(before, joined.value.playerId, peer);
        AddPlayerKeepsClock(TheRoom(m), peer, joined.value.playerId);
        SendJoinAck(peer, joined.value, room.serverTick);
      } else {
        Refused(TheRoom(m), peer, m.nextPlayerId);
      }
    }

    method SendJoinAck(peer: Peer, joined: Binding, tick: nat)
      modifies this`outbox
      ensures outbox == old(outbox) + [JoinAckTo(peer, joined, tick, tickIntervalMs)]
    {
      var ack := JoinAck(joined.roomId, joined.playerId, tick, tickIntervalMs);
      outbox := outbox + [Datagram(peer, joined.roomId, joined.playerId, 0, tick, ack)];
    }

    /** Answer a ping that decoded, whether or not its sender is known. */
    method SendPong(peer: Peer, packet: Packet)
      requires packet.command.Ping?
      modifies this`outbox
      ensures outbox == old(outbox) + PongTo(peer, packet, peerIndex)
    {
      if packet.command.stamp.None? {
        return;
      }
      var key := PeerKey(peer);
      var roomId := if key in peerIndex then peerIndex[key].roomId else packet.roomId;
      var playerId := if key in peerIndex then peerIndex[key].playerId else packet.playerId;
      var pong := Pong(packet.command.stamp.value, packet.command.received, packet.command.sent);
      outbox := outbox + [Datagram(peer, roomId, playerId, packet.seqNo, packet.tick, pong)];
    }

    /** Carry out a command; a shot finds its target here. */
    method RunCommand(room: GameRoom, id: PlayerId, c: Command) returns (ghost actual: Command, messages: seq<Message>)
      requires OracleFits(room.View(), id, c) && 0 !in room.players
      modifies room
      ensures SameButTarget(c, actual)
      ensures PossibleEvents(old(room.View()), CommandEvents(id, actual))
      ensures room.View() == StepAll(old(room.View()), CommandEvents(id, actual))
      ensures messages == CommandMessages(old(room.View()), id, actual)
    {
      hide IsTarget, RoomSpec.ApplyInput, RoomSpec.ApplyRespawn, RoomSpec.ApplyWeapon, RoomSpec.ApplyProfile;
      ghost var r := room.View();
      actual, messages := c, [];
      match c {
        case SendInput(Some(input), dist) =>
          OneEvent(r, Move(id, input, dist));
          room.ApplyInput(id, input, dist);
        case FireShot(Some(aim)) =>
          actual, messages := Shoot(room, id, aim);
        case PickWeapon(Some(weapon)) =>
          OneEvent(r, Weapon(id, weapon));
          room.ApplyWeapon(id, weapon);
        case SetProfile(Some(name)) =>
          OneEvent(r, Profile(id, name));
          room.ApplyProfile(id, name);
        case AskRespawn =>
          OneEvent(r, Respawn(id));
          room.ApplyRespawn(id);
          messages := [RespawnEvent(id, 100)];
        case SendChat(Some(text)) =>
          StepAllNone(r);
          messages := [ChatLine(id, text)];
        case _ =>
          StepAllNone(r);
      }
    }

    method Shoot(room: GameRoom, id: PlayerId, aim: Shot) returns (ghost actual: Command, messages: seq<Message>)
      requires IsNorm(aim.len, aim.dir) && 0 !in room.players
      modifies room
      ensures SameButTarget(FireShot(Some(aim)), actual)
      ensures PossibleEvents(old(room.View()), CommandEvents(id, actual))
      ensures room.View() == StepAll(old(room.View()), CommandEvents(id, actual))
      ensures messages == CommandMessages(old(room.View()), id, actual)
    {
      ghost var r := room.View();
      var target, hp, killed;
      ghost var shot;
      target, hp, killed, shot := room.ApplyFire(id, aim.dir, aim.len);
      actual := FireShot(Some(shot));
      OneEvent(r, Fire(id, shot));
      if Lands(r, id, shot) {
        RoomLedger.TargetIsOther(r, id, shot);
      }
      hide IsTarget, Aimed, RoomSpec.ApplyFire;
      messages := [];
      if target != 0 {
        messages := [HitEvent(target, -25, id)];
        if killed {
          messages := messages + [KillEvent(target, id)];
        }
      }
    }

    /** Any command but a join: resolve the sender, carry the command out, and tell the room. */
    method HandleCommand(peer: Peer, packet: Packet)
      returns (ghost actual: Packet, ghost parts: seq<seq<Datagram>>)
      requires Valid() && !packet.command.JoinGame? && !packet.command.Unknown?
      requires OraclesFit(View(), peer, packet)
      modifies this`peerIndex, this`outbox, rooms.Values
      ensures Valid()
      ensures actual == packet.(command := actual.command) && SameButTarget(packet.command, actual.command)
      ensures PossibleAction(old(View()), Receive(peer, actual))
      ensures View() == Act(old(View()), Receive(peer, actual))
      ensures outbox == old(outbox) + Flatten(parts) + Replies(old(View()), peer, packet)
      ensures Announced(TheRoom(View()), PacketMessages(old(View()), peer, actual), parts)
    {
      hide PeerKey, Inv, RoomSpec.SetPeer, CommandEvents, CommandMessages, SameButTarget, SpeaksFor, Rebound, Announced;
      ghost var m := View();
      RoomKeys(m);
      actual, parts := packet, [];
      var who := ResolveAndRefreshPeer(peer, packet);
      if who.None? {
        StepAllNone(TheRoom(m));
        SameCommand(packet.command);
        NothingAnnounced(TheRoom(m));
      } else {
        var room, id := rooms[who.value.roomId], who.value.playerId;
        ghost var r := RoomSpec.SetPeer(TheRoom(m), id, peer);
        NobodyIsZero(m, id, peer);
        ghost var c;
        var messages;
        c, messages := RunCommand(room, id, packet.command);
        actual := packet.(command := c);
        parts := Announce(room, messages);
        RefreshThen(TheRoom(m), id, peer, CommandEvents(id, c));
        SameKind(packet.command, c);
        SameHeader(m, peer, packet, c);
        assert room.View() == StepAll(TheRoom(m), EventsOf(m, Receive(peer, actual)));
      }
      if packet.command.Ping? {
        SendPong(peer, packet);
      }
      assert Views() == Act(m, Receive(peer, actual)).rooms;
      ActKeepsInv(m, Receive(peer, actual));
    }

    /** Dispatch one datagram. */
    method HandlePacket(peer: Peer, packet: Packet)
      returns (ghost actual: Packet, ghost parts: seq<seq<Datagram>>)
      requires Valid() && OraclesFit(View(), peer, packet)
      modifies this`rooms, this`peerIndex, this`nextPlayerId, this`outbox, rooms.Values
      ensures Valid() && fresh(rooms.Values - old(rooms.Values))
      ensures actual == packet.(command := actual.command) && SameButTarget(packet.command, actual.command)
      ensures PossibleAction(old(View()), Receive(peer, actual))
      ensures View() == Act(old(View()), Receive(peer, actual))
      ensures outbox == old(outbox) + Flatten(parts) + Replies(old(View()), peer, packet)
      ensures Announced(TheRoom(View()), PacketMessages(old(View()), peer, actual), parts)
    {
      hide PeerKey, Inv, CommandEvents, CommandMessages;
      actual, parts := packet, [];
      if packet.command.JoinGame? {
        HandleJoin(peer, packet);
      } else if packet.command.Unknown? {
        StepAllNone(TheRoom(View()));
        RoomKeys(View());
        assert Views() == Act(View(), Receive(peer, packet)).rooms;
      } else {
        actual, parts := HandleCommand(peer, packet);
      }
    }

    /** One tick: the room advances, everybody gets the snapshot, and about once a second the match state. */
    method TickRooms(trig: Trig) returns (ghost parts: seq<seq<Datagram>>, ghost order: seq<PlayerId>)
      requires Valid()
      modifies this`broadcastCounter, this`outbox, rooms.Values
      ensures Valid() && PossibleAction(old(View()), TickAll(trig))
      ensures View() == Act(old(View()), TickAll(trig))
      ensures broadcastCounter == (old(broadcastCounter) + 1) % TICK_LIMIT
      ensures outbox == old(outbox) + Flatten(parts)
      ensures ROOM_ID in rooms ==>
                var r := TheRoom(View());
                && Enumerates(order, r.players)
                && Announced(r, TickMessages(r, order, tickIntervalMs, broadcastCounter), parts)
    {
      hide PeerKey, Inv, RoomSpec.Tick, Announced, IsFanOut;
      ghost var m := View();
      RoomKeys(m);
      broadcastCounter := (broadcastCounter + 1) % TICK_LIMIT;
      parts, order := [], [];
      if ROOM_ID in rooms {
        var room := rooms[ROOM_ID];
        OneEvent(TheRoom(m), Ticked(trig));
        var infos;
        infos, order := room.Tick(trig);
        var messages := [Snapshot(room.serverTick, infos)];
        if tickIntervalMs > 0 {
          var period := if 1000 / tickIntervalMs > 1 then 1000 / tickIntervalMs else 1;
          if broadcastCounter % period == 0 {
            messages := messages + [MatchState(room.timeLeftSec, room.matchOver)];
          }
        }
        assert messages == TickMessages(room.View(), order, tickIntervalMs, broadcastCounter);
        parts := Announce(room, messages);
        assert TheRoom(View()) == room.View();
      } else {
        StepAllNone(TheRoom(m));
      }
      assert Views() == Act(m, TickAll(trig)).rooms;
      ActKeepsInv(m, TickAll(trig));
    }
  }

  /** What a tick is told as; the match state goes out once in about a second. */
  function TickMessages(r: Room, order: seq<PlayerId>, intervalMs: nat, counter: nat): seq<Message>
    requires Enumerates(order, r.players)
  {
    var due := intervalMs > 0 && counter % (if 1000 / intervalMs > 1 then 1000 / intervalMs else 1) == 0;
    [Snapshot(r.serverTick, Infos(order, r.players))] + if due then [MatchState(r.timeLeft, r.matchOver)] else []
  }

  /** The oracle values fit the player the datagram will turn out to speak for. */
  predicate OraclesFit(m: Manager, peer: Peer, packet: Packet) {
    var who := SpeaksFor(m, peer, packet);
    who.Some? ==>
      OracleFits(RoomSpec.SetPeer(TheRoom(m), who.value.playerId, peer), who.value.playerId, packet.command)
  }

  function JoinAckTo(peer: Peer, b: Binding, tick: nat, intervalMs: nat): Datagram {
    Datagram(peer, b.roomId, b.playerId, 0, tick, JoinAck(b.roomId, b.playerId, tick, intervalMs))
  }

  function PongTo(peer: Peer, packet: Packet, index: map<Key, Binding>): seq<Datagram>
    requires packet.command.Ping?
  {
    var key := PeerKey(peer);
    var b := if key in index then index[key] else Binding(packet.roomId, packet.playerId);
    match packet.command.stamp
    case None => []
    case Some(stamp) =>
      var pong := Pong(stamp, packet.command.received, packet.command.sent);
      [Datagram(peer, b.roomId, b.playerId, packet.seqNo, packet.tick, pong)]
  }

  /** What a datagram makes the manager answer to its sender alone. */
  function Replies(m: Manager, peer: Peer, packet: Packet): seq<Datagram> {
    match packet.command
    case JoinGame(Some(_)) =>
      var index := IndexAfter(m, Receive(peer, packet));
      if PeerKey(peer) in index then [JoinAckTo(peer, index[PeerKey(peer)], TheRoom(m).serverTick, m.intervalMs)]
      else []
    case Ping(_, _, _) => PongTo(peer, packet, Rebound(m, peer, packet))
    case _ => []
  }

  lemma JoinReply(m: Manager, peer: Peer, packet: Packet)
    requires packet.command.JoinGame?
    ensures Replies(m, peer, packet) ==
            if !packet.command.room.Some? then []
            else if PeerKey(peer) in m.index then
              [JoinAckTo(peer, m.index[PeerKey(peer)], TheRoom(m).serverTick, m.intervalMs)]
            else if Admits(TheRoom(m), m.nextPlayerId) then
              [JoinAckTo(peer, Binding(ROOM_ID, m.nextPlayerId), TheRoom(m).serverTick, m.intervalMs)]
            else []
  {
    hide PeerKey;
  }

  /** What a datagram makes the manager tell the room. */
  function PacketMessages(m: Manager, peer: Peer, packet: Packet): seq<Message> {
    var who := SpeaksFor(m, peer, packet);
    if packet.command.JoinGame? || packet.command.Unknown? || who.None? then []
    else CommandMessages(RoomSpec.SetPeer(TheRoom(m), who.value.playerId, peer), who.value.playerId, packet.command)
  }

  lemma SameCommand(c: Command)
    ensures SameButTarget(c, c)
  {
  }

  lemma SameKind(c: Command, d: Command)
    requires SameButTarget(c, d)
    ensures d.JoinGame? <==> c.JoinGame?
    ensures d.Unknown? <==> c.Unknown?
  {
  }

  lemma SameHeader(m: Manager, peer: Peer, packet: Packet, c: Command)
    ensures SpeaksFor(m, peer, packet.(command := c)) == SpeaksFor(m, peer, packet)
    ensures Rebound(m, peer, packet.(command := c)) == Rebound(m, peer, packet)
  {
  }

  lemma NothingAnnounced(r: Room)
    ensures Announced(r, [], []) && Flatten([]) == []
  {
  }

  lemma NobodyIsZero(m: Manager, id: PlayerId, peer: Peer)
    requires Inv(m)
    ensures 0 !in RoomSpec.SetPeer(TheRoom(m), id, peer).players
  {
  }

  lemma RefreshThen(r: Room, id: PlayerId, peer: Peer, es: seq<Event>)
    requires PossibleEvents(RoomSpec.SetPeer(r, id, peer), es)
    ensures PossibleEvents(r, [Refresh(id, peer)] + es)
    ensures StepAll(r, [Refresh(id, peer)] + es) == StepAll(RoomSpec.SetPeer(r, id, peer), es)
  {
  }

  /** The oracle values of a command that needs some; a shot brings only its direction and its length. */
  predicate OracleFits(r: Room, id: PlayerId, c: Command) {
    match c
    case SendInput(Some(input), dist) => Possible(r, Move(id, input, dist))
    case FireShot(Some(aim)) => IsNorm(aim.len, aim.dir)
    case _ => true
  }

  predicate SameButTarget(c: Command, d: Command) {
    if c.FireShot? && c.shot.Some? then
      d.FireShot? && d.shot.Some? && d.shot.value.(target := c.shot.value.target) == c.shot.value
    else d == c
  }

  lemma Refused(r: Room, peer: Peer, id: PlayerId)
    requires !Admits(r, id)
    ensures RoomSpec.AddPlayer(r, peer, id) == r
  {
  }

  /** The room after a join from an address, a first one or another. */
  function JoinedRoom(m: Manager, peer: Peer): Room {
    var r, id := TheRoom(m), m.nextPlayerId;
    if PeerKey(peer) in m.index then RoomSpec.SetPeer(r, m.index[PeerKey(peer)].playerId, peer)
    else if Admits(r, id) then RoomSpec.SetPeer(RoomSpec.AddPlayer(r, peer, id), id, peer)
    else r
  }

  lemma JoinEvents(m: Manager, a: Action)
    requires Inv(m) && a.Receive? && a.packet.command.JoinGame?
    ensures PossibleAction(m, a)
    ensures StepAll(TheRoom(m), EventsOf(m, a)) ==
            if a.packet.command.room.Some? then JoinedRoom(m, a.peer) else TheRoom(m)
  {
    var r, id := TheRoom(m), m.nextPlayerId;
    if !a.packet.command.room.Some? {
      StepAllNone(r);
    } else if PeerKey(a.peer) in m.index {
      OneEvent(r, Refresh(m.index[PeerKey(a.peer)].playerId, a.peer));
    } else if Admits(r, id) {
      TwoEvents(r, RoomSpec.Join(a.peer, id), Refresh(id, a.peer));
    }
  }

  lemma RoomKeys(m: Manager)
    requires Inv(m)
    ensures m.rooms.Keys <= {ROOM_ID}
    ensures forall k :: k in m.index ==>
              ROOM_ID in m.rooms && m.index[k].roomId == ROOM_ID && m.index[k].playerId in m.rooms[ROOM_ID].players
  {
  }

  // ---------- what the messages mean ----------

  /** A join that decodes is answered exactly if its address is bound afterwards, and the answer names the player it is
      bound to, who is in the room and at that address. */
  lemma JoinAckIsTrue(m: Manager, peer: Peer, packet: Packet)
    requires Inv(m) && packet.command.JoinGame? && packet.command.room.Some? && PossibleAction(m, Receive(peer, packet))
    ensures var n, replies := Act(m, Receive(peer, packet)), Replies(m, peer, packet);
            && (replies != [] <==> PeerKey(peer) in n.index)
            && forall d :: d in replies ==>
                 && d.peer == peer && d.message == JoinAck(d.roomId, d.playerId, d.tick, m.intervalMs)
                 && n.index[PeerKey(peer)] == Binding(d.roomId, d.playerId)
                 && d.playerId in TheRoom(n).players && TheRoom(n).players[d.playerId].peer == peer
  {
    var a := Receive(peer, packet);
    var n := Act(m, a);
    ActKeepsInv(m, a);
    if PeerKey(peer) in n.index {
      var id := n.index[PeerKey(peer)].playerId;
      assert KeysLeadToPlayers(n.index, TheRoom(n).players);
      KeyInjective(TheRoom(n).players[id].peer, peer);
    }
    hide PeerKey, Act, PossibleAction;
  }

  /** The Hit event carries the exact change of the target's health, the Kill event comes exactly when nothing is left
      of it, and a shot that does not land is not announced. */
  lemma ShotMessagesAreTrue(l: RoomLedger.Ledger, id: PlayerId, shot: Shot)
    requires RoomLedger.Inv(l) && Aimed(l.room, id, shot)
    ensures var sent, r, t := ShotMessages(l.room, id, shot), l.room.players, ApplyFire(l.room, id, shot).players;
            && (sent == [] <==> !Lands(l.room, id, shot))
            && (forall target, value, shooter :: HitEvent(target, value, shooter) in sent ==>
                  && shooter == id && target != id && shot.target == Some(target)
                  && target in r && target in t && t[target].hp == r[target].hp + value)
            && (forall target, shooter :: KillEvent(target, shooter) in sent <==>
                  && shooter == id && Lands(l.room, id, shot) && shot.target == Some(target)
                  && target in t && t[target].hp == 0)
  {
    if Lands(l.room, id, shot) {
      RoomLedger.HitTakesTwentyFive(l, id, shot);
    }
    hide RoomLedger.Inv, Aimed, ApplyFire;
  }

  /** A respawn is announced whether it is granted or not: the announcement is all that happens exactly when the player
      is absent, alive, still has to wait, or the match is over. */
  lemma RefusedRespawnIsAnnounced(r: Room, id: PlayerId)
    ensures CommandMessages(r, id, AskRespawn) == [RespawnEvent(id, 100)]
    ensures ApplyRespawn(r, id) == r <==> !Respawns(r, id)
  {
    assert Respawns(r, id) ==> ApplyRespawn(r, id).players[id].alive;
  }

  /** A player who has just joined, and is alive, asks: all are told of a respawn that was none. */
  lemma RefusedRespawnExample(intervalMs: nat, peer: Peer)
    ensures var join, ask := Packet(0, 0, 0, 0, JoinGame(Some(0))), Packet(0, 0, 0, 0, AskRespawn);
            && PossibleAction(NewManager(intervalMs), Receive(peer, join))
            && var m := Act(NewManager(intervalMs), Receive(peer, join));
               && PossibleAction(m, Receive(peer, ask))
               && TheRoom(Act(m, Receive(peer, ask))) == TheRoom(m)
               && PacketMessages(m, peer, ask) == [RespawnEvent(1, 100)]
  {
    hide PeerKey;
    var join, ask := Packet(0, 0, 0, 0, JoinGame(Some(0))), Packet(0, 0, 0, 0, AskRespawn);
    var first := NewManager(intervalMs);
    JoinEvents(first, Receive(peer, join));
    var m := Act(first, Receive(peer, join));
    var r := TheRoom(m);
    assert SpeaksFor(m, peer, ask) == Some(Binding(ROOM_ID, 1)) && RoomSpec.SetPeer(r, 1, peer) == r;
    OneEvent(r, Respawn(1));
    RefreshThen(r, 1, peer, [Respawn(1)]);
  }

  /** Which room a client asks to join makes no difference, not even to the answer. */
  lemma DesiredRoomIsIgnored(m: Manager, peer: Peer, packet: Packet, wanted: nat)
    requires packet.command.JoinGame? && packet.command.room.Some?
    ensures var other := packet.(command := JoinGame(Some(wanted)));
            && EventsOf(m, Receive(peer, other)) == EventsOf(m, Receive(peer, packet))
            && (PossibleAction(m, Receive(peer, packet)) ==>
                  Act(m, Receive(peer, other)) == Act(m, Receive(peer, packet)))
            && Replies(m, peer, other) == Replies(m, peer, packet)
  {
  }

  // ---------- the snapshot on the wire ----------

  function U32(n: nat): W.u32 {
    n % 0x1_0000_0000
  }

  /** How a player's position, angles and counters are put into the fields of the format is left open. */
  function WireSnapshot(m: Message, fields: PlayerInfo -> W.PlayerSnapshot): W.Snapshot
    requires m.Snapshot?
  {
    W.Snapshot(U32(m.tick), seq(|m.players|, i requires 0 <= i < |m.players| => fields(m.players[i])))
  }

  const SNAPSHOT_TYPE: W.u8 := 7

  /** The bytes of a datagram that carries a snapshot. */
  function SnapshotBytes(d: Datagram, fields: PlayerInfo -> W.PlayerSnapshot): seq<byte>
    requires d.message.Snapshot?
  {
    var payload := W.EncodeSnapshot(WireSnapshot(d.message, fields));
    W.EncodePacket(SnapshotPacket(d, payload))
  }

  function SnapshotPacket(d: Datagram, payload: seq<byte>): W.GamePacket {
    W.GamePacket(
      W.VERSION, SNAPSHOT_TYPE, 0, U32(d.roomId), U32(d.playerId), U32(d.seqNo), U32(d.tick), 0, 0, payload)
  }

  /** As many as there are in the table. */
  lemma {:induction false} EnumerationLength(order: seq<PlayerId>, players: map<PlayerId, Player>)
    requires Enumerates(order, players)
    ensures |order| == |players|
    decreases |order|
  {
    if order == [] {
      assert players.Keys == {};
    } else {
      var fewer := players - {order[0]};
      assert fewer.Keys == players.Keys - {order[0]};
      EnumerationLength(order[1..], fewer);
    }
  }

  /** A snapshot of the room reaches a client with all its players exactly when there are at most 255 of them. */
  lemma SnapshotArrives(r: Room, order: seq<PlayerId>, d: Datagram, fields: PlayerInfo -> W.PlayerSnapshot,
                        trailing: seq<byte>)
    requires Enumerates(order, r.players) && d.message == Snapshot(r.serverTick, Infos(order, r.players))
    ensures W.ReadSnapshot(SnapshotBytes(d, fields) + trailing) == Some(WireSnapshot(d.message, fields)) <==>
            |r.players| <= 255
  {
    var snapshot := WireSnapshot(d.message, fields);
    W.SnapshotPacketRoundTrip(SnapshotPacket(d, W.EncodeSnapshot(snapshot)), snapshot, trailing);
    EnumerationLength(order, r.players);
    hide W.EncodePacket, W.EncodeSnapshot, W.ReadSnapshot;
  }
}
