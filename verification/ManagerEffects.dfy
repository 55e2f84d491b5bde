/** What the manager makes of each datagram: for whom it is taken, what it does to the room, and what is sent. */
module ManagerEffects {
  import opened Bytes
  import opened RoomSpec
  import opened ManagerSpec
  import opened RoomManagers
  import GameLayout
  import GameWire

  /** A datagram speaks for the player who is at its address, whatever its header says; from an address where nobody is,
      for the player of the room whom its header names, if there is one. */
  lemma WhoSpeaks(m: Manager, peer: Peer, packet: Packet)
    requires Inv(m)
    ensures forall id :: id in TheRoom(m).players && TheRoom(m).players[id].peer == peer ==>
              SpeaksFor(m, peer, packet) == Some(Binding(1, id))
    ensures (forall id :: id in TheRoom(m).players ==> TheRoom(m).players[id].peer != peer) ==>
              SpeaksFor(m, peer, packet) ==
              if packet.roomId == 1 && packet.playerId in TheRoom(m).players then Some(Binding(1, packet.playerId))
              else None
  {
    forall id | id in TheRoom(m).players
      ensures PeerKey(TheRoom(m).players[id].peer) == PeerKey(peer) <==> TheRoom(m).players[id].peer == peer
    {
      KeyInjective(TheRoom(m).players[id].peer, peer);
    }
    hide PeerKey;
    assert KeysLeadToPlayers(m.index, TheRoom(m).players) && PlayersHaveKeys(m.index, TheRoom(m).players);
  }

  /** What the room is told once it is known who speaks. */
  function Obeyed(r: Room, id: PlayerId, c: Command): Room
    requires OracleRight(r, id, c)
  {
    match c
    case SendInput(Some(input), dist) => ApplyInput(r, id, input, dist)
    case FireShot(Some(shot)) => ApplyFire(r, id, shot)
    case PickWeapon(Some(weapon)) => ApplyWeapon(r, id, weapon)
    case SetProfile(Some(name)) => ApplyProfile(r, id, name)
    case AskRespawn => ApplyRespawn(r, id)
    case _ => r
  }

  predicate OracleRight(r: Room, id: PlayerId, c: Command) {
    match c
    case SendInput(Some(input), dist) => Possible(r, Move(id, input, dist))
    case FireShot(Some(shot)) => Aimed(r, id, shot)
    case _ => true
  }

  /** Every command that decodes is carried out, for the player its datagram speaks for and for nobody else; without
      such a player nothing happens. */
  lemma CommandsAreObeyed(m: Manager, peer: Peer, packet: Packet)
    requires Inv(m) && PossibleAction(m, Receive(peer, packet))
    requires !packet.command.JoinGame? && !packet.command.Unknown?
    ensures var who, r := SpeaksFor(m, peer, packet), TheRoom(m);
            if who.None? then Act(m, Receive(peer, packet)).rooms == m.rooms && Rebound(m, peer, packet) == m.index
            else
              var id := who.value.playerId;
              && OracleRight(SetPeer(r, id, peer), id, packet.command)
              && TheRoom(Act(m, Receive(peer, packet))) == Obeyed(SetPeer(r, id, peer), id, packet.command)
  {
    var who, r := SpeaksFor(m, peer, packet), TheRoom(m);
    RoomKeys(m);
    if who.None? {
      StepAllNone(r);
    } else {
      var id, es := who.value.playerId, CommandEvents(who.value.playerId, packet.command);
      StepAllTwo(r, Refresh(id, peer), es);
      var q := SetPeer(r, id, peer);
      if es == [] {
        StepAllNone(q);
      } else {
        assert es == [es[0]];
        assert Possible(q, es[0]);
        OneEvent(q, es[0]);
      }
    }
    hide SpeaksFor, Rebound, SetPeer, ApplyFire, ApplyInput, ApplyWeapon, ApplyProfile, ApplyRespawn, Aimed, StepAll;
  }

  lemma TicksReachTheRoom(m: Manager, trig: Trig)
    ensures PossibleAction(m, TickAll(trig))
    ensures var n := Act(m, TickAll(trig));
            && n.index == m.index && n.nextPlayerId == m.nextPlayerId && n.rooms.Keys == m.rooms.Keys
            && (ROOM_ID in m.rooms ==> n.rooms[ROOM_ID] == Tick(m.rooms[ROOM_ID], trig))
  {
    if ROOM_ID in m.rooms {
      OneEvent(TheRoom(m), Ticked(trig));
    } else {
      StepAllNone(TheRoom(m));
    }
    hide Tick;
  }

  /** After somebody leaves, nobody is at his address, and everybody else is as he was. */
  lemma LeavingEmptiesTheAddress(m: Manager, peer: Peer)
    requires Inv(m)
    ensures PossibleAction(m, Depart(peer))
    ensures var r, t := TheRoom(m).players, TheRoom(Act(m, Depart(peer))).players;
            forall id :: id in t <==> id in r && r[id].peer != peer
    ensures var r, t := TheRoom(m).players, TheRoom(Act(m, Depart(peer))).players;
            forall id :: id in t && id in r ==> t[id] == r[id]
  {
    forall id | id in TheRoom(m).players
      ensures PeerKey(TheRoom(m).players[id].peer) == PeerKey(peer) <==> TheRoom(m).players[id].peer == peer
    {
      KeyInjective(TheRoom(m).players[id].peer, peer);
    }
    hide PeerKey;
    assert KeysLeadToPlayers(m.index, TheRoom(m).players) && PlayersHaveKeys(m.index, TheRoom(m).players);
    if PeerKey(peer) in m.index {
      OneEvent(TheRoom(m), Leave(m.index[PeerKey(peer)].playerId));
    } else {
      StepAllNone(TheRoom(m));
    }
  }

  // ---------- what is sent ----------

  /** A chat goes to everybody under the name of the player it comes from, not of the one its header claims; from
      nobody it goes nowhere. */
  lemma ChatIsPassedOn(m: Manager, peer: Peer, packet: Packet, text: seq<byte>)
    requires packet.command == SendChat(Some(text))
    ensures PacketMessages(m, peer, packet) ==
            match SpeaksFor(m, peer, packet)
            case None => []
            case Some(b) => [ChatLine(b.playerId, text)]
  {
  }

  /** A ping that decodes is answered once, to where it came from, with its own stamp, number and tick, the two readings
      of the clock in their order, and the room and player it speaks for, or else those it named. */
  lemma PongEchoes(m: Manager, peer: Peer, packet: Packet)
    requires packet.command.Ping?
    ensures Replies(m, peer, packet) ==
            match packet.command.stamp
            case None => []
            case Some(stamp) =>
              var who := SpeaksFor(m, peer, packet);
              var b := if who.Some? then who.value else Binding(packet.roomId, packet.playerId);
              var c := packet.command;
              [Datagram(peer, b.roomId, b.playerId, packet.seqNo, packet.tick, Pong(stamp, c.received, c.sent))]
  {
    hide PeerKey;
  }

  /** The acknowledgement of a join tells the tick of the room and its interval. */
  lemma JoinAckTellsTheTick(m: Manager, peer: Peer, packet: Packet)
    requires packet.command.JoinGame?
    ensures forall d :: d in Replies(m, peer, packet) ==>
              && d.seqNo == 0 && d.tick == TheRoom(m).serverTick
              && d.message.JoinAck? && d.message.tick == TheRoom(m).serverTick && d.message.intervalMs == m.intervalMs
  {
    hide PeerKey;
  }

  /** What every datagram of a fan-out has in its header. */
  lemma FanOutHeaders(r: Room, message: Message, sent: seq<Datagram>)
    requires IsFanOut(r, message, sent)
    ensures forall d :: d in sent ==>
              && d.playerId in r.players && d.peer == r.players[d.playerId].peer && d.message == message
              && d.roomId == r.id && d.tick == r.serverTick
              && (message.Snapshot? ==> d.seqNo == message.tick) && (!message.Snapshot? ==> d.seqNo == 0)
  {
  }

  /** A fan-out reaches everybody in the room, and nobody twice. */
  lemma FanOutReachesAll(r: Room, message: Message, sent: seq<Datagram>)
    requires IsFanOut(r, message, sent)
    ensures forall id :: id in r.players ==> exists i :: 0 <= i < |sent| && sent[i].playerId == id
    ensures forall i, j :: 0 <= i < |sent| && 0 <= j < |sent| && sent[i].playerId == sent[j].playerId ==> i == j
  {
    forall id | id in r.players
      ensures exists i :: 0 <= i < |sent| && sent[i].playerId == id
    {
      assert id in Recipients(sent);
    }
  }

  /** The header of a snapshot datagram, byte by byte. */
  lemma SnapshotHeader(d: Datagram, fields: PlayerInfo -> GameWire.PlayerSnapshot)
    requires d.message.Snapshot?
    ensures var b := SnapshotBytes(d, fields);
            && |b| >= 28
            && Field(b, 0, 4) == 0x4C4E4750 && Field(b, 4, 1) == 1 && Field(b, 5, 1) == 7 && Field(b, 6, 2) == 0
            && Field(b, 8, 4) == d.roomId % 0x1_0000_0000 && Field(b, 12, 4) == d.playerId % 0x1_0000_0000
            && Field(b, 16, 4) == d.seqNo % 0x1_0000_0000 && Field(b, 20, 4) == d.tick % 0x1_0000_0000
            && Field(b, 26, 2) == 0
            && b[28..] == GameWire.EncodeSnapshot(WireSnapshot(d.message, fields))
  {
    hide GameWire.EncodeSnapshot, GameWire.EncodePacket, Field, WireSnapshot;
    GameLayout.PacketLayout(SnapshotPacket(d, GameWire.EncodeSnapshot(WireSnapshot(d.message, fields))));
  }

  /** How many ticks there are to one telling of the match state: about a second of them, and at least one. */
  function Period(intervalMs: nat): (n: nat)
    requires intervalMs > 0
    ensures n >= 1 && (n == 1 || (n * intervalMs <= 1000 < (n + 1) * intervalMs))
  {
    var n := 1000 / intervalMs;
    if n > 1 then n else 1
  }

  /** What is sent j ticks after the broadcast counter stood at start. */
  function Later(r: Room, order: seq<PlayerId>, intervalMs: nat, start: nat, j: nat): seq<Message>
    requires Enumerates(order, r.players)
  {
    TickMessages(r, order, intervalMs, start + j)
  }

  /** Of each period of ticks exactly one, the k-th, tells the match state, with the time left and whether it is over;
      the snapshot goes out every time, and first. */
  lemma MatchStateOncePerPeriod(r: Room, order: seq<PlayerId>, intervalMs: nat, start: nat) returns (k: nat)
    requires Enumerates(order, r.players) && intervalMs > 0
    ensures k < Period(intervalMs)
    ensures forall j: nat :: j < Period(intervalMs) ==>
              Later(r, order, intervalMs, start, j) ==
              [Snapshot(r.serverTick, Infos(order, r.players))]
              + if j == k then [MatchState(r.timeLeft, r.matchOver)] else []
  {
    var n := Period(intervalMs);
    k := (n - start % n) % n;
    forall j: nat | j < n
      ensures Later(r, order, intervalMs, start, j) ==
              [Snapshot(r.serverTick, Infos(order, r.players))]
              + if j == k then [MatchState(r.timeLeft, r.matchOver)] else []
    {
      OneMultiple(start, n, j);
    }
  }

  lemma OneMultiple(start: nat, n: nat, j: nat)
    requires n > 0 && j < n
    ensures (start + j) % n == 0 <==> j == (n - start % n) % n
  {
    SumRemainder(start / n, start % n, n, j);
  }

  lemma SumRemainder(q: nat, s: nat, n: nat, j: nat)
    requires s < n && j < n
    ensures (q * n + s + j) % n == if s + j < n then s + j else s + j - n
    ensures (n - s) % n == if s == 0 then 0 else n - s
  {
    if s + j < n {
      RemainderIs(q * n + s + j, n, q, s + j);
    } else {
      RemainderIs(q * n + s + j, n, q + 1, s + j - n);
    }
    if s == 0 {
      RemainderIs(n, n, 1, 0);
    } else {
      RemainderIs(n - s, n, 0, n - s);
    }
  }

  lemma RemainderIs(v: nat, n: nat, q: nat, r: nat)
    requires r < n && v == q * n + r
    ensures v % n == r
  {
    DivModUnique(v, n, q, r);
  }
}
