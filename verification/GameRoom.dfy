/** The room object: a table of players and a clock, changed in place; its methods refine RoomSpec. */
module GameRooms {
  import opened Bytes
  import opened RoomSpec
  import opened Vectors

  class GameRoom {
    const roomId: nat
    const tickIntervalMs: nat
    var serverTick: nat
    var timeLeftSec: nat
    var matchAccumMs: nat
    var matchOver: bool
    var players: map<PlayerId, Player>

    function View(): Room
      reads this
    {
      Room(roomId, serverTick, tickIntervalMs, timeLeftSec, matchAccumMs, matchOver, players)
    }

    constructor (roomId: nat, tickIntervalMs: nat := 33)
      ensures View() == NewRoom(roomId, tickIntervalMs)
    {
      this.roomId, this.tickIntervalMs := roomId, tickIntervalMs;
      serverTick, timeLeftSec, matchAccumMs, matchOver := 0, MATCH_SECONDS, 0, false;
      players := map[];
    }

    method AddPlayer(peer: Peer, id: PlayerId) returns (added: PlayerId)
      modifies this`players
      ensures View() == RoomSpec.AddPlayer(old(View()), peer, id)
      ensures added == if Admits(old(View()), id) then id else 0
    {
      if id == 0 || id in players {
        return 0;
      }
      players := players[id := NewPlayer(peer, id, |players|)];
      return id;
    }

    method RemovePlayer(id: PlayerId) returns (removed: bool)
      modifies this`players
      ensures View() == RoomSpec.RemovePlayer(old(View()), id)
      ensures removed <==> id in old(players)
    {
      removed := id in players;
      players := players - {id};
    }

    method SetPeer(id: PlayerId, peer: Peer)
      modifies this`players
      ensures View() == RoomSpec.SetPeer(old(View()), id, peer)
    {
      if id in players {
        players := players[id := players[id].(peer := peer)];
      }
    }

    method ApplyInput(id: PlayerId, input: Input, dist: real)
      requires Possible(View(), Move(id, input, dist))
      modifies this`players
      ensures View() == RoomSpec.ApplyInput(old(View()), id, input, dist)
    {
      if id !in players || !players[id].alive || matchOver {
        return;
      }
      var p := players[id];
      if input.seqNo <= p.lastSeq {
        return;
      }
      var firstInput := p.lastSeq == 0;
      p := p.(lastSeq := input.seqNo, clientTick := input.clientTick, moveX := input.moveX, moveY := input.moveY,
              yaw := input.yaw, pitch := input.pitch);
      if input.hasPos {
        p := p.(posAuthoritative := true);
        var d := Minus(input.pos, p.pos);
        var maxStep := if firstInput then FIRST_STEP else MAX_STEP;
        if dist <= maxStep {
          p := p.(pos := input.pos);
        } else if dist > 0.0001 {
          p := p.(pos := Plus(p.pos, Times(d, maxStep / dist)));
        }
      } else {
        p := p.(posAuthoritative := false);
      }
      players := players[id := p];
    }

    /** The nearest living player other than the shooter whom the ray hits; the table is walked in any order. */
    method FindHitTarget(shooter: PlayerId, origin: Vec, dir: Vec) returns (best: Option<PlayerId>)
      ensures IsTarget(View(), shooter, origin, dir, best)
    {
      best := None;
      var bestT, todo := MAX_HIT_RANGE, players.Keys;
      while todo != {}
        invariant todo <= players.Keys
        invariant best.None? ==> bestT == MAX_HIT_RANGE
        invariant best.Some? ==> Hittable(View(), shooter, origin, dir, best.value)
                                 && bestT == Along(origin, dir, players[best.value])
        invariant forall id :: id in players.Keys - todo && Hittable(View(), shooter, origin, dir, id) ==>
                    best.Some? && bestT <= Along(origin, dir, players[id])
        decreases todo
      {
        var id :| id in todo;
        todo := todo - {id};
        var p := players[id];
        if id == shooter || !p.alive {
          continue;
        }
        var t := Dot(Minus(Chest(p), origin), dir);
        if t < MIN_HIT_RANGE || t > MAX_HIT_RANGE {
          continue;
        }
        var miss := Minus(Chest(p), Plus(origin, Times(dir, t)));
        if Norm2(miss) <= HIT_RADIUS * HIT_RADIUS && t < bestT {
          bestT, best := t, Some(id);
        }
      }
    }

    /** Resolve a shot; the id of the player hit, 0 for a miss. */
    method ApplyFire(shooter: PlayerId, dir: Vec, len: real)
      returns (target: PlayerId, hp: nat, killed: bool, ghost shot: Shot)
      requires IsNorm(len, dir)
      modifies this`players
      ensures shot.dir == dir && shot.len == len && Aimed(old(View()), shooter, shot)
      ensures View() == RoomSpec.ApplyFire(old(View()), shooter, shot)
      ensures killed <==> Kills(old(View()), shooter, shot)
      ensures target == if Lands(old(View()), shooter, shot) then shot.target.value else 0
      ensures Lands(old(View()), shooter, shot) ==> target in players && hp == players[target].hp
    {
      target, hp, killed, shot := 0, 0, false, Shot(dir, len, None);
      if matchOver || shooter !in players || !players[shooter].alive || len < 0.0001 {
        return;
      }
      var unit := Vec(dir.x / len, dir.y / len, dir.z / len);
      assert unit == Times(dir, 1.0 / len);
      var found := FindHitTarget(shooter, Muzzle(players[shooter]), unit);
      shot := shot.(target := found);
      if found.None? {
        return;
      }
      target := found.value;
      var t := players[target];
      if t.hp <= FIRE_DAMAGE {
        t := t.(hp := 0, alive := false, respawnMs := RESPAWN_DELAY_MS, deaths := (t.deaths + 1) % COUNTER_LIMIT);
        var s := players[shooter];
        players := players[target := t];
        players := players[shooter := s.(kills := (s.kills + 1) % COUNTER_LIMIT)];
        killed := true;
      } else {
        t := t.(hp := t.hp - FIRE_DAMAGE);
        players := players[target := t];
      }
      hp := t.hp;
    }

    method ApplyWeapon(id: PlayerId, weapon: nat)
      modifies this`players
      ensures View() == RoomSpec.ApplyWeapon(old(View()), id, weapon)
    {
      if id !in players || !players[id].alive || weapon > 5 {
        return;
      }
      players := players[id := players[id].(weapon := weapon)];
    }

    method ApplyProfile(id: PlayerId, name: seq<byte>)
      modifies this`players
      ensures View() == RoomSpec.ApplyProfile(old(View()), id, name)
    {
      if id in players {
        var cut := if |name| <= 32 then name else name[..32];
        players := players[id := players[id].(name := if name == [] then players[id].name else cut)];
      }
    }

    method ApplyRespawn(id: PlayerId)
      modifies this`players
      ensures View() == RoomSpec.ApplyRespawn(old(View()), id)
    {
      if id !in players || players[id].alive || matchOver || players[id].respawnMs > 0 {
        return;
      }
      players := players[id := players[id].(alive := true, hp := FULL_HP, pos := Grid(id), moveX := 0, moveY := 0)];
    }

    method SimulateRespawn(dtMs: nat)
      modifies this`players
      ensures players == map id | id in old(players) :: Recover(old(players)[id], dtMs)
    {
      var todo := players.Keys;
      while todo != {}
        invariant todo <= players.Keys == old(players).Keys
        invariant forall id :: id in players ==>
                    players[id] == if id in todo then old(players)[id] else Recover(old(players)[id], dtMs)
        decreases todo
      {
        var id :| id in todo;
        todo := todo - {id};
        var p := players[id];
        if p.alive {
          continue;
        }
        if p.respawnMs > 0 {
          players := players[id := p.(respawnMs := if p.respawnMs > dtMs then p.respawnMs - dtMs else 0)];
        }
      }
    }

    method SimulateMovement(trig: Trig)
      modifies this`players
      ensures players == map id | id in old(players) :: Simulated(old(View()), old(players)[id], trig)
    {
      hide Drift;
      ghost var r := View();
      var todo := players.Keys;
      while todo != {}
        invariant todo <= players.Keys == old(players).Keys
        invariant forall id :: id in players ==>
                    players[id] == if id in todo then old(players)[id] else Simulated(r, old(players)[id], trig)
        decreases todo
      {
        var id :| id in todo;
        todo := todo - {id};
        var p := players[id];
        if !p.alive || matchOver || p.posAuthoritative {
          continue;
        }
        players := players[id := p.(pos := Plus(p.pos, Drift(p, Seconds(tickIntervalMs), trig)))];
      }
    }

    method AdvanceMatchClock()
      modifies this`serverTick, this`timeLeftSec, this`matchAccumMs, this`matchOver
      ensures View() == AdvanceClock(old(View()))
    {
      serverTick := (serverTick + 1) % TICK_LIMIT;
      if !matchOver {
        matchAccumMs := matchAccumMs + tickIntervalMs;
        while matchAccumMs >= 1000 && timeLeftSec > 0
          invariant serverTick == (old(serverTick) + 1) % TICK_LIMIT && !matchOver
          invariant CountDown(matchAccumMs, timeLeftSec) ==
                    CountDown(old(matchAccumMs) + tickIntervalMs, old(timeLeftSec))
        {
          matchAccumMs := matchAccumMs - 1000;
          timeLeftSec := timeLeftSec - 1;
        }
        if timeLeftSec == 0 {
          matchOver := true;
        }
      }
    }

    /** Copy what the clients may know of every player; the table is walked in any order. */
    method CopyPlayers() returns (infos: seq<PlayerInfo>, ghost order: seq<PlayerId>)
      ensures Enumerates(order, players) && infos == Infos(order, players)
    {
      infos, order := [], [];
      var todo := players.Keys;
      while todo != {}
        invariant todo <= players.Keys && forall id :: id in order <==> id in players.Keys - todo
        invariant forall i, j :: 0 <= i < j < |order| ==> order[i] != order[j]
        invariant infos == Infos(order, players)
        decreases todo
      {
        var id :| id in todo;
        todo := todo - {id};
        infos, order := infos + [InfoOf(players[id])], order + [id];
      }
    }

    /** One tick, and the snapshot after it. */
    method Tick(trig: Trig) returns (infos: seq<PlayerInfo>, ghost order: seq<PlayerId>)
      modifies this
      ensures View() == RoomSpec.Tick(old(View()), trig)
      ensures Enumerates(order, players) && infos == Infos(order, players)
    {
      hide Drift, CountDown;
      AdvanceMatchClock();
      SimulateRespawn(tickIntervalMs);
      SimulateMovement(trig);
      infos, order := CopyPlayers();
    }
  }
}
