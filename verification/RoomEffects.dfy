/** What each message and each tick does to whom in a room, in plain numbers, and what it leaves alone. */
module RoomEffects {
  import opened Bytes
  import opened RoomSpec
  import opened Vectors
  import opened RoomLedger

  /** Of everybody in the room only id may have changed. */
  predicate OnlyChanges(r: Room, t: Room, id: PlayerId) {
    && t == r.(players := t.players) && t.players.Keys == r.players.Keys
    && forall j :: j in r.players && j != id ==> t.players[j] == r.players[j]
  }

  // ---------- joining and leaving ----------

  /** A player who joins is at full health at his place of the grid; nobody else is touched, and an id in use, or 0, is
      refused. */
  lemma JoinAddsOne(r: Room, peer: Peer, id: PlayerId)
    ensures var t := AddPlayer(r, peer, id);
            if id == 0 || id in r.players then t == r
            else
              && t == r.(players := t.players) && t.players.Keys == r.players.Keys + {id}
              && (forall j :: j in r.players ==> t.players[j] == r.players[j])
              && var p, n := t.players[id], |r.players|;
                 && p.id == id && p.peer == peer && p.hp == 100 && p.alive
                 && p.lastSeq == 0 && p.kills == 0 && p.deaths == 0 && p.weapon == 0
                 && p.moveX == 0 && p.moveY == 0 && !p.posAuthoritative
                 && p.pos == Vec(3.0 * (n % 4) as real, 13.0, 3.0 * (n / 4) as real)
                 && p.name == Ascii("Player") + Decimal(id)
  {
    assert NAME_PREFIX == Ascii("Player");
  }

  /** Places of the grid are at least three apart. */
  lemma SpawnsApart(m: nat, n: nat)
    ensures m != n ==> Norm2(Minus(Grid(m), Grid(n))) >= 9.0
  {
    if m != n {
      var dx, dz := (m % 4) - (n % 4), m / 4 - n / 4;
      assert dx != 0 || dz != 0;
      assert Minus(Grid(m), Grid(n)) == Vec(3.0 * dx as real, 0.0, 3.0 * dz as real);
      SquareAtLeastOne(dx);
      SquareAtLeastOne(dz);
    }
  }

  lemma SquareAtLeastOne(d: int)
    ensures d as real * d as real >= 0.0 && (d != 0 ==> d as real * d as real >= 1.0)
  {
  }

  lemma LeaveRemovesOne(r: Room, id: PlayerId)
    ensures var t := RemovePlayer(r, id);
            && t == r.(players := t.players) && t.players.Keys == r.players.Keys - {id}
            && forall j :: j in t.players ==> t.players[j] == r.players[j]
  {
  }

  // ---------- input ----------

  /** Where a player gets who asks to go to claimed and may go no further than limit. */
  ghost predicate Reaches(from: Vec, claimed: Vec, limit: real, to: Vec) {
    if Norm2(Minus(claimed, from)) <= limit * limit then to == claimed
    else
      exists k: real ::
        && 0.0 < k < 1.0 && k * k * Norm2(Minus(claimed, from)) == limit * limit
        && to == Plus(from, Times(Minus(claimed, from), k))
  }

  /** An input counts if its sender lives, the match goes on, and it is newer than the last one. Then every field of it
      is taken over, and its position is reached, or approached in a straight line by just the limit: 100 at first, 3
      from then on. */
  lemma InputTaken(r: Room, id: PlayerId, input: Input, dist: real)
    requires Possible(r, Move(id, input, dist))
    ensures var t := ApplyInput(r, id, input, dist);
            if id !in r.players || !r.players[id].alive || r.matchOver || input.seqNo <= r.players[id].lastSeq then
              t == r
            else
              && OnlyChanges(r, t, id)
              && var p, q := r.players[id], t.players[id];
                 && q == p.(lastSeq := input.seqNo, clientTick := input.clientTick, moveX := input.moveX,
                            moveY := input.moveY, yaw := input.yaw, pitch := input.pitch,
                            posAuthoritative := input.hasPos, pos := q.pos)
                 && if input.hasPos then Reaches(p.pos, input.pos, if p.lastSeq == 0 then 100.0 else 3.0, q.pos)
                    else q.pos == p.pos
  {
    if id in r.players && input.hasPos {
      var p := r.players[id];
      StepReaches(p.pos, input.pos, if p.lastSeq == 0 then 100.0 else 3.0, dist);
    }
    hide Norm2, Reaches, StepTowards;
  }

  lemma StepReaches(from: Vec, claimed: Vec, limit: real, dist: real)
    requires IsNorm(dist, Minus(claimed, from)) && limit >= 1.0
    ensures Reaches(from, claimed, limit, StepTowards(from, claimed, limit, dist))
  {
    RootCompare(dist, Minus(claimed, from), limit);
    if dist > limit {
      var k := limit / dist;
      assert k * dist == limit && k < 1.0;
      assert k * k * (dist * dist) == limit * limit;
    }
    hide Norm2;
  }

  // ---------- the small commands ----------

  lemma WeaponTaken(r: Room, id: PlayerId, weapon: nat)
    ensures var t := ApplyWeapon(r, id, weapon);
            if id in r.players && r.players[id].alive && weapon in {0, 1, 2, 3, 4, 5} then
              OnlyChanges(r, t, id) && t.players[id] == r.players[id].(weapon := weapon)
            else t == r
  {
  }

  /** A name is taken over as far as its first 32 bytes go; an empty one changes nothing. */
  lemma NameTaken(r: Room, id: PlayerId, name: seq<byte>)
    ensures var t := ApplyProfile(r, id, name);
            if id in r.players && name != [] then
              && OnlyChanges(r, t, id) && t.players[id] == r.players[id].(name := t.players[id].name)
              && t.players[id].name <= name && |t.players[id].name| == if |name| < 32 then |name| else 32
            else t == r
  {
  }

  /** Who is granted a respawn stands up at full health at the place of his id; nobody else is touched. */
  lemma RespawnRestores(r: Room, id: PlayerId)
    ensures var t := ApplyRespawn(r, id);
            if id in r.players && !r.players[id].alive && !r.matchOver && r.players[id].respawnMs == 0 then
              && OnlyChanges(r, t, id)
              && t.players[id] ==
                 r.players[id].(alive := true, hp := 100, moveX := 0, moveY := 0,
                                pos := Vec(3.0 * (id % 4) as real, 13.0, 3.0 * (id / 4) as real))
            else t == r
  {
  }

  // ---------- shooting ----------

  /** The squared distance of a player's chest, one above his position, from the point at t of the ray. */
  function Miss(origin: Vec, dir: Vec, p: Player, t: real): real {
    Norm2(Minus(Vec(p.pos.x, p.pos.y + 1.0, p.pos.z), Plus(origin, Times(dir, t))))
  }

  /** The further from the nearest point, the further off. */
  lemma MissAt(origin: Vec, dir: Vec, p: Player, d: real, e: real)
    requires Norm2(dir) == 1.0 && e == d
    ensures var t := Along(origin, dir, p); Miss(origin, dir, p, t + d) == Miss(origin, dir, p, t) + d * e
  {
    var c := Minus(Chest(p), origin);
    var t := Dot(c, dir);
    MissIsQuadratic(c, dir, t + d);
    MissIsQuadratic(c, dir, t);
    assert Minus(Chest(p), Plus(origin, Times(dir, t + d))) == Minus(c, Times(dir, t + d));
    assert Minus(Chest(p), Plus(origin, Times(dir, t))) == Minus(c, Times(dir, t));
    hide Norm2, Dot;
  }

  lemma MissFurther(origin: Vec, dir: Vec, p: Player, d: real)
    requires Norm2(dir) == 1.0
    ensures var t := Along(origin, dir, p);
            && Miss(origin, dir, p, t) <= Miss(origin, dir, p, t + d)
            && (d != 0.0 ==> Miss(origin, dir, p, t) < Miss(origin, dir, p, t + d))
  {
    hide Miss, Along, Norm2;
    var e :| e == d;
    MissAt(origin, dir, p, d, e);
    ProductPositive(d, e);
  }

  lemma MissIsQuadratic(c: Vec, dir: Vec, s: real)
    requires Norm2(dir) == 1.0
    ensures Norm2(Minus(c, Times(dir, s))) == Norm2(c) - 2.0 * s * Dot(c, dir) + s * s
  {
    assert Norm2(Minus(c, Times(dir, s))) == Norm2(c) - 2.0 * s * Dot(c, dir) + s * s * Norm2(dir);
  }

  ghost predicate Nearest(origin: Vec, dir: Vec, p: Player, t: real) {
    forall s :: Miss(origin, dir, p, t) <= Miss(origin, dir, p, s)
  }

  /** The ray hits a player exactly if the point of it that is nearest to his chest lies from 0.5 to less than 80 along
      it and at most 1.2 from the chest; and that point is what targets are ordered by. */
  lemma HitGeometry(origin: Vec, dir: Vec, p: Player)
    requires Norm2(dir) == 1.0
    ensures forall t :: Nearest(origin, dir, p, t) <==> t == Along(origin, dir, p)
    ensures OnRay(origin, dir, p) <==>
            exists t :: Nearest(origin, dir, p, t) && 0.5 <= t < 80.0 && Miss(origin, dir, p, t) <= 1.44
  {
    var t0 := Along(origin, dir, p);
    forall t
      ensures Nearest(origin, dir, p, t) <==> t == t0
    {
      NearestIs(origin, dir, p, t);
    }
    assert Nearest(origin, dir, p, t0);
    assert OnRay(origin, dir, p) <==> 0.5 <= t0 < 80.0 && Miss(origin, dir, p, t0) <= 1.44;
    hide Miss, Nearest, Norm2, Along;
  }

  lemma NearestIs(origin: Vec, dir: Vec, p: Player, t: real)
    requires Norm2(dir) == 1.0
    ensures Nearest(origin, dir, p, t) <==> t == Along(origin, dir, p)
  {
    hide Miss, Along, Norm2;
    var t0 := Along(origin, dir, p);
    forall s
      ensures Miss(origin, dir, p, t0) <= Miss(origin, dir, p, s)
      ensures s != t0 ==> Miss(origin, dir, p, t0) < Miss(origin, dir, p, s)
    {
      MissFurther(origin, dir, p, s - t0);
    }
  }

  lemma ProductPositive(d: real, e: real)
    requires e == d
    ensures if d == 0.0 then d * e == 0.0 else d * e > 0.0
  {
    if d > 0.0 {
      MulStrict(0.0, d, e);
    } else if d < 0.0 {
      MulStrict(0.0, -d, -e);
      assert -d * -e == d * e;
    }
  }

  /** A shot is fired from 1.5 above the shooter's own position, and only by the living, during the match, and in some
      direction; it takes 25 from a nearest one of those it hits, never the shooter or the dead, or his life and five
      seconds if he has no more; the kill is the shooter's; and nothing else changes. */
  lemma ShotTaken(r: Room, shooter: PlayerId, shot: Shot)
    requires Aimed(r, shooter, shot)
    ensures var t := ApplyFire(r, shooter, shot);
            if r.matchOver || shooter !in r.players || !r.players[shooter].alive || shot.len < 0.0001
               || shot.target.None? then t == r
            else
              var target := shot.target.value;
              && target in r.players && target != shooter && r.players[target].alive
              && t == r.(players := t.players) && t.players.Keys == r.players.Keys
              && (forall j :: j in r.players && j != target && j != shooter ==> t.players[j] == r.players[j])
              && var p, s := r.players[target], r.players[shooter];
                 if p.hp > 25 then
                   t.players[target] == p.(hp := p.hp - 25) && t.players[shooter] == s
                 else
                   && t.players[target] ==
                      p.(hp := 0, alive := false, respawnMs := 5000, deaths := (p.deaths + 1) % 0x1_0000)
                   && t.players[shooter] == s.(kills := (s.kills + 1) % 0x1_0000)
  {
    if Lands(r, shooter, shot) {
      TargetIsOther(r, shooter, shot);
    }
    hide IsTarget, IsNorm;
  }

  lemma UnitLength(dir: Vec, len: real)
    requires IsNorm(len, dir) && len >= 0.0001
    ensures Norm2(Times(dir, 1.0 / len)) == 1.0
  {
    var k := 1.0 / len;
    assert k * len == 1.0;
    assert Norm2(Times(dir, k)) == k * k * Norm2(dir);
    assert k * k * (len * len) == (k * len) * (k * len);
  }

  ghost predicate InTheWay(r: Room, shooter: PlayerId, origin: Vec, dir: Vec, id: PlayerId, t: real)
    requires id in r.players
  {
    && id != shooter && r.players[id].alive && Nearest(origin, dir, r.players[id], t)
    && 0.5 <= t < 80.0 && Miss(origin, dir, r.players[id], t) <= 1.44
  }

  /** Whom a shot hits: the first of those in its way, and nobody only if nobody is in its way. */
  lemma ShotHitsFirst(r: Room, shooter: PlayerId, shot: Shot)
    requires Aimed(r, shooter, shot) && Armed(r, shooter, shot)
    ensures var p := r.players[shooter].pos;
            var origin, dir := Vec(p.x, p.y + 1.5, p.z), Times(shot.dir, 1.0 / shot.len);
            match shot.target
            case None => forall id, t :: id in r.players ==> !InTheWay(r, shooter, origin, dir, id, t)
            case Some(best) =>
              best in r.players && exists t ::
                && InTheWay(r, shooter, origin, dir, best, t)
                && forall id, s :: id in r.players && InTheWay(r, shooter, origin, dir, id, s) ==> t <= s
  {
    var p := r.players[shooter].pos;
    var origin, dir := Vec(p.x, p.y + 1.5, p.z), Times(shot.dir, 1.0 / shot.len);
    assert origin == Muzzle(r.players[shooter]);
    UnitLength(shot.dir, shot.len);
    forall id, t | id in r.players
      ensures InTheWay(r, shooter, origin, dir, id, t) <==>
              Hittable(r, shooter, origin, dir, id) && t == Along(origin, dir, r.players[id])
    {
      HitGeometry(origin, dir, r.players[id]);
    }
    hide InTheWay, Hittable, Along, Norm2, Times, IsNorm;
    if shot.target.Some? {
      var best := shot.target.value;
      TargetIsHittable(r, shooter, origin, dir, best);
      assert InTheWay(r, shooter, origin, dir, best, Along(origin, dir, r.players[best]));
    }
  }

  lemma TargetIsHittable(r: Room, shooter: PlayerId, origin: Vec, dir: Vec, best: PlayerId)
    requires IsTarget(r, shooter, origin, dir, Some(best))
    ensures best in r.players && Hittable(r, shooter, origin, dir, best)
  {
  }

  // ---------- ticks ----------

  /** A tick changes nobody but in his position and, for the dead, in the time still to wait, which it shortens by its
      own length, no further than to zero. */
  lemma TickChangesOnly(r: Room, trig: Trig)
    ensures var t := Tick(r, trig);
            && t.players.Keys == r.players.Keys && t.id == r.id && t.intervalMs == r.intervalMs
            && forall id :: id in r.players ==>
                 var p, q := r.players[id], t.players[id];
                 && q == p.(pos := q.pos, respawnMs := q.respawnMs)
                 && q.respawnMs == (if p.alive then p.respawnMs
                                    else if p.respawnMs > r.intervalMs then p.respawnMs - r.intervalMs else 0)
  {
    hide Drift, CountDown;
  }

  /** Where a player drifts: along his heading by what his stick says ahead, to the right of it by what it says
      sideways, and neither up nor down; a full stick is six a second. */
  lemma TickMovesAlong(r: Room, id: PlayerId, trig: Trig)
    requires IsTrig(trig) && id in r.players
    ensures var p, (s, c) := r.players[id], trig(r.players[id].yaw);
            var heading, right, dt := Vec(s, 0.0, c), Vec(c, 0.0, -s), r.intervalMs as real / 1000.0;
            var t := Tick(r, trig);
            && id in t.players
            && var moved := Minus(t.players[id].pos, p.pos);
               if p.alive && !t.matchOver && !p.posAuthoritative then
                 && moved.y == 0.0
                 && Dot(moved, heading) == p.moveY as real / 127.0 * 6.0 * dt
                 && Dot(moved, right) == p.moveX as real / 127.0 * 6.0 * dt
               else moved == Vec(0.0, 0.0, 0.0)
  {
    var p, dt := r.players[id], Seconds(r.intervalMs);
    DriftAlong(p, dt, trig);
    assert Minus(Plus(p.pos, Drift(p, dt, trig)), p.pos) == Drift(p, dt, trig);
    hide Drift, Dot, CountDown;
  }

  lemma DriftAlong(p: Player, dt: real, trig: Trig)
    requires IsTrig(trig)
    ensures var (s, c) := trig(p.yaw);
            var d := Drift(p, dt, trig);
            && d.y == 0.0
            && Dot(d, Vec(s, 0.0, c)) == p.moveY as real / 127.0 * 6.0 * dt
            && Dot(d, Vec(c, 0.0, -s)) == p.moveX as real / 127.0 * 6.0 * dt
  {
    var (s, c) := trig(p.yaw);
    var nx, nz, k := p.moveX as real / 127.0, p.moveY as real / 127.0, 6.0 * dt;
    assert s * s + c * c == 1.0;
    var u, v := s * nz + c * nx, c * nz + -s * nx;
    assert u * s + v * c == nz * (s * s + c * c);
    assert u * c + v * -s == nx * (s * s + c * c);
    assert u * 6.0 * dt * s + v * 6.0 * dt * c == (u * s + v * c) * k;
    assert u * 6.0 * dt * c + v * 6.0 * dt * -s == (u * c + v * -s) * k;
  }

  // ---------- the wait for a respawn ----------

  lemma StepWaits(l: Ledger, e: Event, id: PlayerId)
    requires l.accounts.Keys == l.room.players.Keys && Possible(l.room, e)
    requires id in l.room.players && !l.room.players[id].alive && e != Leave(id)
    requires e == Respawn(id) ==> l.room.players[id].respawnMs > 0
    ensures var r, m := l.room, LedgerStep(l, e);
            && id in m.room.players && !m.room.players[id].alive && m.room.intervalMs == r.intervalMs
            && m.ticks == l.ticks + (if e.Ticked? then 1 else 0)
            && m.room.players[id].respawnMs ==
               if !e.Ticked? then r.players[id].respawnMs
               else if r.players[id].respawnMs > r.intervalMs then r.players[id].respawnMs - r.intervalMs else 0
  {
    match e {
      case Fire(shooter, shot) => ShotTaken(l.room, shooter, shot);
      case Ticked(trig) => TickChangesOnly(l.room, trig);
      case _ =>
    }
    hide ApplyFire, Aimed, IsTarget, IsNorm, Tick;
  }

  /** The time the ticks from one count to another take. */
  function Spent(from: nat, to: nat, intervalMs: nat): nat {
    if to >= from then (to - from) * intervalMs else 0
  }

  lemma SpentInSteps(a: nat, b: nat, c: nat, intervalMs: nat)
    requires a <= b <= c
    ensures Spent(a, c, intervalMs) == Spent(a, b, intervalMs) + Spent(b, c, intervalMs)
    ensures Spent(a, a, intervalMs) == 0 && Spent(a, a + 1, intervalMs) == intervalMs
  {
  }

  /** How much of a wait is left after some time. */
  function LeftOf(wait: nat, elapsedMs: nat): nat {
    if wait > elapsedMs then wait - elapsedMs else 0
  }

  predicate Waiting(r: Room, id: PlayerId, wait: nat) {
    id in r.players && !r.players[id].alive && r.players[id].respawnMs == wait
  }

  lemma {:induction false} WaitShrinks(l: Ledger, es: seq<Event>, id: PlayerId, wait: nat)
    requires PossibleRun(l, es) && Waiting(l.room, id, wait) && Leave(id) !in es
    requires Respawn(id) !in es || Spent(l.ticks, Run(l, es).ticks, l.room.intervalMs) < wait
    ensures Run(l, es).ticks >= l.ticks
    ensures Waiting(Run(l, es).room, id, LeftOf(wait, Spent(l.ticks, Run(l, es).ticks, l.room.intervalMs)))
    decreases |es|
  {
    hide LedgerStep, Possible, Spent;
    if es == [] {
      SpentInSteps(l.ticks, l.ticks, l.ticks, l.room.intervalMs);
    } else {
      var e, n, m := es[0], LedgerStep(l, es[0]), Run(l, es);
      assert PossibleRun(n, es[1..]) && m == Run(n, es[1..]) && l.accounts.Keys == l.room.players.Keys;
      assert es == [e] + es[1..];
      hide Run, PossibleRun;
      TicksGrow(n, es[1..]);
      StepWaits(l, e, id);
      SpentInSteps(l.ticks, n.ticks, m.ticks, l.room.intervalMs);
      WaitShrinks(n, es[1..], id, LeftOf(wait, Spent(l.ticks, n.ticks, l.room.intervalMs)));
    }
  }

  lemma {:induction false} TicksGrow(l: Ledger, es: seq<Event>)
    requires PossibleRun(l, es)
    ensures Run(l, es).ticks >= l.ticks
    decreases |es|
  {
    if es != [] {
      TicksGrow(LedgerStep(l, es[0]), es[1..]);
    }
  }

  /** A player killed now is granted a respawn from the moment on, and not before, that the ticks since come to five
      seconds, as long as the match goes on. */
  lemma RespawnAfterFiveSeconds(l: Ledger, shooter: PlayerId, shot: Shot, es: seq<Event>)
    requires l.accounts.Keys == l.room.players.Keys && Aimed(l.room, shooter, shot) && Kills(l.room, shooter, shot)
    requires var m, id := LedgerStep(l, Fire(shooter, shot)), shot.target.value;
             PossibleRun(m, es) && Leave(id) !in es
             && (Respawn(id) !in es || Spent(l.ticks, Run(m, es).ticks, l.room.intervalMs) < 5000)
    ensures var m, id := Run(LedgerStep(l, Fire(shooter, shot)), es), shot.target.value;
            && id in m.room.players && !m.room.players[id].alive
            && (Respawns(m.room, id) <==>
                !m.room.matchOver && Spent(l.ticks, m.ticks, l.room.intervalMs) >= 5000)
  {
    ShotTaken(l.room, shooter, shot);
    var m := LedgerStep(l, Fire(shooter, shot));
    assert m.ticks == l.ticks && m.room.intervalMs == l.room.intervalMs;
    hide ApplyFire, Aimed, Run, PossibleRun;
    WaitShrinks(m, es, shot.target.value, 5000);
  }

  // ---------- snapshots ----------

  /** A snapshot tells of everybody once, each of his numbers in its own place. */
  lemma SnapshotTells(order: seq<PlayerId>, players: map<PlayerId, Player>)
    requires Enumerates(order, players)
    ensures |Infos(order, players)| == |order|
    ensures forall i :: 0 <= i < |order| ==>
              order[i] in players &&
              var p, info := players[order[i]], Infos(order, players)[i];
              && info.id == p.id && info.pos == p.pos && info.yaw == p.yaw && info.pitch == p.pitch
              && info.hp == p.hp && (info.dead <==> !p.alive) && info.lastSeq == p.lastSeq
              && info.weapon == p.weapon && info.kills == p.kills && info.deaths == p.deaths
  {
  }
}
