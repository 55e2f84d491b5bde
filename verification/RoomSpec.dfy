/** The authoritative game room: its players, the match clock, and what each message and each tick does to them.
    Time is in milliseconds and positions are real numbers; square roots and angles come as oracle values. */
module RoomSpec {
  import opened Bytes
  import opened Vectors

  const MOVE_SPEED: real := 6.0
  const MAX_HIT_RANGE: real := 80.0
  const MIN_HIT_RANGE: real := 0.5
  const HIT_RADIUS: real := 1.2
  const FIRE_DAMAGE: nat := 25
  const FULL_HP: nat := 100
  const RESPAWN_DELAY_MS: nat := 5000
  const MATCH_SECONDS: nat := 300
  const FIRST_STEP: real := 100.0
  const MAX_STEP: real := 3.0
  const COUNTER_LIMIT: nat := 0x1_0000
  const TICK_LIMIT: nat := 0x1_0000_0000
  const ID_LIMIT: nat := 0x1_0000_0000
  const NAME_PREFIX: seq<byte> := [80, 108, 97, 121, 101, 114]    // Player

  type PlayerId = nat

  datatype Peer = Peer(ip: nat, port: nat)

  // ---------- state ----------

  datatype Player = Player(
    id: PlayerId, peer: Peer, pos: Vec, yaw: int, pitch: int, moveX: int, moveY: int, hp: nat, lastSeq: nat,
    clientTick: nat, alive: bool, weapon: nat, kills: nat, deaths: nat, name: seq<byte>, respawnMs: nat,
    posAuthoritative: bool)

  datatype Room = Room(
    id: nat, serverTick: nat, intervalMs: nat, timeLeft: nat, accumMs: nat, matchOver: bool,
    players: map<PlayerId, Player>)

  function NewRoom(id: nat, intervalMs: nat): Room {
    Room(id, 0, intervalMs, MATCH_SECONDS, 0, false, map[])
  }

  function Grid(n: nat): Vec {
    Vec((n % 4) as real * 3.0, 13.0, (n / 4) as real * 3.0)
  }

  function NewPlayer(peer: Peer, id: PlayerId, index: nat): Player {
    Player(id, peer, Grid(index), 0, 0, 0, 0, FULL_HP, 0, 0, true, 0, 0, 0, NAME_PREFIX + Decimal(id), 0, false)
  }

  function Put(r: Room, p: Player): Room {
    r.(players := r.players[p.id := p])
  }

  // ---------- joining and leaving ----------

  predicate Admits(r: Room, id: PlayerId) {
    id != 0 && id !in r.players
  }

  function AddPlayer(r: Room, peer: Peer, id: PlayerId): Room {
    if Admits(r, id) then Put(r, NewPlayer(peer, id, |r.players|)) else r
  }

  function RemovePlayer(r: Room, id: PlayerId): Room {
    r.(players := r.players - {id})
  }

  function SetPeer(r: Room, id: PlayerId, peer: Peer): Room {
    if id in r.players then r.(players := r.players[id := r.players[id].(peer := peer)]) else r
  }

  // ---------- input ----------

  datatype Input = Input(
    seqNo: nat, clientTick: nat, moveX: int, moveY: int, yaw: int, pitch: int, hasPos: bool, pos: Vec)

  predicate Accepts(r: Room, id: PlayerId, input: Input) {
    id in r.players && r.players[id].alive && !r.matchOver && input.seqNo > r.players[id].lastSeq
  }

  /** Move towards the target, at most maxStep; dist is the distance to it. */
  function StepTowards(pos: Vec, target: Vec, maxStep: real, dist: real): Vec {
    if dist <= maxStep then target
    else if dist > 0.0001 then Plus(pos, Times(Minus(target, pos), maxStep / dist))
    else pos
  }

  function TakeInput(p: Player, input: Input, dist: real): Player {
    var maxStep := if p.lastSeq == 0 then FIRST_STEP else MAX_STEP;
    p.(lastSeq := input.seqNo, clientTick := input.clientTick, moveX := input.moveX, moveY := input.moveY,
       yaw := input.yaw, pitch := input.pitch, posAuthoritative := input.hasPos,
       pos := if input.hasPos then StepTowards(p.pos, input.pos, maxStep, dist) else p.pos)
  }

  function ApplyInput(r: Room, id: PlayerId, input: Input, dist: real): Room {
    if Accepts(r, id, input) then r.(players := r.players[id := TakeInput(r.players[id], input, dist)]) else r
  }

  // ---------- firing ----------

  function Chest(p: Player): Vec { Plus(p.pos, Vec(0.0, 1.0, 0.0)) }

  function Muzzle(p: Player): Vec { Plus(p.pos, Vec(0.0, 1.5, 0.0)) }

  /** How far along the ray the point nearest to the target's chest lies. */
  function Along(origin: Vec, dir: Vec, p: Player): real {
    Dot(Minus(Chest(p), origin), dir)
  }

  predicate OnRay(origin: Vec, dir: Vec, p: Player) {
    var t := Along(origin, dir, p);
    MIN_HIT_RANGE <= t < MAX_HIT_RANGE
    && Norm2(Minus(Chest(p), Plus(origin, Times(dir, t)))) <= HIT_RADIUS * HIT_RADIUS
  }

  predicate Hittable(r: Room, shooter: PlayerId, origin: Vec, dir: Vec, id: PlayerId) {
    id in r.players && id != shooter && r.players[id].alive && OnRay(origin, dir, r.players[id])
  }

  /** The target is a nearest player the ray hits; ties are left open. */
  predicate IsTarget(r: Room, shooter: PlayerId, origin: Vec, dir: Vec, target: Option<PlayerId>) {
    match target
    case None => forall id :: id in r.players ==> !Hittable(r, shooter, origin, dir, id)
    case Some(best) =>
      && Hittable(r, shooter, origin, dir, best)
      && forall id :: id in r.players && Hittable(r, shooter, origin, dir, id) ==>
           Along(origin, dir, r.players[best]) <= Along(origin, dir, r.players[id])
  }

  /** A shot: its direction, the length of that, and what the hit test finds. */
  datatype Shot = Shot(dir: Vec, len: real, target: Option<PlayerId>)

  predicate Armed(r: Room, shooter: PlayerId, shot: Shot) {
    !r.matchOver && shooter in r.players && r.players[shooter].alive && shot.len >= 0.0001
  }

  /** The oracle values of a shot are what the code would compute; the server's own position is the origin. */
  predicate Aimed(r: Room, shooter: PlayerId, shot: Shot) {
    && IsNorm(shot.len, shot.dir)
    && (Armed(r, shooter, shot) ==>
          IsTarget(r, shooter, Muzzle(r.players[shooter]), Times(shot.dir, 1.0 / shot.len), shot.target))
  }

  predicate Lands(r: Room, shooter: PlayerId, shot: Shot) {
    Armed(r, shooter, shot) && shot.target.Some?
  }

  predicate Kills(r: Room, shooter: PlayerId, shot: Shot) {
    Lands(r, shooter, shot) && shot.target.value in r.players && r.players[shot.target.value].hp <= FIRE_DAMAGE
  }

  function Wounded(p: Player): Player {
    if p.hp <= FIRE_DAMAGE then
      p.(hp := 0, alive := false, respawnMs := RESPAWN_DELAY_MS, deaths := (p.deaths + 1) % COUNTER_LIMIT)
    else p.(hp := p.hp - FIRE_DAMAGE)
  }

  function ApplyFire(r: Room, shooter: PlayerId, shot: Shot): Room
    requires Aimed(r, shooter, shot)
  {
    if !Lands(r, shooter, shot) then r
    else
      var target := shot.target.value;
      var hit := r.(players := r.players[target := Wounded(r.players[target])]);
      if Kills(r, shooter, shot) then
        var s := r.players[shooter];
        hit.(players := hit.players[shooter := s.(kills := (s.kills + 1) % COUNTER_LIMIT)])
      else hit
  }

  // ---------- the small commands ----------

  function ApplyWeapon(r: Room, id: PlayerId, weapon: nat): Room {
    if id in r.players && r.players[id].alive && weapon <= 5 then
      r.(players := r.players[id := r.players[id].(weapon := weapon)])
    else r
  }

  function ApplyProfile(r: Room, id: PlayerId, name: seq<byte>): Room {
    if id in r.players && name != [] then
      r.(players := r.players[id := r.players[id].(name := if |name| <= 32 then name else name[..32])])
    else r
  }

  predicate Respawns(r: Room, id: PlayerId) {
    id in r.players && !r.players[id].alive && !r.matchOver && r.players[id].respawnMs == 0
  }

  function ApplyRespawn(r: Room, id: PlayerId): Room {
    if Respawns(r, id) then
      var p := r.players[id];
      r.(players := r.players[id := p.(alive := true, hp := FULL_HP, pos := Grid(id), moveX := 0, moveY := 0)])
    else r
  }

  // ---------- ticks ----------

  /** Whole seconds out of the accumulator, one by one, while there is match time left. */
  function CountDown(accumMs: nat, timeLeft: nat): (nat, nat)
    decreases timeLeft
  {
    if accumMs >= 1000 && timeLeft > 0 then CountDown(accumMs - 1000, timeLeft - 1) else (accumMs, timeLeft)
  }

  function AdvanceClock(r: Room): Room {
    var ticked := r.(serverTick := (r.serverTick + 1) % TICK_LIMIT);
    if r.matchOver then ticked
    else
      var (accum, left) := CountDown(r.accumMs + r.intervalMs, r.timeLeft);
      ticked.(accumMs := accum, timeLeft := left, matchOver := left == 0)
  }

  function Recover(p: Player, dtMs: nat): Player {
    if p.alive then p else p.(respawnMs := if p.respawnMs > dtMs then p.respawnMs - dtMs else 0)
  }

  /** The sine and cosine of a yaw given in hundredths of a degree. */
  type Trig = int -> (real, real)

  ghost predicate IsTrig(trig: Trig) {
    forall yaw :: var (s, c) := trig(yaw); s * s + c * c == 1.0
  }

  /** Where the player's stick pushes him in dt seconds. */
  function Drift(p: Player, dt: real, trig: Trig): Vec {
    var (s, c) := trig(p.yaw);
    var nx, nz := p.moveX as real / 127.0, p.moveY as real / 127.0;
    Vec((s * nz + c * nx) * MOVE_SPEED * dt, 0.0, (c * nz + -s * nx) * MOVE_SPEED * dt)
  }

  function Seconds(ms: nat): real {
    ms as real / 1000.0
  }

  function Simulated(r: Room, p: Player, trig: Trig): Player {
    if p.alive && !r.matchOver && !p.posAuthoritative then p.(pos := Plus(p.pos, Drift(p, Seconds(r.intervalMs), trig)))
    else p
  }

  function Tick(r: Room, trig: Trig): Room {
    var c := AdvanceClock(r);
    c.(players := map id | id in c.players :: Simulated(c, Recover(c.players[id], c.intervalMs), trig))
  }

  // ---------- what a snapshot tells ----------

  datatype PlayerInfo = PlayerInfo(
    id: PlayerId, pos: Vec, yaw: int, pitch: int, hp: nat, dead: bool, lastSeq: nat, weapon: nat,
    kills: nat, deaths: nat)

  function InfoOf(p: Player): PlayerInfo {
    PlayerInfo(p.id, p.pos, p.yaw, p.pitch, p.hp, !p.alive, p.lastSeq, p.weapon, p.kills, p.deaths)
  }

  /** order names everybody in the table once. */
  predicate Enumerates(order: seq<PlayerId>, players: map<PlayerId, Player>) {
    && (forall id :: id in order ==> id in players) && (forall id :: id in players ==> id in order)
    && forall i, j :: 0 <= i < j < |order| ==> order[i] != order[j]
  }

  function Infos(order: seq<PlayerId>, players: map<PlayerId, Player>): seq<PlayerInfo>
    requires forall id :: id in order ==> id in players
  {
    seq(|order|, i requires 0 <= i < |order| => assert order[i] in order; InfoOf(players[order[i]]))
  }

  // ---------- one event of a room ----------

  datatype Event =
    | Join(peer: Peer, id: PlayerId)
    | Leave(id: PlayerId)
    | Refresh(id: PlayerId, peer: Peer)
    | Move(id: PlayerId, input: Input, dist: real)
    | Fire(id: PlayerId, shot: Shot)
    | Weapon(id: PlayerId, weapon: nat)
    | Profile(id: PlayerId, name: seq<byte>)
    | Respawn(id: PlayerId)
    | Ticked(trig: Trig)

  /** The oracle values are right. */
  predicate Possible(r: Room, e: Event) {
    match e
    case Move(id, input, dist) => id in r.players && input.hasPos ==> IsNorm(dist, Minus(input.pos, r.players[id].pos))
    case Fire(id, shot) => Aimed(r, id, shot)
    case _ => true
  }

  function Step(r: Room, e: Event): Room
    requires Possible(r, e)
  {
    match e
    case Join(peer, id) => AddPlayer(r, peer, id)
    case Leave(id) => RemovePlayer(r, id)
    case Refresh(id, peer) => SetPeer(r, id, peer)
    case Move(id, input, dist) => ApplyInput(r, id, input, dist)
    case Fire(id, shot) => ApplyFire(r, id, shot)
    case Weapon(id, weapon) => ApplyWeapon(r, id, weapon)
    case Profile(id, name) => ApplyProfile(r, id, name)
    case Respawn(id) => ApplyRespawn(r, id)
    case Ticked(trig) => Tick(r, trig)
  }
}
