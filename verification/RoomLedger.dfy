/** What is true of a game room over all its runs, told by a ledger kept beside it: every hit, kill, death, respawn
    and accepted input of every player, and every tick. */
module RoomLedger {
  import opened Bytes
  import opened RoomSpec
  import opened Vectors

  /** The account of one player. plain counts accepted inputs without a position. */
  datatype Account = Account(
    hits: nat, respawns: nat, kills: nat, deaths: nat, accepted: nat, plain: nat, spawn: Vec)

  datatype Ledger = Ledger(
    room: Room, ticks: nat, accounts: map<PlayerId, Account>,
    goneKills: nat, goneDeaths: nat)     // of players who left

  function Opened(room: Room): Ledger {
    Ledger(room, 0, map[], 0, 0)
  }

  function BookShot(accounts: map<PlayerId, Account>, id: PlayerId, target: PlayerId, kill: bool)
    : map<PlayerId, Account>
    requires id in accounts && target in accounts
  {
    var a := accounts[target];
    var hit := accounts[target := a.(hits := a.hits + 1, deaths := a.deaths + if kill then 1 else 0)];
    if kill then hit[id := hit[id].(kills := hit[id].kills + 1)] else hit
  }

  function Book(accounts: map<PlayerId, Account>, r: Room, e: Event): map<PlayerId, Account>
    requires accounts.Keys == r.players.Keys && Possible(r, e)
  {
    match e
    case Join(peer, id) =>
      if Admits(r, id) then accounts[id := Account(0, 0, 0, 0, 0, 0, Grid(|r.players|))] else accounts
    case Leave(id) => accounts - {id}
    case Move(id, input, _) =>
      if Accepts(r, id, input) then
        var a := accounts[id];
        accounts[id := a.(accepted := a.accepted + 1, plain := a.plain + if input.hasPos then 0 else 1)]
      else accounts
    case Fire(id, shot) =>
      if Lands(r, id, shot) then BookShot(accounts, id, shot.target.value, Kills(r, id, shot)) else accounts
    case Respawn(id) =>
      if Respawns(r, id) then accounts[id := accounts[id].(respawns := accounts[id].respawns + 1)] else accounts
    case _ => accounts
  }

  function LedgerStep(l: Ledger, e: Event): Ledger
    requires l.accounts.Keys == l.room.players.Keys && Possible(l.room, e)
  {
    var leaver := e.Leave? && e.id in l.accounts;
    Ledger(Step(l.room, e),
           if e.Ticked? then l.ticks + 1 else l.ticks,
           Book(l.accounts, l.room, e),
           l.goneKills + if leaver then l.accounts[e.id].kills else 0,
           l.goneDeaths + if leaver then l.accounts[e.id].deaths else 0)
  }

  // ---------- invariants ----------

  predicate KeysInv(l: Ledger) {
    && l.accounts.Keys == l.room.players.Keys
    && forall id :: id in l.room.players ==> l.room.players[id].id == id
  }

  /** Health and counters of one player against his account. */
  predicate HealthInv(p: Player, a: Account) {
    && p.hp == 100 + 100 * a.respawns - 25 * a.hits
    && p.hp <= FULL_HP
    && (p.alive <==> p.hp > 0)
    && a.deaths == a.respawns + (if p.alive then 0 else 1)
    && p.deaths == a.deaths % COUNTER_LIMIT
    && p.kills == a.kills % COUNTER_LIMIT
  }

  /** Five seconds of match for every death but the time still to wait. */
  predicate DeathInv(p: Player, a: Account, elapsedMs: nat) {
    && p.respawnMs <= RESPAWN_DELAY_MS
    && RESPAWN_DELAY_MS * a.deaths <= elapsedMs + (if p.alive then 0 else p.respawnMs)
    && a.deaths <= 60
  }

  function Reach(accepted: nat): real {
    FIRST_STEP + MAX_STEP * (accepted - 1) as real
  }

  /** A player who always sent positions and never respawned is within reach of his spawn. */
  predicate MoveInv(p: Player, a: Account) {
    && (p.lastSeq == 0 <==> a.accepted == 0) && a.accepted <= p.lastSeq
    && (a.plain == 0 && a.respawns == 0 ==>
          if a.accepted == 0 then p.pos == a.spawn && p.moveX == 0 && p.moveY == 0
          else p.posAuthoritative && Norm2(Minus(p.pos, a.spawn)) <= Reach(a.accepted) * Reach(a.accepted))
  }

  predicate PlayerInv(p: Player, a: Account, elapsedMs: nat) {
    HealthInv(p, a) && DeathInv(p, a, elapsedMs) && MoveInv(p, a)
  }

  function Elapsed(l: Ledger): nat {
    l.ticks * l.room.intervalMs
  }

  predicate ClockInv(l: Ledger) {
    && l.room.serverTick == l.ticks % TICK_LIMIT
    && (l.room.matchOver <==> Elapsed(l) >= 1000 * MATCH_SECONDS)
    && (l.room.matchOver ==> l.room.timeLeft == 0)
    && (!l.room.matchOver ==>
          l.room.timeLeft == MATCH_SECONDS - Elapsed(l) / 1000 && l.room.accumMs == Elapsed(l) % 1000)
  }

  predicate PlayersInv(l: Ledger)
    requires KeysInv(l)
  {
    forall id :: id in l.room.players ==> PlayerInv(l.room.players[id], l.accounts[id], Elapsed(l))
  }

  // ---------- totals over the roster ----------

  ghost function Total<T>(m: map<PlayerId, T>, count: T -> nat): nat
    decreases |m|
  {
    if m == map[] then 0
    else
      var id :| id in m;
      assert (m - {id}).Keys == m.Keys - {id};
      count(m[id]) + Total(m - {id}, count)
  }

  lemma {:induction false} TotalWithout<T>(m: map<PlayerId, T>, count: T -> nat, id: PlayerId)
    requires id in m
    ensures Total(m, count) == count(m[id]) + Total(m - {id}, count)
    decreases |m|
  {
    var k :| k in m && Total(m, count) == count(m[k]) + Total(m - {k}, count);
    if k != id {
      assert (m - {k}).Keys == m.Keys - {k} && (m - {id}).Keys == m.Keys - {id};
      TotalWithout(m - {k}, count, id);
      TotalWithout(m - {id}, count, k);
      assert m - {k} - {id} == m - {id} - {k};
    }
  }

  lemma TotalPut(m: map<PlayerId, Account>, count: Account -> nat, id: PlayerId, a: Account)
    ensures Total(m[id := a], count) == Total(m, count) + count(a) - if id in m then count(m[id]) else 0
  {
    TotalWithout(m[id := a], count, id);
    assert m[id := a] - {id} == m - {id};
    if id in m {
      TotalWithout(m, count, id);
    } else {
      assert m - {id} == m;
    }
  }

  const KILLS: Account -> nat := (a: Account) => a.kills
  const DEATHS: Account -> nat := (a: Account) => a.deaths
  const KILL_COUNTER: Player -> nat := (p: Player) => p.kills
  const DEATH_COUNTER: Player -> nat := (p: Player) => p.deaths

  /** Every death is somebody's kill, over those present and those who left. */
  ghost predicate ScoreInv(l: Ledger) {
    l.goneKills + Total(l.accounts, KILLS) == l.goneDeaths + Total(l.accounts, DEATHS)
  }

  ghost predicate Inv(l: Ledger) {
    KeysInv(l) && PlayersInv(l) && ClockInv(l) && ScoreInv(l)
  }

  // ---------- the clock ----------

  lemma {:induction false} CountDownExact(accumMs: nat, timeLeft: nat)
    ensures var (a, t) := CountDown(accumMs, timeLeft);
            && t == (if accumMs / 1000 >= timeLeft then 0 else timeLeft - accumMs / 1000)
            && (t > 0 ==> a == accumMs % 1000)
    decreases timeLeft
  {
    if accumMs >= 1000 && timeLeft > 0 {
      CountDownExact(accumMs - 1000, timeLeft - 1);
    }
  }

  lemma ClockAdvances(r: Room, ticks: nat)
    requires ClockInv(Ledger(r, ticks, map[], 0, 0))
    ensures ClockInv(Ledger(AdvanceClock(r), ticks + 1, map[], 0, 0))
  {
    var e := ticks * r.intervalMs;
    assert (ticks + 1) * r.intervalMs == e + r.intervalMs;
    CountDownExact(r.accumMs + r.intervalMs, r.timeLeft);
    NextTick(ticks);
  }

  lemma NextTick(ticks: nat)
    ensures (ticks % TICK_LIMIT + 1) % TICK_LIMIT == (ticks + 1) % TICK_LIMIT
  {
  }

  // ---------- movement ----------

  /** A step takes a player at most maxStep away, whatever position is asked for. */
  lemma StepIsBounded(pos: Vec, target: Vec, maxStep: real, dist: real)
    requires IsNorm(dist, Minus(target, pos)) && maxStep > 0.0001
    ensures Norm2(Minus(StepTowards(pos, target, maxStep, dist), pos)) <= maxStep * maxStep
  {
  }

  /** Turning the stick by the yaw keeps its length: a drift is as long as the stick and the time say. */
  lemma DriftLength(p: Player, dt: real, trig: Trig)
    requires IsTrig(trig)
    ensures var nx, nz := p.moveX as real / 127.0, p.moveY as real / 127.0;
            Norm2(Drift(p, dt, trig)) == (nx * nx + nz * nz) * (MOVE_SPEED * dt) * (MOVE_SPEED * dt)
  {
  }

  /** One tick moves a player exactly as far as his stick and the tick's length say, in whatever direction he looks,
      and only if he is alive, steers by stick, and the match goes on. */
  lemma TickMoves(r: Room, id: PlayerId, trig: Trig)
    requires IsTrig(trig) && id in r.players
    ensures var t, p := Tick(r, trig), r.players[id];
            && id in t.players
            && var nx, nz, k := p.moveX as real / 127.0, p.moveY as real / 127.0, MOVE_SPEED * Seconds(r.intervalMs);
               Norm2(Minus(t.players[id].pos, p.pos)) ==
               if p.alive && !t.matchOver && !p.posAuthoritative then (nx * nx + nz * nz) * k * k else 0.0
  {
  }

  // ---------- what each event does to one player ----------

  lemma InputKeeps(p: Player, a: Account, input: Input, dist: real, elapsedMs: nat)
    requires PlayerInv(p, a, elapsedMs) && input.seqNo > p.lastSeq
    requires input.hasPos ==> IsNorm(dist, Minus(input.pos, p.pos))
    ensures PlayerInv(TakeInput(p, input, dist),
                      a.(accepted := a.accepted + 1, plain := a.plain + if input.hasPos then 0 else 1), elapsedMs)
  {
    hide Norm2, StepTowards;
    if input.hasPos && a.plain == 0 && a.respawns == 0 {
      var maxStep := if p.lastSeq == 0 then FIRST_STEP else MAX_STEP;
      var q := StepTowards(p.pos, input.pos, maxStep, dist);
      StepIsBounded(p.pos, input.pos, maxStep, dist);
      if a.accepted == 0 {
      } else {
        Triangle(Minus(p.pos, a.spawn), Minus(q, p.pos), Reach(a.accepted), MAX_STEP);
      }
    }
  }

  /** A hit on a living player before the end of the match. */
  lemma WoundKeeps(p: Player, a: Account, elapsedMs: nat)
    requires PlayerInv(p, a, elapsedMs) && p.alive && elapsedMs < 1000 * MATCH_SECONDS
    ensures PlayerInv(Wounded(p),
                      a.(hits := a.hits + 1, deaths := a.deaths + if p.hp <= FIRE_DAMAGE then 1 else 0), elapsedMs)
    ensures Wounded(p).hp == p.hp - FIRE_DAMAGE
  {
  }

  lemma KillKeeps(p: Player, a: Account, elapsedMs: nat)
    requires PlayerInv(p, a, elapsedMs)
    ensures PlayerInv(p.(kills := (p.kills + 1) % COUNTER_LIMIT), a.(kills := a.kills + 1), elapsedMs)
  {
  }

  lemma TickKeeps(r: Room, p: Player, a: Account, elapsedMs: nat, trig: Trig)
    requires PlayerInv(p, a, elapsedMs)
    ensures PlayerInv(Simulated(r, Recover(p, r.intervalMs), trig), a, elapsedMs + r.intervalMs)
  {
  }

  // ---------- what each event does to the ledger ----------

  lemma ClockStep(l: Ledger, e: Event)
    requires KeysInv(l) && ClockInv(l) && Possible(l.room, e)
    ensures ClockInv(LedgerStep(l, e))
  {
    if e.Ticked? {
      ClockAdvances(l.room, l.ticks);
    }
  }

  lemma FireTotals(accounts: map<PlayerId, Account>, id: PlayerId, target: PlayerId, kill: bool)
    requires id in accounts && target in accounts && id != target
    ensures var m, n := BookShot(accounts, id, target, kill), if kill then 1 else 0;
            Total(m, KILLS) == Total(accounts, KILLS) + n && Total(m, DEATHS) == Total(accounts, DEATHS) + n
  {
    hide Total;
    var a, c := accounts[target], accounts[id];
    var b := a.(hits := a.hits + 1, deaths := a.deaths + if kill then 1 else 0);
    var hit := accounts[target := b];
    var d := c.(kills := c.kills + 1);
    assert hit[id] == c;
    assert BookShot(accounts, id, target, kill) == if kill then hit[id := d] else hit;
    hide BookShot;
    PutTotals(accounts, target, b);
    PutTotals(hit, id, d);
  }

  lemma PutTotals(m: map<PlayerId, Account>, id: PlayerId, a: Account)
    ensures Total(m[id := a], KILLS) == Total(m, KILLS) + a.kills - if id in m then m[id].kills else 0
    ensures Total(m[id := a], DEATHS) == Total(m, DEATHS) + a.deaths - if id in m then m[id].deaths else 0
  {
    TotalPut(m, KILLS, id, a);
    TotalPut(m, DEATHS, id, a);
  }

  lemma TargetIsOther(r: Room, id: PlayerId, shot: Shot)
    requires Aimed(r, id, shot) && Lands(r, id, shot)
    ensures shot.target.value in r.players && shot.target.value != id && r.players[shot.target.value].alive
  {
  }

  lemma ScoreStep(l: Ledger, e: Event)
    requires KeysInv(l) && ScoreInv(l) && Possible(l.room, e)
    ensures ScoreInv(LedgerStep(l, e))
  {
    hide Total, Step, IsTarget, IsNorm;
    var m, r := l.accounts, l.room;
    match e {
      case Join(_, id) =>
        PutTotals(m, id, Account(0, 0, 0, 0, 0, 0, Grid(|r.players|)));
      case Leave(id) =>
        if id in m {
          TotalWithout(m, KILLS, id);
          TotalWithout(m, DEATHS, id);
        } else {
          assert m - {id} == m;
        }
      case Move(id, input, _) =>
        if Accepts(r, id, input) {
          PutTotals(m, id, Book(m, r, e)[id]);
        }
      case Fire(id, shot) =>
        if Lands(r, id, shot) {
          TargetIsOther(r, id, shot);
          FireTotals(m, id, shot.target.value, Kills(r, id, shot));
        }
      case Respawn(id) =>
        if Respawns(r, id) {
          PutTotals(m, id, Book(m, r, e)[id]);
        }
      case _ =>
    }
  }

  predicate RosterInv(l: Ledger) {
    KeysInv(l) && PlayersInv(l)
  }

  lemma JoinStep(l: Ledger, peer: Peer, id: PlayerId)
    requires RosterInv(l)
    ensures RosterInv(LedgerStep(l, Join(peer, id)))
  {
    if Admits(l.room, id) {
      NewPlayerKeeps(peer, id, |l.room.players|, Elapsed(l));
    }
    hide PlayerInv, NewPlayer;
  }

  lemma NewPlayerKeeps(peer: Peer, id: PlayerId, index: nat, elapsedMs: nat)
    ensures PlayerInv(NewPlayer(peer, id, index), Account(0, 0, 0, 0, 0, 0, Grid(index)), elapsedMs)
    ensures NewPlayer(peer, id, index).id == id
  {
  }

  lemma LeaveStep(l: Ledger, id: PlayerId)
    requires RosterInv(l)
    ensures RosterInv(LedgerStep(l, Leave(id)))
  {
  }

  lemma MoveStep(l: Ledger, id: PlayerId, input: Input, dist: real)
    requires RosterInv(l) && Possible(l.room, Move(id, input, dist))
    ensures RosterInv(LedgerStep(l, Move(id, input, dist)))
  {
    if Accepts(l.room, id, input) {
      InputKeeps(l.room.players[id], l.accounts[id], input, dist, Elapsed(l));
      TakeInputKeepsId(l.room.players[id], input, dist);
    }
    hide PlayerInv, TakeInput, IsNorm;
  }

  lemma TakeInputKeepsId(p: Player, input: Input, dist: real)
    ensures TakeInput(p, input, dist).id == p.id
  {
  }

  lemma RespawnStep(l: Ledger, id: PlayerId)
    requires RosterInv(l)
    ensures RosterInv(LedgerStep(l, Respawn(id)))
  {
  }

  lemma FireStep(l: Ledger, id: PlayerId, shot: Shot)
    requires RosterInv(l) && ClockInv(l) && Possible(l.room, Fire(id, shot))
    ensures RosterInv(LedgerStep(l, Fire(id, shot)))
  {
    if Lands(l.room, id, shot) {
      var t := shot.target.value;
      TargetIsOther(l.room, id, shot);
      WoundKeeps(l.room.players[t], l.accounts[t], Elapsed(l));
      KillKeeps(l.room.players[id], l.accounts[id], Elapsed(l));
    }
    hide PlayerInv, IsTarget, IsNorm;
  }

  lemma TickStep(l: Ledger, trig: Trig)
    requires RosterInv(l)
    ensures RosterInv(LedgerStep(l, Ticked(trig)))
  {
    hide PlayerInv, Simulated, Recover, CountDown;
    var c, m := AdvanceClock(l.room), LedgerStep(l, Ticked(trig));
    forall id | id in m.room.players
      ensures m.room.players[id].id == id && PlayerInv(m.room.players[id], m.accounts[id], Elapsed(m))
    {
      TickKeeps(c, l.room.players[id], l.accounts[id], Elapsed(l), trig);
      TickKeepsId(c, l.room.players[id], trig);
    }
  }

  lemma TickKeepsId(r: Room, p: Player, trig: Trig)
    ensures Simulated(r, Recover(p, r.intervalMs), trig).id == p.id
  {
  }

  lemma CommandStep(l: Ledger, e: Event)
    requires RosterInv(l) && (e.Refresh? || e.Weapon? || e.Profile?)
    ensures RosterInv(LedgerStep(l, e))
  {
    hide Norm2;
  }

  lemma StepKeepsInv(l: Ledger, e: Event)
    requires Inv(l) && Possible(l.room, e)
    ensures Inv(LedgerStep(l, e))
  {
    ClockStep(l, e);
    ScoreStep(l, e);
    match e {
      case Join(peer, id) => JoinStep(l, peer, id);
      case Leave(id) => LeaveStep(l, id);
      case Move(id, input, dist) => MoveStep(l, id, input, dist);
      case Fire(id, shot) => FireStep(l, id, shot);
      case Respawn(id) => RespawnStep(l, id);
      case Ticked(trig) => TickStep(l, trig);
      case _ => CommandStep(l, e);
    }
  }

  /** What the invariant says of one player, in the room's own counters. */
  lemma PlayerFacts(l: Ledger, id: PlayerId)
    requires Inv(l) && id in l.room.players
    ensures id in l.accounts
    ensures var p, a := l.room.players[id], l.accounts[id];
            && p.hp == 100 + 100 * a.respawns - 25 * a.hits && p.hp <= 100
            && (p.alive <==> p.hp > 0)
            && a.deaths == a.respawns + (if p.alive then 0 else 1)
            && 5000 * a.deaths <= l.ticks * l.room.intervalMs + (if p.alive then 0 else p.respawnMs)
            && a.deaths <= 60 && p.deaths == a.deaths && p.kills == a.kills % COUNTER_LIMIT
  {
    AccountFacts(l.room.players[id], l.accounts[id], Elapsed(l));
  }

  lemma AccountFacts(p: Player, a: Account, elapsedMs: nat)
    requires PlayerInv(p, a, elapsedMs)
    ensures p.hp == 100 + 100 * a.respawns - 25 * a.hits && p.hp <= 100 && (p.alive <==> p.hp > 0)
    ensures a.deaths == a.respawns + (if p.alive then 0 else 1)
    ensures 5000 * a.deaths <= elapsedMs + (if p.alive then 0 else p.respawnMs)
    ensures a.deaths <= 60 && p.deaths == a.deaths && p.kills == a.kills % COUNTER_LIMIT
  {
  }

  // ---------- whole runs ----------

  ghost predicate PossibleRun(l: Ledger, es: seq<Event>)
    decreases |es|
  {
    l.accounts.Keys == l.room.players.Keys
    && (es == [] || (Possible(l.room, es[0]) && PossibleRun(LedgerStep(l, es[0]), es[1..])))
  }

  ghost function Run(l: Ledger, es: seq<Event>): Ledger
    requires PossibleRun(l, es)
    decreases |es|
  {
    if es == [] then l else Run(LedgerStep(l, es[0]), es[1..])
  }

  lemma {:induction false} RunKeepsInv(l: Ledger, es: seq<Event>)
    requires Inv(l) && PossibleRun(l, es)
    ensures Inv(Run(l, es)) && Run(l, es).room.intervalMs == l.room.intervalMs
    decreases |es|
  {
    if es != [] {
      StepKeepsInv(l, es[0]);
      RunKeepsInv(LedgerStep(l, es[0]), es[1..]);
    }
  }

  /** Everything above holds in every run of a new room. */
  lemma RunInv(room: Room, es: seq<Event>)
    requires room == NewRoom(room.id, room.intervalMs) && PossibleRun(Opened(room), es)
    ensures Inv(Run(Opened(room), es)) && Run(Opened(room), es).room.intervalMs == room.intervalMs
  {
    RunKeepsInv(Opened(room), es);
  }

  /** Health adds up: 100 for the start and each respawn, less 25 for each hit; a death for each respawn and one more
      for a player who is down; and the kills are his own. */
  lemma HealthAddsUp(room: Room, es: seq<Event>, id: PlayerId)
    requires room == NewRoom(room.id, room.intervalMs) && PossibleRun(Opened(room), es)
    requires id in Run(Opened(room), es).room.players
    ensures var l := Run(Opened(room), es);
            id in l.accounts &&
            var p, a := l.room.players[id], l.accounts[id];
            && p.hp == 100 + 100 * a.respawns - 25 * a.hits && p.hp <= 100
            && a.deaths == a.respawns + (if p.alive then 0 else 1)
            && (p.alive <==> p.hp > 0)
            && p.kills == a.kills % COUNTER_LIMIT
  {
    RunInv(room, es);
  }

  /** No kill counter of a player in the room has wrapped around. */
  predicate Unwrapped(accounts: map<PlayerId, Account>) {
    forall id :: id in accounts ==> accounts[id].kills < COUNTER_LIMIT
  }

  lemma {:induction false} DeathCountersSum(players: map<PlayerId, Player>, accounts: map<PlayerId, Account>)
    requires players.Keys == accounts.Keys && forall id :: id in players ==> players[id].deaths == accounts[id].deaths
    ensures Total(players, DEATH_COUNTER) == Total(accounts, DEATHS)
    decreases |players|
  {
    if players == map[] {
      assert accounts.Keys == {};
    } else {
      var id :| id in players;
      TotalWithout(players, DEATH_COUNTER, id);
      TotalWithout(accounts, DEATHS, id);
      assert (players - {id}).Keys == players.Keys - {id} && (accounts - {id}).Keys == accounts.Keys - {id};
      DeathCountersSum(players - {id}, accounts - {id});
    }
  }

  /** The 16-bit kill counters sum up to the accounts exactly as long as none has wrapped. */
  lemma {:induction false} KillCountersSum(players: map<PlayerId, Player>, accounts: map<PlayerId, Account>)
    requires players.Keys == accounts.Keys
    requires forall id :: id in players ==> players[id].kills == accounts[id].kills % COUNTER_LIMIT
    ensures Total(players, KILL_COUNTER) <= Total(accounts, KILLS)
    ensures Total(players, KILL_COUNTER) == Total(accounts, KILLS) <==> Unwrapped(accounts)
    decreases |players|
  {
    hide Total;
    if players == map[] {
      TotalNone(players, KILL_COUNTER);
      TotalNone(accounts, KILLS);
    } else {
      var id :| id in players;
      var ps, others := players - {id}, accounts - {id};
      assert ps.Keys == players.Keys - {id} && others.Keys == accounts.Keys - {id};
      KillCountersSum(ps, others);
      TotalWithout(players, KILL_COUNTER, id);
      TotalWithout(accounts, KILLS, id);
      CounterIsExact(accounts[id].kills);
      UnwrappedWithout(accounts, id);
    }
  }

  lemma UnwrappedWithout(accounts: map<PlayerId, Account>, id: PlayerId)
    requires id in accounts
    ensures Unwrapped(accounts) <==> accounts[id].kills < COUNTER_LIMIT && Unwrapped(accounts - {id})
  {
    assert forall j :: j in accounts && j != id ==> j in accounts - {id} && (accounts - {id})[j] == accounts[j];
  }

  lemma TotalNone<T>(m: map<PlayerId, T>, count: T -> nat)
    requires m.Keys == {}
    ensures Total(m, count) == 0
  {
  }

  lemma CounterIsExact(n: nat)
    ensures n % COUNTER_LIMIT <= n && (n % COUNTER_LIMIT == n <==> n < COUNTER_LIMIT)
  {
  }

  lemma ScoreFacts(l: Ledger)
    requires Inv(l)
    ensures var players := l.room.players;
            l.goneKills + Total(players, KILL_COUNTER) == l.goneDeaths + Total(players, DEATH_COUNTER) <==>
            Unwrapped(l.accounts)
  {
    forall id | id in l.room.players
      ensures l.room.players[id].kills == l.accounts[id].kills % COUNTER_LIMIT
      ensures l.room.players[id].deaths == l.accounts[id].deaths
    {
      PlayerFacts(l, id);
    }
    DeathCountersSum(l.room.players, l.accounts);
    KillCountersSum(l.room.players, l.accounts);
  }

  /** Every kill is a death: over the counters of those in the room and the accounts of those who left, the two add up
      to the same, if and only if nobody in the room has killed 65536 times. */
  lemma ScoreAddsUp(room: Room, es: seq<Event>)
    requires room == NewRoom(room.id, room.intervalMs) && PossibleRun(Opened(room), es)
    ensures var l := Run(Opened(room), es);
            var players := l.room.players;
            l.goneKills + Total(players, KILL_COUNTER) == l.goneDeaths + Total(players, DEATH_COUNTER) <==>
            Unwrapped(l.accounts)
  {
    RunInv(room, es);
    ScoreFacts(Run(Opened(room), es));
  }

  /** The remaining time is 300 s less the whole seconds ticked, and the match is over from the tick that reaches
      300 s on; the accumulator loop loses nothing. */
  lemma MatchClock(room: Room, es: seq<Event>)
    requires room == NewRoom(room.id, room.intervalMs) && PossibleRun(Opened(room), es)
    ensures var l := Run(Opened(room), es);
            var seconds := l.ticks * room.intervalMs / 1000;
            && l.room.serverTick == l.ticks % TICK_LIMIT
            && l.room.timeLeft == (if seconds < 300 then 300 - seconds else 0)
            && (l.room.matchOver <==> l.ticks * room.intervalMs >= 300000)
  {
    RunInv(room, es);
  }

  /** Nobody dies more often than every five seconds of play: at most 60 times, so the 16-bit counter is exact. */
  lemma DeathBound(room: Room, es: seq<Event>, id: PlayerId)
    requires room == NewRoom(room.id, room.intervalMs) && PossibleRun(Opened(room), es)
    requires id in Run(Opened(room), es).room.players
    ensures var l := Run(Opened(room), es);
            id in l.accounts &&
            var p, a := l.room.players[id], l.accounts[id];
            && 5000 * a.deaths <= l.ticks * room.intervalMs + (if p.alive then 0 else p.respawnMs)
            && a.deaths <= 60 && p.deaths == a.deaths
  {
    RunInv(room, es);
    PlayerFacts(Run(Opened(room), es), id);
  }

  /** The player has sent positions and nothing else, and has not respawned. */
  predicate AlwaysPositioned(a: Account) {
    a.plain == 0 && a.respawns == 0 && a.accepted >= 1
  }

  /** A player who only ever sends positions is, after n accepted inputs and no respawn, within 100 + 3 (n - 1) of
      his spawn, whatever stale or repeated inputs and ticks come between. */
  lemma MovementBound(room: Room, es: seq<Event>, id: PlayerId)
    requires room == NewRoom(room.id, room.intervalMs) && PossibleRun(Opened(room), es)
    requires id in Run(Opened(room), es).room.players
    requires var l := Run(Opened(room), es);
             id in l.accounts && AlwaysPositioned(l.accounts[id])
    ensures var l := Run(Opened(room), es);
            && l.accounts[id].accepted <= l.room.players[id].lastSeq
            && forall dist :: IsNorm(dist, Minus(l.room.players[id].pos, l.accounts[id].spawn)) ==>
                 dist <= 100.0 + 3.0 * (l.accounts[id].accepted - 1) as real
  {
    RunInv(room, es);
    WithinReach(Run(Opened(room), es), id);
  }

  lemma WithinReach(l: Ledger, id: PlayerId)
    requires Inv(l) && id in l.room.players
    requires id in l.accounts && AlwaysPositioned(l.accounts[id])
    ensures forall dist :: IsNorm(dist, Minus(l.room.players[id].pos, l.accounts[id].spawn)) ==>
              dist <= 100.0 + 3.0 * (l.accounts[id].accepted - 1) as real
    ensures l.accounts[id].accepted <= l.room.players[id].lastSeq
  {
    var p, a := l.room.players[id], l.accounts[id];
    forall dist | IsNorm(dist, Minus(p.pos, a.spawn))
      ensures dist <= Reach(a.accepted)
    {
      RootCompare(dist, Minus(p.pos, a.spawn), Reach(a.accepted));
    }
  }

  /** The Hit event says -25 and so much is taken; the Kill event comes exactly when that leaves nothing. */
  lemma HitTakesTwentyFive(l: Ledger, id: PlayerId, shot: Shot)
    requires Inv(l) && Aimed(l.room, id, shot) && Lands(l.room, id, shot)
    ensures var t, m := shot.target.value, ApplyFire(l.room, id, shot);
            && t in l.room.players && t in m.players && t != id
            && m.players[t].hp == l.room.players[t].hp - 25
            && (Kills(l.room, id, shot) <==> m.players[t].hp == 0)
            && (m.players[t].alive <==> m.players[t].hp > 0)
  {
    TargetIsOther(l.room, id, shot);
    WoundKeeps(l.room.players[shot.target.value], l.accounts[shot.target.value], Elapsed(l));
    hide PlayersInv, ClockInv, ScoreInv, IsTarget;
  }

  // ---------- what players carry ----------

  /** A weapon there is, and a name of at most 32 bytes if the id is a 32-bit one. */
  predicate Presentable(p: Player) {
    p.weapon <= 5 && p.name != [] && (p.id < ID_LIMIT ==> |p.name| <= 32)
  }

  function Pow10(k: nat): nat {
    if k == 0 then 1 else 10 * Pow10(k - 1)
  }

  lemma {:induction false} DecimalLength(n: nat, k: nat)
    requires n < Pow10(k) && k > 0
    ensures |Decimal(n)| <= k
  {
    if n >= 10 {
      DecimalLength(n / 10, k - 1);
    }
  }

  lemma FirstNameFits(id: PlayerId)
    requires id < ID_LIMIT
    ensures |NAME_PREFIX + Decimal(id)| <= 16
  {
    assert Pow10(5) == 100000 && Pow10(10) == Pow10(5) * 100000;
    DecimalLength(id, 10);
  }

  predicate AllPresentable(players: map<PlayerId, Player>) {
    forall id :: id in players ==> Presentable(players[id])
  }

  predicate SameGear(p: Player, q: Player) {
    q.id == p.id && q.weapon == p.weapon && q.name == p.name
  }

  predicate AllSameGear(p: map<PlayerId, Player>, q: map<PlayerId, Player>) {
    q.Keys == p.Keys && forall id :: id in p ==> SameGear(p[id], q[id])
  }

  lemma OthersKeepGear(r: Room, e: Event)
    requires Possible(r, e) && !e.Join? && !e.Leave? && !e.Weapon? && !e.Profile?
    ensures AllSameGear(r.players, Step(r, e).players)
  {
    hide Norm2, IsTarget, IsNorm;
    if e.Fire? && Lands(r, e.id, e.shot) {
      TargetIsOther(r, e.id, e.shot);
    }
  }

  lemma StepKeepsPresentable(r: Room, e: Event)
    requires AllPresentable(r.players) && Possible(r, e)
    ensures AllPresentable(Step(r, e).players)
  {
    match e {
      case Join(_, id) =>
        if id < ID_LIMIT {
          FirstNameFits(id);
        }
      case Leave(_) =>
      case Weapon(_, _) =>
      case Profile(_, _) =>
      case _ =>
        OthersKeepGear(r, e);
        hide Step;
    }
  }

  /** Whatever weapons and names clients ask for, in every run everybody carries one of the six weapons and, ids being
      32-bit numbers, a name that is not empty and not longer than 32 bytes. */
  lemma {:induction false} PlayersArePresentable(l: Ledger, es: seq<Event>)
    requires AllPresentable(l.room.players) && PossibleRun(l, es)
    ensures AllPresentable(Run(l, es).room.players)
    decreases |es|
  {
    if es != [] {
      StepKeepsPresentable(l.room, es[0]);
      PlayersArePresentable(LedgerStep(l, es[0]), es[1..]);
    }
  }

  // ---------- after the match ----------

  /** What a finished match no longer changes. */
  predicate SameScore(p: Player, q: Player) {
    p.pos == q.pos && p.hp == q.hp && p.alive == q.alive && p.kills == q.kills && p.deaths == q.deaths
  }

  /** Once the match is over nothing moves, hurts, revives or scores any player who stays. */
  lemma {:induction false} FrozenAfterMatch(l: Ledger, es: seq<Event>, id: PlayerId)
    requires l.room.matchOver && id in l.room.players && PossibleRun(l, es) && Leave(id) !in es
    ensures var r := Run(l, es).room;
            r.matchOver && id in r.players && SameScore(l.room.players[id], r.players[id])
    decreases |es|
  {
    if es != [] {
      FrozenAfterMatch(LedgerStep(l, es[0]), es[1..], id);
    }
  }
}
