/**
  The rules of one battle room, src/game/tick_engine.cpp and src/game/battle_player.h: what a command
  does to the players of its room. Positions are reals; `sqrt` stands for std::sqrt, and nothing below
  but `MoveStep` depends on what it returns. Damage ratios are exact fractions, truncated.
 */
module Battle {
  import opened Bytes

  type SkillId = n: int | -0x8000_0000 <= n < 0x8000_0000

  datatype Player = Player(
    x: real, y: real, dirX: real, dirY: real, speed: real,
    hp: int, atk: int, def: int, alive: bool,
    cooldowns: map<SkillId, int>,
    kills: int, deaths: int, dealt: int, taken: int)

  type Players = map<PlayerId, Player>

  datatype Kind = Move | StopMove | Attack | Skill | Leave

  datatype Command = Command(
    kind: Kind, player: PlayerId, sequence: u64,
    dirX: real, dirY: real, target: PlayerId, skill: SkillId)

  datatype SkillDef = SkillDef(cooldown: int, num: nat, den: nat, range: real, aoe: bool)

  const NUM_SKILLS := 3
  const TICK_MS := 50

  function SkillOf(id: SkillId): (s: SkillDef)
    requires 1 <= id <= NUM_SKILLS
    ensures s.den > 0
  {
    if id == 1 then SkillDef(3000, 3, 2, 50.0, false)
    else if id == 2 then SkillDef(5000, 4, 5, 80.0, true)
    else SkillDef(8000, 1, 2, 200.0, false)
  }

  /** C++ integer division by two rounds toward zero. */
  function Half(n: int): int { if n >= 0 then n / 2 else -(-n / 2) }

  function CalcDamage(atk: int, def: int): (d: int)
    ensures d >= 1
  {
    Max(1, atk - Half(def))
  }

  /** The shared players and the last sequence number accepted from each of them. */
  datatype Arena = Arena(players: Players, lastSeq: map<PlayerId, u64>)

  function Length(sqrt: real -> real, dx: real, dy: real): real {
    sqrt(dx * dx + dy * dy)
  }

  function Distance(sqrt: real -> real, p: Player, q: Player): real {
    Length(sqrt, q.x - p.x, q.y - p.y)
  }

  /** Damage is booked on the target, then on the attacker; the two may be the same player. */
  function Hit(players: Players, attacker: PlayerId, target: PlayerId, dmg: int): (r: Players)
    requires attacker in players && target in players
    ensures r.Keys == players.Keys
  {
    var a := players[target := Wounded(players[target], dmg)];
    var b := a[attacker := Credited(a[attacker], dmg)];
    if b[target].hp > 0 then b
    else
      var c := b[target := Killed(b[target])];
      c[attacker := Scored(c[attacker])]
  }

  function Wounded(p: Player, dmg: int): Player { p.(hp := p.hp - dmg, taken := p.taken + dmg) }
  function Credited(p: Player, dmg: int): Player { p.(dealt := p.dealt + dmg) }
  function Killed(p: Player): Player { p.(hp := 0, alive := false, deaths := p.deaths + 1) }
  function Scored(p: Player): Player { p.(kills := p.kills + 1) }

  function ProcessAttack(sqrt: real -> real, players: Players, attacker: PlayerId, target: PlayerId): (r: Players)
    requires attacker in players && target in players
    ensures r.Keys == players.Keys
  {
    var a, t := players[attacker], players[target];
    if !a.alive || !t.alive then players
    else if Distance(sqrt, a, t) > 60.0 then players
    else Hit(players, attacker, target, CalcDamage(a.atk, t.def))
  }

  predicate OnCooldown(p: Player, skill: SkillId) {
    skill in p.cooldowns && p.cooldowns[skill] > 0
  }

  /** A cast is accepted if the caster lives, the skill exists and it is not on cooldown. */
  predicate CanCast(p: Player, skill: SkillId) {
    p.alive && 1 <= skill <= NUM_SKILLS && !OnCooldown(p, skill)
  }

  function SkillDamage(caster: Player, target: Player, skill: SkillId): (d: int)
    requires 1 <= skill <= NUM_SKILLS
    ensures d >= 0
  {
    CalcDamage(caster.atk, target.def) * SkillOf(skill).num / SkillOf(skill).den
  }

  function ProcessSkill(sqrt: real -> real, players: Players, caster: PlayerId, cmd: Command): (r: Players)
    requires caster in players
    ensures r.Keys == players.Keys
  {
    var p := players[caster];
    if !CanCast(p, cmd.skill) then players
    else
      var skill := SkillOf(cmd.skill);
      var cast := players[caster := p.(cooldowns := p.cooldowns[cmd.skill := skill.cooldown])];
      if cmd.target !in cast || !cast[cmd.target].alive then cast
      else if !skill.aoe && Distance(sqrt, cast[caster], cast[cmd.target]) > skill.range then cast
      else Hit(cast, caster, cmd.target, SkillDamage(cast[caster], cast[cmd.target], cmd.skill))
  }

  function ProcessMove(sqrt: real -> real, p: Player, dirX: real, dirY: real): Player {
    var len := Length(sqrt, dirX, dirY);
    if len < 0.0001 then p
    else
      var ndx, ndy := dirX / len, dirY / len;
      var dist := p.speed * 0.05;
      p.(x := p.x + ndx * dist, y := p.y + ndy * dist, dirX := ndx, dirY := ndy)
  }

  /** The switch of processTick, for a command of a living player of the room. */
  function Execute(sqrt: real -> real, players: Players, cmd: Command): (r: Players)
    requires cmd.player in players
    ensures r.Keys == players.Keys
  {
    var p := players[cmd.player];
    match cmd.kind
    case Move => players[cmd.player := ProcessMove(sqrt, p, cmd.dirX, cmd.dirY)]
    case StopMove => players[cmd.player := p.(dirX := 0.0, dirY := 0.0)]
    case Attack => if cmd.target in players then ProcessAttack(sqrt, players, cmd.player, cmd.target) else players
    case Skill => ProcessSkill(sqrt, players, cmd.player, cmd)
    case Leave => players[cmd.player := p.(alive := false)]
  }

  predicate Duplicate(lastSeq: map<PlayerId, u64>, cmd: Command) {
    cmd.player in lastSeq && cmd.sequence <= lastSeq[cmd.player]
  }

  predicate Accepts(a: Arena, cmd: Command) {
    cmd.player in a.players && a.players[cmd.player].alive && !Duplicate(a.lastSeq, cmd)
  }

  function Apply(sqrt: real -> real, a: Arena, cmd: Command): (r: Arena)
    ensures r.players.Keys == a.players.Keys
  {
    if Accepts(a, cmd)
    then Arena(Execute(sqrt, a.players, cmd), a.lastSeq[cmd.player := cmd.sequence])
    else a
  }

  function ApplyAll(sqrt: real -> real, a: Arena, cmds: seq<Command>): (r: Arena)
    ensures r.players.Keys == a.players.Keys
    decreases |cmds|
  {
    if cmds == [] then a else ApplyAll(sqrt, Apply(sqrt, a, cmds[0]), cmds[1..])
  }

  /** Running cooldowns down: those that reach zero are erased. */
  function Elapsed(cooldowns: map<SkillId, int>, ms: int): map<SkillId, int> {
    map s | s in cooldowns && cooldowns[s] - ms > 0 :: cooldowns[s] - ms
  }

  function Cooled(players: Players, ms: int): (r: Players)
    ensures r.Keys == players.Keys
  {
    map p | p in players :: players[p].(cooldowns := Elapsed(players[p].cooldowns, ms))
  }

  /** One tick of a room: its commands in order, then the cooldowns. */
  function Tick(sqrt: real -> real, a: Arena, cmds: seq<Command>): (r: Arena)
    ensures r.players.Keys == a.players.Keys
  {
    var b := ApplyAll(sqrt, a, cmds);
    Arena(Cooled(b.players, TICK_MS), b.lastSeq)
  }

  /**
    Player `a` takes `dmg` hit points from `t`, who dies of it if it has no more; nobody else changes. Being attacker
    and being target are independent, so it also says what happens when a player hits itself.
   */
  ghost predicate Strikes(before: Players, after: Players, a: PlayerId, t: PlayerId, dmg: int) {
    && t in before && after.Keys == before.Keys
    && var killed := before[t].hp <= dmg;
       forall q :: q in before ==>
         var p := before[q];
         after[q] == p.(
           hp := if q != t then p.hp else if killed then 0 else p.hp - dmg,
           taken := if q == t then p.taken + dmg else p.taken,
           dealt := if q == a then p.dealt + dmg else p.dealt,
           alive := p.alive && !(q == t && killed),
           deaths := if q == t && killed then p.deaths + 1 else p.deaths,
           kills := if q == a && killed then p.kills + 1 else p.kills)
  }

  /** The bookings of a hit, one after the other, amount to one simultaneous change. */
  lemma HitOutcome(players: Players, a: PlayerId, t: PlayerId, dmg: int)
    requires a in players && t in players
    ensures Strikes(players, Hit(players, a, t, dmg), a, t, dmg)
  {
  }

  /** What a command never touches, and the one cooldown that an accepted cast sets. */
  lemma ExecuteShape(sqrt: real -> real, players: Players, cmd: Command)
    requires cmd.player in players
    ensures var r := Execute(sqrt, players, cmd);
            forall q :: q in players ==>
              && (r[q].alive ==> players[q].alive)
              && r[q].cooldowns == (if q == cmd.player && cmd.kind == Skill && CanCast(players[q], cmd.skill)
                                    then players[q].cooldowns[cmd.skill := SkillOf(cmd.skill).cooldown]
                                    else players[q].cooldowns)
  {
    hide Hit, SkillOf, ProcessMove, ProcessSkill, CanCast, CalcDamage, Distance;
    var p := players[cmd.player];
    match cmd.kind
    case Move => MoveShape(sqrt, p, cmd.dirX, cmd.dirY);
    case StopMove =>
    case Attack =>
      if cmd.target in players {
        HitShape(players, cmd.player, cmd.target, CalcDamage(p.atk, players[cmd.target].def));
      }
    case Skill => SkillShape(sqrt, players, cmd);
    case Leave =>
  }

  lemma HitShape(players: Players, a: PlayerId, t: PlayerId, dmg: int)
    requires a in players && t in players
    ensures var r := Hit(players, a, t, dmg);
            forall q :: q in players ==> (r[q].alive ==> players[q].alive) && r[q].cooldowns == players[q].cooldowns
  {
    hide Hit;
    HitOutcome(players, a, t, dmg);
  }

  lemma SkillShape(sqrt: real -> real, players: Players, cmd: Command)
    requires cmd.player in players
    ensures var r := ProcessSkill(sqrt, players, cmd.player, cmd);
            forall q :: q in players ==>
              && (r[q].alive ==> players[q].alive)
              && r[q].cooldowns == (if q == cmd.player && CanCast(players[q], cmd.skill)
                                    then players[q].cooldowns[cmd.skill := SkillOf(cmd.skill).cooldown]
                                    else players[q].cooldowns)
  {
    hide Hit, SkillDamage, SkillOf, Distance;
    var p := players[cmd.player];
    if CanCast(p, cmd.skill) {
      var cast := players[cmd.player := p.(cooldowns := p.cooldowns[cmd.skill := SkillOf(cmd.skill).cooldown])];
      if cmd.target in cast {
        HitShape(cast, cmd.player, cmd.target, SkillDamage(cast[cmd.player], cast[cmd.target], cmd.skill));
      }
    }
  }

  lemma MoveShape(sqrt: real -> real, p: Player, dirX: real, dirY: real)
    ensures var r := ProcessMove(sqrt, p, dirX, dirY);
            r == p.(x := r.x, y := r.y, dirX := r.dirX, dirY := r.dirY)
  {
  }

  /** A step of speed times 50 ms from `p` to `q` along a direction of length `len`; none for a direction too short. */
  ghost predicate Walked(p: Player, q: Player, dirX: real, dirY: real, len: real) {
    if len < 0.0001 then q == p
    else
      && q == p.(x := q.x, y := q.y, dirX := q.dirX, dirY := q.dirY)
      && (q.x - p.x) * len == p.speed * 0.05 * dirX && (q.y - p.y) * len == p.speed * 0.05 * dirY
      && q.dirX * len == dirX && q.dirY * len == dirY
  }

  /** A move walks along the given direction; with a true square root it covers speed times 50 ms and faces that way. */
  lemma MoveStep(sqrt: real -> real, p: Player, dirX: real, dirY: real)
    ensures var r, len := ProcessMove(sqrt, p, dirX, dirY), Length(sqrt, dirX, dirY);
            && Walked(p, r, dirX, dirY, len)
            && (len >= 0.0001 && p.speed == 200.0 ==>
                 (r.x - p.x) * len == 10.0 * dirX && (r.y - p.y) * len == 10.0 * dirY)
            && (len >= 0.0001 && len * len == dirX * dirX + dirY * dirY ==>
                 && r.dirX * r.dirX + r.dirY * r.dirY == 1.0
                 && (r.x - p.x) * (r.x - p.x) + (r.y - p.y) * (r.y - p.y) == (p.speed * 0.05) * (p.speed * 0.05))
  {
    var len := Length(sqrt, dirX, dirY);
    hide Length;
    if len >= 0.0001 {
      Along(p.x, dirX, len, p.speed * 0.05);
      Along(p.y, dirY, len, p.speed * 0.05);
      if len * len == dirX * dirX + dirY * dirY {
        Covered(p.x, p.y, dirX, dirY, len, p.speed * 0.05);
      }
    }
  }

  lemma Along(x: real, dir: real, len: real, dist: real)
    requires len != 0.0
    ensures dir / len * len == dir && (x + dir / len * dist - x) * len == dist * dir
  {
    var d := dir / len;
    assert d * len == dir;
    assert (d * dist) * len == dist * (d * len);
  }

  function Product(x: real, y: real): real { x * y }

  lemma Covered(x: real, y: real, dx: real, dy: real, len: real, dist: real)
    requires len > 0.0 && len * len == dx * dx + dy * dy
    ensures var a, b := dx / len, dy / len;
            var x', y' := x + a * dist, y + b * dist;
            a * a + b * b == 1.0 && (x' - x) * (x' - x) + (y' - y) * (y' - y) == dist * dist
  {
    var a, b := dx / len, dy / len;
    UnitSquare(a, b, dx, dy, len);
    Stretched(a, b, dist);
    assert x + a * dist - x == a * dist && y + b * dist - y == b * dist;
  }

  lemma UnitSquare(a: real, b: real, dx: real, dy: real, len: real)
    requires len > 0.0 && Product(len, len) == Product(dx, dx) + Product(dy, dy)
    requires Product(a, len) == dx && Product(b, len) == dy
    ensures Product(a, a) + Product(b, b) == 1.0
  {
    hide Product;
    Positive(len, len);
    Scaled(a, len);
    Scaled(b, len);
    Distribute(Product(a, a), Product(b, b), Product(len, len));
    Cancel(Product(a, a) + Product(b, b), Product(len, len));
  }

  lemma Stretched(a: real, b: real, dist: real)
    requires Product(a, a) + Product(b, b) == 1.0
    ensures Product(a * dist, a * dist) + Product(b * dist, b * dist) == Product(dist, dist)
  {
    assert a * dist == Product(a, dist) && b * dist == Product(b, dist);
    hide Product;
    Scaled(a, dist);
    Scaled(b, dist);
    Distribute(Product(a, a), Product(b, b), Product(dist, dist));
    Unit(Product(dist, dist));
  }

  lemma Positive(x: real, y: real)
    requires x > 0.0 && y > 0.0
    ensures Product(x, y) > 0.0
  {
  }

  lemma Scaled(a: real, len: real)
    ensures Product(Product(a, len), Product(a, len)) == Product(Product(a, a), Product(len, len))
  {
  }

  lemma Distribute(x: real, y: real, w: real)
    ensures Product(x + y, w) == Product(x, w) + Product(y, w)
  {
  }

  lemma Unit(w: real)
    ensures Product(1.0, w) == w
  {
  }

  lemma Cancel(x: real, w: real)
    requires Product(x, w) == w && w > 0.0
    ensures x == 1.0
  {
  }

  // ---------------------------------------------------------------- a battle as a run

  /**
    The steps of a room's life: one command, the end of a tick, disconnected players timing out, or another room
    with the same sequence numbers having accepted commands.
   */
  datatype Event = Do(cmd: Command) | EndTick | TimeOut(gone: set<PlayerId>) | Elsewhere(numbers: map<PlayerId, u64>)

  /** The higher number for each player. */
  function Newer(m: map<PlayerId, u64>, n: map<PlayerId, u64>): map<PlayerId, u64> {
    map p | p in m.Keys + n.Keys :: if p in m && (p !in n || n[p] <= m[p]) then m[p] else n[p]
  }

  function TimedOut(players: Players, gone: set<PlayerId>): (r: Players)
    ensures r.Keys == players.Keys
  {
    map p | p in players :: if p in gone then players[p].(alive := false, hp := 0) else players[p]
  }

  function Step(sqrt: real -> real, a: Arena, e: Event): (r: Arena)
    ensures r.players.Keys == a.players.Keys
  {
    match e
    case Do(cmd) => Apply(sqrt, a, cmd)
    case EndTick => a.(players := Cooled(a.players, TICK_MS))
    case TimeOut(gone) => a.(players := TimedOut(a.players, gone))
    case Elsewhere(numbers) => a.(lastSeq := Newer(a.lastSeq, numbers))
  }

  function Run(sqrt: real -> real, a: Arena, es: seq<Event>): (r: Arena)
    ensures r.players.Keys == a.players.Keys
    decreases |es|
  {
    if es == [] then a else Run(sqrt, Step(sqrt, a, es[0]), es[1..])
  }

  /** A tick is its commands one by one, then the end of the tick. */
  function TickEvents(cmds: seq<Command>): seq<Event> {
    if cmds == [] then [EndTick] else [Do(cmds[0])] + TickEvents(cmds[1..])
  }

  lemma {:induction false} TickIsRun(sqrt: real -> real, a: Arena, cmds: seq<Command>)
    ensures Tick(sqrt, a, cmds) == Run(sqrt, a, TickEvents(cmds))
    decreases |cmds|
  {
    if cmds == [] {
      assert Run(sqrt, a, [EndTick]) == Step(sqrt, a, EndTick);
    } else {
      ConsTail(Do(cmds[0]), TickEvents(cmds[1..]));
      TickIsRun(sqrt, Apply(sqrt, a, cmds[0]), cmds[1..]);
    }
  }

  /** Commands are handled in the order they are given. */
  lemma {:induction false} HandledInOrder(sqrt: real -> real, a: Arena, cmds: seq<Command>, later: seq<Command>)
    ensures ApplyAll(sqrt, a, cmds + later) == ApplyAll(sqrt, ApplyAll(sqrt, a, cmds), later)
    ensures cmds != [] ==> ApplyAll(sqrt, a, cmds) == ApplyAll(sqrt, Apply(sqrt, a, cmds[0]), cmds[1..])
    decreases |cmds|
  {
    if cmds == [] {
      assert cmds + later == later;
    } else {
      Uncons(cmds, later);
      ConsTail(cmds[0], cmds[1..] + later);
      HandledInOrder(sqrt, Apply(sqrt, a, cmds[0]), cmds[1..], later);
    }
  }

  /** Damage is attack minus half the defence, rounded toward zero, and at least one. */
  lemma DamageExamples()
    ensures CalcDamage(100, 50) == 75 && CalcDamage(100, 51) == 75 && CalcDamage(100, -51) == 125
    ensures CalcDamage(10, 100) == 1 && CalcDamage(50, 100) == 1 && CalcDamage(52, 100) == 2
  {
  }

  lemma {:induction false} RunConcat(sqrt: real -> real, a: Arena, es: seq<Event>, fs: seq<Event>)
    ensures Run(sqrt, a, es + fs) == Run(sqrt, Run(sqrt, a, es), fs)
    decreases |es|
  {
    if es == [] {
      assert es + fs == fs;
    } else {
      Uncons(es, fs);
      ConsTail(es[0], es[1..] + fs);
      RunConcat(sqrt, Step(sqrt, a, es[0]), es[1..], fs);
    }
  }

  /** Players as a battle starts with them (BattlePlayer's initialisers; positions are free). */
  ghost predicate Fresh(players: Players) {
    forall p :: p in players ==> FreshPlayer(players[p])
  }

  predicate FreshPlayer(p: Player) {
    p.hp == 1000 && p.atk == 100 && p.def == 50 && p.speed == 200.0 && p.alive && p.cooldowns == map[] &&
    p.kills == 0 && p.deaths == 0 && p.dealt == 0 && p.taken == 0
  }
}
