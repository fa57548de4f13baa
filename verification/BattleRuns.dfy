/** What holds over every run of a battle room. */
module BattleRuns {
  import opened Bytes
  import opened Battle

  // ---------------------------------------------------------------- totals over the players of a room

  ghost function Total(players: Players, f: Player -> int): int
    decreases |players|
  {
    if players == map[] then 0
    else var k :| k in players; f(players[k]) + Total(players - {k}, f)
  }

  lemma {:induction false} TotalPick(players: Players, k: PlayerId, f: Player -> int)
    requires k in players
    ensures Total(players, f) == f(players[k]) + Total(players - {k}, f)
    decreases |players|
  {
    var k0 :| k0 in players && Total(players, f) == f(players[k0]) + Total(players - {k0}, f);
    if k != k0 {
      TotalPick(players - {k0}, k, f);
      TotalPick(players - {k}, k0, f);
      assert players - {k0} - {k} == players - {k} - {k0};
    }
  }

  lemma TotalUpdate(players: Players, k: PlayerId, p: Player, f: Player -> int)
    requires k in players
    ensures Total(players[k := p], f) == Total(players, f) - f(players[k]) + f(p)
  {
    TotalPick(players, k, f);
    TotalPick(players[k := p], k, f);
    assert players[k := p] - {k} == players - {k};
  }

  lemma {:induction false} TotalSame(players: Players, players': Players, f: Player -> int)
    requires players.Keys == players'.Keys && forall k :: k in players ==> f(players[k]) == f(players'[k])
    ensures Total(players, f) == Total(players', f)
    decreases |players|
  {
    if players == map[] {
      assert players' == map[];
    } else {
      var k :| k in players;
      TotalPick(players, k, f);
      TotalPick(players', k, f);
      TotalSame(players - {k}, players' - {k}, f);
    }
  }

  lemma {:induction false} TotalDifference(players: Players, f: Player -> int, g: Player -> int, d: Player -> int)
    requires forall p :: d(p) == f(p) - g(p)
    ensures Total(players, d) == Total(players, f) - Total(players, g)
    decreases |players|
  {
    if players != map[] {
      var k :| k in players;
      TotalPick(players, k, f);
      TotalPick(players, k, g);
      TotalPick(players, k, d);
      TotalDifference(players - {k}, f, g, d);
    }
  }

  lemma {:induction false} TotalBounds(players: Players, f: Player -> int, lo: int, hi: int)
    requires forall k :: k in players ==> lo <= f(players[k]) <= hi
    ensures lo * |players| <= Total(players, f) <= hi * |players|
    decreases |players|
  {
    if players != map[] {
      var k :| k in players;
      TotalPick(players, k, f);
      var rest := players - {k};
      assert rest.Keys == players.Keys - {k};
      TotalBounds(rest, f, lo, hi);
      OneMore(lo, |rest|);
      OneMore(hi, |rest|);
    }
  }

  lemma OneMore(b: int, n: nat)
    ensures b * (n + 1) == b * n + b
  {
  }

  lemma PartOfTotal(players: Players, k: PlayerId, f: Player -> int)
    requires k in players && forall q :: q in players ==> f(players[q]) >= 0
    ensures f(players[k]) <= Total(players, f)
  {
    TotalPick(players, k, f);
    AtLeastZero(players - {k}, f);
  }

  lemma {:induction false} AtLeastZero(players: Players, f: Player -> int)
    requires forall q :: q in players ==> f(players[q]) >= 0
    ensures Total(players, f) >= 0
    decreases |players|
  {
    if players != map[] {
      var k :| k in players;
      TotalPick(players, k, f);
      AtLeastZero(players - {k}, f);
    }
  }

  // ---------------------------------------------------------------- conservation

  function Dealt(p: Player): int { p.dealt }
  function Taken(p: Player): int { p.taken }
  function Kills(p: Player): int { p.kills }
  function Deaths(p: Player): int { p.deaths }
  function NetDamage(p: Player): int { p.dealt - p.taken }
  function NetKills(p: Player): int { p.kills - p.deaths }

  const MAX_HIT := 112
  const MAX_TAKEN := 1111

  predicate Sane(p: Player) {
    && p.atk == 100 && p.def == 50
    && 0 <= p.taken <= MAX_TAKEN && p.dealt >= 0 && p.kills >= 0 && 0 <= p.deaths <= 1
    && (p.alive ==> p.hp > 0 && p.hp + p.taken == 1000 && p.deaths == 0)
  }

  ghost predicate AllSane(players: Players) {
    forall p :: p in players ==> Sane(players[p])
  }

  ghost predicate Fair(players: Players) {
    AllSane(players) && Total(players, NetDamage) == 0 && Total(players, NetKills) == 0
  }

  lemma HitSane(players: Players, a: PlayerId, t: PlayerId, dmg: int)
    requires AllSane(players) && a in players && t in players && players[t].alive && 0 <= dmg <= MAX_HIT
    ensures AllSane(Hit(players, a, t, dmg))
  {
  }

  /** Each booking moves one total; over the whole hit they cancel, also when a player hits itself. */
  lemma HitBalanced(players: Players, a: PlayerId, t: PlayerId, dmg: int)
    requires a in players && t in players
    ensures Total(Hit(players, a, t, dmg), NetDamage) == Total(players, NetDamage)
    ensures Total(Hit(players, a, t, dmg), NetKills) == Total(players, NetKills)
  {
    var m1 := players[t := Wounded(players[t], dmg)];
    var m2 := m1[a := Credited(m1[a], dmg)];
    Book(players, t, Wounded(players[t], dmg));
    Book(m1, a, Credited(m1[a], dmg));
    if m2[t].hp <= 0 {
      var m3 := m2[t := Killed(m2[t])];
      Book(m2, t, Killed(m2[t]));
      Book(m3, a, Scored(m3[a]));
    }
  }

  lemma Book(players: Players, k: PlayerId, p: Player)
    requires k in players
    ensures Total(players[k := p], NetDamage) == Total(players, NetDamage) - NetDamage(players[k]) + NetDamage(p)
    ensures Total(players[k := p], NetKills) == Total(players, NetKills) - NetKills(players[k]) + NetKills(p)
  {
    TotalUpdate(players, k, p, NetDamage);
    TotalUpdate(players, k, p, NetKills);
  }

  lemma HitFair(players: Players, a: PlayerId, t: PlayerId, dmg: int)
    requires Fair(players) && a in players && t in players && players[t].alive && 0 <= dmg <= MAX_HIT
    ensures Fair(Hit(players, a, t, dmg))
  {
    HitSane(players, a, t, dmg);
    HitBalanced(players, a, t, dmg);
  }

  /** Replacing a player by one with the same statistics keeps the room fair. */
  lemma SwapFair(players: Players, k: PlayerId, p: Player)
    requires Fair(players) && k in players && Sane(p)
    requires NetDamage(p) == NetDamage(players[k]) && NetKills(p) == NetKills(players[k])
    ensures Fair(players[k := p])
  {
    Book(players, k, p);
  }

  lemma SkillDamageBound(a: Player, t: Player, skill: SkillId)
    requires Sane(a) && Sane(t) && 1 <= skill <= NUM_SKILLS
    ensures CalcDamage(a.atk, t.def) == 75 && 0 <= SkillDamage(a, t, skill) <= MAX_HIT
  {
  }

  /** `sqrt` is right about the distance between these two players. */
  ghost predicate TrueRoot(sqrt: real -> real, p: Player, q: Player) {
    var d := Distance(sqrt, p, q);
    d >= 0.0 && d * d == DistanceSquared(p, q)
  }

  function DistanceSquared(p: Player, q: Player): real {
    (q.x - p.x) * (q.x - p.x) + (q.y - p.y) * (q.y - p.y)
  }

  lemma Compare(d: real, r: real)
    requires d >= 0.0 && r >= 0.0
    ensures d > r <==> d * d > r * r
  {
    assert d * d - r * r == (d - r) * (d + r);
    SignOfProduct(d - r, d + r);
  }

  lemma SignOfProduct(a: real, b: real)
    requires b >= 0.0 && (a > 0.0 ==> b > 0.0)
    ensures a > 0.0 <==> a * b > 0.0
  {
  }

  /** An attack takes 75 hit points if both live and stand at most 60 apart, and otherwise does nothing. */
  lemma AttackOutcome(sqrt: real -> real, players: Players, a: PlayerId, t: PlayerId)
    requires a in players && t in players && Sane(players[a]) && Sane(players[t])
    requires TrueRoot(sqrt, players[a], players[t])
    ensures ProcessAttack(sqrt, players, a, t) ==
              if players[a].alive && players[t].alive && DistanceSquared(players[a], players[t]) <= 3600.0
              then Hit(players, a, t, 75) else players
  {
    hide Hit;
    Compare(Distance(sqrt, players[a], players[t]), 60.0);
    SkillDamageBound(players[a], players[t], 1);
  }

  /** What a skill takes from the target it reaches: 112, 60 and 37 hit points. */
  function SkillHit(skill: SkillId): int {
    if skill == 1 then 112 else if skill == 2 then 60 else 37
  }

  /** How far the first and third skill reach; the second does not look at the distance. */
  function ReachSquared(skill: SkillId): real {
    if skill == 1 then 2500.0 else 40000.0
  }

  /** An accepted cast always starts the cooldown; it hits a living target in reach, and hits nobody else. */
  lemma SkillOutcome(sqrt: real -> real, players: Players, c: PlayerId, cmd: Command)
    requires c in players && Sane(players[c]) && CanCast(players[c], cmd.skill)
    requires cmd.target in players ==> Sane(players[cmd.target]) && TrueRoot(sqrt, players[c], players[cmd.target])
    ensures var p := players[c];
            var cast := players[c := p.(cooldowns := p.cooldowns[cmd.skill := 50 * TicksApart(cmd.skill)])];
            ProcessSkill(sqrt, players, c, cmd) ==
              if cmd.target in players && players[cmd.target].alive &&
                 (cmd.skill == 2 || DistanceSquared(p, players[cmd.target]) <= ReachSquared(cmd.skill))
              then Hit(cast, c, cmd.target, SkillHit(cmd.skill)) else cast
  {
    hide Hit, Distance;
    if cmd.target in players {
      var p, t := players[c], players[cmd.target];
      Compare(Distance(sqrt, p, t), 50.0);
      Compare(Distance(sqrt, p, t), 200.0);
      CooldownFree(sqrt, p, cmd.skill, t);
    }
  }

  /** Starting a cooldown moves nobody. */
  lemma CooldownFree(sqrt: real -> real, p: Player, skill: SkillId, t: Player)
    requires 1 <= skill <= NUM_SKILLS && Sane(p) && Sane(t)
    ensures var p' := p.(cooldowns := p.cooldowns[skill := SkillOf(skill).cooldown]);
            && Distance(sqrt, p', t) == Distance(sqrt, p, t) && Distance(sqrt, p', p') == Distance(sqrt, p, p)
            && SkillDamage(p', t, skill) == SkillHit(skill) && SkillDamage(p', p', skill) == SkillHit(skill)
  {
  }

  /** `sqrt` is right wherever this command needs it. */
  ghost predicate RootsTrue(sqrt: real -> real, players: Players, cmd: Command) {
    cmd.player in players && cmd.target in players ==> TrueRoot(sqrt, players[cmd.player], players[cmd.target])
  }

  /** What an accepted attack does to the players: 75 points to a living target at most 60 away, or nothing. */
  ghost predicate Attacked(before: Players, after: Players, a: PlayerId, t: PlayerId)
    requires a in before
  {
    if t in before && before[t].alive && DistanceSquared(before[a], before[t]) <= 3600.0
    then Strikes(before, after, a, t, 75)
    else after == before
  }

  /** What an accepted skill command does: nothing while it cools down, or else a cooldown and perhaps a hit. */
  ghost predicate HasCast(before: Players, after: Players, c: PlayerId, skill: SkillId, t: PlayerId)
    requires c in before
  {
    var p := before[c];
    if skill < 1 || skill > 3 || (skill in p.cooldowns && p.cooldowns[skill] > 0) then after == before
    else
      var ms := if skill == 1 then 3000 else if skill == 2 then 5000 else 8000;
      var dmg := if skill == 1 then 112 else if skill == 2 then 60 else 37;
      var cast := before[c := p.(cooldowns := p.cooldowns[skill := ms])];
      if t in before && before[t].alive &&
         (skill == 2 || DistanceSquared(p, before[t]) <= if skill == 1 then 2500.0 else 40000.0)
      then Strikes(cast, after, c, t, dmg)
      else after == cast
  }

  /** What a command does to the players of its room, kind by kind, if its player lives and its number is new. */
  ghost predicate Obeyed(sqrt: real -> real, before: Players, after: Players, cmd: Command)
    requires cmd.player in before
  {
    var p := before[cmd.player];
    match cmd.kind
    case Move =>
      && cmd.player in after && after == before[cmd.player := after[cmd.player]]
      && Walked(p, after[cmd.player], cmd.dirX, cmd.dirY, Length(sqrt, cmd.dirX, cmd.dirY))
    case StopMove => after == before[cmd.player := p.(dirX := 0.0, dirY := 0.0)]
    case Attack => Attacked(before, after, cmd.player, cmd.target)
    case Skill => HasCast(before, after, cmd.player, cmd.skill, cmd.target)
    case Leave => after == before[cmd.player := p.(alive := false)]
  }

  /** Commands of strangers and of the dead, and old ones, change nothing; the others do what they say. */
  lemma CommandOutcome(sqrt: real -> real, a: Arena, cmd: Command)
    requires AllSane(a.players) && RootsTrue(sqrt, a.players, cmd)
    ensures var r, p := Apply(sqrt, a, cmd), cmd.player;
            if p !in a.players || !a.players[p].alive || (p in a.lastSeq && cmd.sequence <= a.lastSeq[p])
            then r == a
            else r.lastSeq == a.lastSeq[p := cmd.sequence] && Obeyed(sqrt, a.players, r.players, cmd)
  {
    hide ProcessAttack, ProcessSkill, ProcessMove, Walked, Attacked, HasCast, AllSane;
    if Accepts(a, cmd) {
      match cmd.kind
      case Move => MoveStep(sqrt, a.players[cmd.player], cmd.dirX, cmd.dirY);
      case StopMove =>
      case Attack => AttackCommand(sqrt, a.players, cmd);
      case Skill => SkillCommand(sqrt, a.players, cmd);
      case Leave =>
    }
  }

  lemma AttackCommand(sqrt: real -> real, players: Players, cmd: Command)
    requires AllSane(players) && RootsTrue(sqrt, players, cmd) && cmd.player in players && players[cmd.player].alive
    ensures Attacked(players, if cmd.target in players then ProcessAttack(sqrt, players, cmd.player, cmd.target)
                              else players, cmd.player, cmd.target)
  {
    hide Hit, ProcessAttack, Strikes, TrueRoot;
    if cmd.target in players {
      AttackOutcome(sqrt, players, cmd.player, cmd.target);
      HitOutcome(players, cmd.player, cmd.target, 75);
    }
  }

  lemma SkillCommand(sqrt: real -> real, players: Players, cmd: Command)
    requires AllSane(players) && RootsTrue(sqrt, players, cmd) && cmd.player in players && players[cmd.player].alive
    ensures HasCast(players, ProcessSkill(sqrt, players, cmd.player, cmd), cmd.player, cmd.skill, cmd.target)
  {
    hide Hit, Strikes, TrueRoot, DistanceSquared, Distance, SkillDamage;
    var c := cmd.player;
    if CanCast(players[c], cmd.skill) {
      SkillOutcome(sqrt, players, c, cmd);
      if cmd.target in players {
        var p := players[c];
        var cast := players[c := p.(cooldowns := p.cooldowns[cmd.skill := 50 * TicksApart(cmd.skill)])];
        HitOutcome(cast, c, cmd.target, SkillHit(cmd.skill));
      }
    }
  }

  lemma ExecuteFair(sqrt: real -> real, players: Players, cmd: Command)
    requires Fair(players) && cmd.player in players && players[cmd.player].alive
    ensures Fair(Execute(sqrt, players, cmd))
  {
    hide Hit, SkillDamage, SkillOf, ProcessMove, Total, CalcDamage, Distance;
    var p := players[cmd.player];
    match cmd.kind
    case Move =>
      MoveShape(sqrt, p, cmd.dirX, cmd.dirY);
      SwapFair(players, cmd.player, ProcessMove(sqrt, p, cmd.dirX, cmd.dirY));
    case StopMove => SwapFair(players, cmd.player, p.(dirX := 0.0, dirY := 0.0));
    case Attack =>
      if cmd.target in players && players[cmd.target].alive {
        SkillDamageBound(p, players[cmd.target], 1);
        HitFair(players, cmd.player, cmd.target, CalcDamage(p.atk, players[cmd.target].def));
      }
    case Skill =>
      if CanCast(p, cmd.skill) {
        var p' := p.(cooldowns := p.cooldowns[cmd.skill := SkillOf(cmd.skill).cooldown]);
        SwapFair(players, cmd.player, p');
        var cast := players[cmd.player := p'];
        if cmd.target in cast && cast[cmd.target].alive {
          SkillDamageBound(cast[cmd.player], cast[cmd.target], cmd.skill);
          HitFair(cast, cmd.player, cmd.target, SkillDamage(cast[cmd.player], cast[cmd.target], cmd.skill));
        }
      }
    case Leave => SwapFair(players, cmd.player, p.(alive := false));
  }

  lemma StepFair(sqrt: real -> real, a: Arena, e: Event)
    requires Fair(a.players)
    ensures Fair(Step(sqrt, a, e).players)
  {
    hide Execute, Total, Elapsed;
    match e
    case Do(cmd) =>
      if Accepts(a, cmd) {
        ExecuteFair(sqrt, a.players, cmd);
      }
    case EndTick => SameStatistics(a.players, Cooled(a.players, TICK_MS));
    case TimeOut(gone) => SameStatistics(a.players, TimedOut(a.players, gone));
    case Elsewhere(_) =>
  }

  lemma SameStatistics(players: Players, players': Players)
    requires Fair(players) && players.Keys == players'.Keys
    requires forall p :: p in players ==>
               && Sane(players'[p]) && NetDamage(players'[p]) == NetDamage(players[p])
               && NetKills(players'[p]) == NetKills(players[p])
    ensures Fair(players')
  {
    TotalSame(players, players', NetDamage);
    TotalSame(players, players', NetKills);
  }

  lemma {:induction false} RunFair(sqrt: real -> real, a: Arena, es: seq<Event>)
    requires Fair(a.players)
    ensures Fair(Run(sqrt, a, es).players)
    decreases |es|
  {
    hide Step, Fair;
    if es != [] {
      StepFair(sqrt, a, es[0]);
      RunFair(sqrt, Step(sqrt, a, es[0]), es[1..]);
    }
  }

  lemma FreshFair(players: Players)
    requires Fresh(players)
    ensures Fair(players)
  {
    TotalBounds(players, NetDamage, 0, 0);
    TotalBounds(players, NetKills, 0, 0);
  }

  /**
    Damage and kills are conserved, nobody has died twice, the living have lost exactly what they took, and every
    counter is bounded.
   */
  ghost predicate Conserved(players: Players) {
    && Total(players, Dealt) == Total(players, Taken)
    && Total(players, Kills) == Total(players, Deaths)
    && forall p :: p in players ==>
         && players[p].deaths <= 1
         && (players[p].alive ==> players[p].hp > 0 && players[p].hp + players[p].taken == 1000)
         && players[p].taken <= MAX_TAKEN
         && players[p].dealt <= MAX_TAKEN * |players|
  }

  /** From freshly built players, after any number of commands, ticks and timeouts. */
  lemma Conservation(sqrt: real -> real, a: Arena, es: seq<Event>)
    requires Fresh(a.players)
    ensures Conserved(Run(sqrt, a, es).players)
  {
    hide Run;
    FreshFair(a.players);
    RunFair(sqrt, a, es);
    var players := Run(sqrt, a, es).players;
    TotalDifference(players, Dealt, Taken, NetDamage);
    TotalDifference(players, Kills, Deaths, NetKills);
    TotalBounds(players, Taken, 0, MAX_TAKEN);
    forall p | p in players ensures players[p].dealt <= MAX_TAKEN * |players| {
      PartOfTotal(players, p, Dealt);
    }
  }

  // ---------------------------------------------------------------- replay

  /** Handling this command again changes nothing. */
  ghost predicate Stale(a: Arena, cmd: Command) { !Accepts(a, cmd) }

  lemma StaleAfterwards(sqrt: real -> real, a: Arena, cmd: Command)
    ensures Stale(Apply(sqrt, a, cmd), cmd)
  {
  }

  lemma StaleStays(sqrt: real -> real, a: Arena, e: Event, cmd: Command)
    requires Stale(a, cmd)
    ensures Stale(Step(sqrt, a, e), cmd)
  {
  }

  /** Every command in the history is stale, whether it was accepted or not. */
  lemma {:induction false} HistoryIsStale(sqrt: real -> real, a: Arena, es: seq<Event>, cmd: Command)
    requires Stale(a, cmd) || Do(cmd) in es
    ensures Stale(Run(sqrt, a, es), cmd)
    decreases |es|
  {
    hide Stale, Apply;
    if es != [] {
      if es[0] == Do(cmd) {
        StaleAfterwards(sqrt, a, cmd);
      } else if Stale(a, cmd) {
        StaleStays(sqrt, a, es[0], cmd);
      }
      HistoryIsStale(sqrt, Step(sqrt, a, es[0]), es[1..], cmd);
    }
  }

  lemma {:induction false} StaleRun(sqrt: real -> real, a: Arena, repeats: seq<Event>)
    requires forall e :: e in repeats ==> e.Do? && Stale(a, e.cmd)
    ensures Run(sqrt, a, repeats) == a
    decreases |repeats|
  {
    if repeats != [] {
      assert repeats[0] in repeats;
      StaleRun(sqrt, a, repeats[1..]);
    }
  }

  /** Repeats of commands already handled, in the same tick or any later one, are as good as absent. */
  lemma ReplayIsNoOp(sqrt: real -> real, a: Arena, es: seq<Event>, repeats: seq<Event>, later: seq<Event>)
    requires forall e :: e in repeats ==> e.Do? && e in es
    ensures Run(sqrt, a, es + repeats + later) == Run(sqrt, a, es + later)
  {
    hide Run, Stale;
    var b := Run(sqrt, a, es);
    forall e | e in repeats ensures Stale(b, e.cmd) {
      assert e == Do(e.cmd);
      HistoryIsStale(sqrt, a, es, e.cmd);
    }
    StaleRun(sqrt, b, repeats);
    RunConcat(sqrt, a, es + repeats, later);
    RunConcat(sqrt, a, es, repeats);
    RunConcat(sqrt, a, es, later);
  }

  /** The commands a run accepts, in order. */
  function Accepted(sqrt: real -> real, a: Arena, es: seq<Event>): seq<Command>
    decreases |es|
  {
    if es == [] then []
    else (if es[0].Do? && Accepts(a, es[0].cmd) then [es[0].cmd] else [])
         + Accepted(sqrt, Step(sqrt, a, es[0]), es[1..])
  }

  lemma DuplicateStays(sqrt: real -> real, a: Arena, e: Event, cmd: Command)
    requires Duplicate(a.lastSeq, cmd)
    ensures Duplicate(Step(sqrt, a, e).lastSeq, cmd)
  {
  }

  lemma LaterIsNewer(sqrt: real -> real, a: Arena, cmd: Command, later: Command)
    requires Accepts(a, cmd) && later.player == cmd.player
    requires !Duplicate(Step(sqrt, a, Do(cmd)).lastSeq, later)
    ensures later.sequence > cmd.sequence
  {
  }

  ghost predicate Increasing(log: seq<Command>) {
    forall i, j :: 0 <= i < j < |log| && log[i].player == log[j].player ==> log[i].sequence < log[j].sequence
  }

  /** Over the whole run the sequence numbers accepted from each player strictly increase. */
  lemma {:induction false} AcceptedIncrease(sqrt: real -> real, a: Arena, es: seq<Event>)
    ensures forall c :: c in Accepted(sqrt, a, es) ==> !Duplicate(a.lastSeq, c)
    ensures Increasing(Accepted(sqrt, a, es))
    decreases |es|
  {
    hide Step, Duplicate;
    if es != [] {
      var b := Step(sqrt, a, es[0]);
      AcceptedIncrease(sqrt, b, es[1..]);
      var log := Accepted(sqrt, b, es[1..]);
      forall c | c in log ensures !Duplicate(a.lastSeq, c) {
        if Duplicate(a.lastSeq, c) {
          DuplicateStays(sqrt, a, es[0], c);
        }
      }
      if es[0].Do? && Accepts(a, es[0].cmd) {
        assert Accepted(sqrt, a, es) == [es[0].cmd] + log;
        forall c | c in log && c.player == es[0].cmd.player ensures c.sequence > es[0].cmd.sequence {
          LaterIsNewer(sqrt, a, es[0].cmd, c);
        }
      } else {
        assert Accepted(sqrt, a, es) == log;
      }
    }
  }

  /** This number of this player is no longer new. */
  ghost predicate Passed(lastSeq: map<PlayerId, u64>, p: PlayerId, n: u64) {
    p in lastSeq && n <= lastSeq[p]
  }

  /** A command of this player with this number or a higher one has been accepted. */
  ghost predicate Reached(log: seq<Command>, p: PlayerId, n: u64) {
    exists i :: 0 <= i < |log| && log[i].player == p && n <= log[i].sequence
  }

  /** Accepting the commands of `log`, with rising numbers, is all that happens between two states of the record. */
  ghost predicate Advances(before: map<PlayerId, u64>, log: seq<Command>, after: map<PlayerId, u64>) {
    && Increasing(log)
    && (forall c :: c in log ==> !Passed(before, c.player, c.sequence))
    && (forall p, n :: Passed(after, p, n) <==> Passed(before, p, n) || Reached(log, p, n))
  }

  lemma AdvanceNowhere(m: map<PlayerId, u64>)
    ensures Advances(m, [], m)
  {
  }

  lemma AdvancesCompose(a: map<PlayerId, u64>, log: seq<Command>, b: map<PlayerId, u64>,
                        log': seq<Command>, c: map<PlayerId, u64>)
    requires Advances(a, log, b) && Advances(b, log', c)
    ensures Advances(a, log + log', c)
  {
    hide Passed;
    forall d | d in log ensures Passed(b, d.player, d.sequence) {
      assert Reached(log, d.player, d.sequence);
    }
    forall i, j | 0 <= i < |log| && 0 <= j < |log'| && log[i].player == log'[j].player
      ensures log[i].sequence < log'[j].sequence
    {
      assert log[i] in log && log'[j] in log';
      PassedLess(b, log[i].player, log[i].sequence, log'[j].sequence);
    }
    forall p, n ensures Reached(log + log', p, n) <==> Reached(log, p, n) || Reached(log', p, n) {
      ReachedConcat(log, log', p, n);
    }
  }

  lemma PassedLess(m: map<PlayerId, u64>, p: PlayerId, n: u64, n': u64)
    requires Passed(m, p, n) && !Passed(m, p, n')
    ensures n < n'
  {
  }

  lemma ReachedConcat(log: seq<Command>, log': seq<Command>, p: PlayerId, n: u64)
    ensures Reached(log + log', p, n) <==> Reached(log, p, n) || Reached(log', p, n)
  {
    var both := log + log';
    forall i | 0 <= i < |log| ensures both[i] == log[i] {
    }
    forall i | 0 <= i < |log'| ensures both[|log| + i] == log'[i] {
    }
  }

  lemma StepAdvances(sqrt: real -> real, a: Arena, e: Event)
    requires !e.Elsewhere?
    ensures Advances(a.lastSeq, if e.Do? && Accepts(a, e.cmd) then [e.cmd] else [], Step(sqrt, a, e).lastSeq)
  {
    if e.Do? && Accepts(a, e.cmd) {
      assert [e.cmd][0] == e.cmd;
    }
  }

  /** The record of sequence numbers moves exactly by the commands accepted. */
  lemma {:induction false} AcceptedAdvance(sqrt: real -> real, a: Arena, es: seq<Event>)
    requires forall e :: e in es ==> !e.Elsewhere?
    ensures Advances(a.lastSeq, Accepted(sqrt, a, es), Run(sqrt, a, es).lastSeq)
    decreases |es|
  {
    hide Step, Advances;
    if es == [] {
      AdvanceNowhere(a.lastSeq);
    } else {
      assert es[0] in es;
      var b := Step(sqrt, a, es[0]);
      StepAdvances(sqrt, a, es[0]);
      AcceptedAdvance(sqrt, b, es[1..]);
      AdvancesCompose(a.lastSeq, if es[0].Do? && Accepts(a, es[0].cmd) then [es[0].cmd] else [], b.lastSeq,
                      Accepted(sqrt, b, es[1..]), Run(sqrt, b, es[1..]).lastSeq);
    }
  }

  // ---------------------------------------------------------------- cooldowns

  /** What is left of a player's cooldown; zero if it may cast. */
  function Wait(a: Arena, p: PlayerId, skill: SkillId): int {
    if p in a.players && OnCooldown(a.players[p], skill) then a.players[p].cooldowns[skill] else 0
  }

  ghost predicate Casts(a: Arena, e: Event) {
    e.Do? && Accepts(a, e.cmd) && e.cmd.kind == Skill && CanCast(a.players[e.cmd.player], e.cmd.skill)
  }

  datatype Cast = Cast(tick: nat, player: PlayerId, skill: SkillId)

  /** The accepted casts of a run, with the tick in which each happens. */
  ghost function CastLog(sqrt: real -> real, a: Arena, es: seq<Event>, tick: nat): seq<Cast>
    decreases |es|
  {
    if es == [] then []
    else (if Casts(a, es[0]) then [Cast(tick, es[0].cmd.player, es[0].cmd.skill)] else [])
         + CastLog(sqrt, Step(sqrt, a, es[0]), es[1..], if es[0].EndTick? then tick + 1 else tick)
  }

  /** How a wait changes: 50 ms less per tick, started anew by a cast, and untouched by everything else. */
  lemma WaitStep(sqrt: real -> real, a: Arena, e: Event, p: PlayerId, skill: SkillId)
    ensures Wait(Step(sqrt, a, e), p, skill) ==
              if e.EndTick? then Max(0, Wait(a, p, skill) - 50)
              else if Casts(a, e) && e.cmd.player == p && e.cmd.skill == skill then 50 * TicksApart(skill)
              else Wait(a, p, skill)
  {
    hide Execute;
    if e.Do? && Accepts(a, e.cmd) {
      ExecuteShape(sqrt, a.players, e.cmd);
    }
  }

  function EndTicks(es: seq<Event>): nat {
    if es == [] then 0 else (if es[0].EndTick? then 1 else 0) + EndTicks(es[1..])
  }

  /** No step of the run is an accepted cast of this skill by this player. */
  ghost predicate NoCast(sqrt: real -> real, a: Arena, es: seq<Event>, p: PlayerId, skill: SkillId)
    decreases |es|
  {
    es == [] || (!(Casts(a, es[0]) && es[0].cmd.player == p && es[0].cmd.skill == skill) &&
                 NoCast(sqrt, Step(sqrt, a, es[0]), es[1..], p, skill))
  }

  lemma {:induction false} WaitRunsDown(sqrt: real -> real, a: Arena, es: seq<Event>, p: PlayerId, skill: SkillId)
    requires NoCast(sqrt, a, es, p, skill) && Wait(a, p, skill) >= 0
    ensures Wait(Run(sqrt, a, es), p, skill) == Max(0, Wait(a, p, skill) - 50 * EndTicks(es))
    decreases |es|
  {
    hide Step, Wait, Casts;
    if es != [] {
      WaitStep(sqrt, a, es[0], p, skill);
      WaitRunsDown(sqrt, Step(sqrt, a, es[0]), es[1..], p, skill);
    }
  }

  /**
    After an accepted cast, whatever else happens, the skill is available to its living caster again exactly from the
    60th, 100th or 160th tick on.
   */
  lemma AvailableAgain(sqrt: real -> real, a: Arena, cast: Event, es: seq<Event>)
    requires Casts(a, cast) && NoCast(sqrt, Step(sqrt, a, cast), es, cast.cmd.player, cast.cmd.skill)
    ensures var r, p, skill := Run(sqrt, Step(sqrt, a, cast), es), cast.cmd.player, cast.cmd.skill;
            p in r.players && r.players[p].alive ==>
              (CanCast(r.players[p], skill) <==>
                EndTicks(es) >= if skill == 1 then 60 else if skill == 2 then 100 else 160)
  {
    hide Step, Run, NoCast;
    WaitStep(sqrt, a, cast, cast.cmd.player, cast.cmd.skill);
    WaitRunsDown(sqrt, Step(sqrt, a, cast), es, cast.cmd.player, cast.cmd.skill);
  }

  /** The tick of a cast already counts: it leaves 2950, 4950 or 7950 ms to wait. */
  lemma CastThenTick(sqrt: real -> real, a: Arena, cmd: Command)
    requires Casts(a, Do(cmd))
    ensures Wait(Tick(sqrt, a, [cmd]), cmd.player, cmd.skill) ==
              if cmd.skill == 1 then 2950 else if cmd.skill == 2 then 4950 else 7950
  {
    hide Apply, Wait, Step, Cooled;
    var b := Apply(sqrt, a, cmd);
    WaitStep(sqrt, a, Do(cmd), cmd.player, cmd.skill);
    WaitStep(sqrt, b, EndTick, cmd.player, cmd.skill);
    OneCommand(sqrt, a, cmd);
  }

  lemma OneCommand(sqrt: real -> real, a: Arena, cmd: Command)
    ensures Step(sqrt, a, Do(cmd)) == Apply(sqrt, a, cmd)
    ensures Tick(sqrt, a, [cmd]) == Step(sqrt, Apply(sqrt, a, cmd), EndTick)
  {
    hide Apply, Cooled;
    assert ApplyAll(sqrt, a, [cmd]) == Apply(sqrt, a, cmd);
  }

  /** A skill is not cast again before its wait is over. */
  lemma {:induction false} CastsWait(sqrt: real -> real, a: Arena, es: seq<Event>, tick: nat)
    ensures forall c :: c in CastLog(sqrt, a, es, tick) ==>
              1 <= c.skill <= NUM_SKILLS && TICK_MS * (c.tick - tick) >= Wait(a, c.player, c.skill)
    decreases |es|
  {
    hide Step, Wait;
    if es != [] {
      var b, t := Step(sqrt, a, es[0]), if es[0].EndTick? then tick + 1 else tick;
      CastsWait(sqrt, b, es[1..], t);
      forall c | c in CastLog(sqrt, a, es, tick)
        ensures 1 <= c.skill <= NUM_SKILLS && TICK_MS * (c.tick - tick) >= Wait(a, c.player, c.skill)
      {
        if c in CastLog(sqrt, b, es[1..], t) {
          WaitStep(sqrt, a, es[0], c.player, c.skill);
        }
        if Casts(a, es[0]) {
          ReadyToCast(a, es[0]);
        }
      }
    }
  }

  lemma ReadyToCast(a: Arena, e: Event)
    requires Casts(a, e)
    ensures Wait(a, e.cmd.player, e.cmd.skill) == 0
  {
  }

  function TicksApart(skill: SkillId): nat {
    if skill == 1 then 60 else if skill == 2 then 100 else 160
  }

  ghost predicate Spaced(log: seq<Cast>) {
    forall i, j :: 0 <= i < j < |log| && log[i].player == log[j].player && log[i].skill == log[j].skill ==>
      log[j].tick - log[i].tick >= TicksApart(log[i].skill)
  }

  /** Two accepted casts of one skill by one player are at least 60, 100 or 160 ticks apart. */
  lemma {:induction false} CastSpacing(sqrt: real -> real, a: Arena, es: seq<Event>, tick: nat)
    ensures Spaced(CastLog(sqrt, a, es, tick))
    decreases |es|
  {
    hide Step, Wait;
    if es != [] {
      var b, t := Step(sqrt, a, es[0]), if es[0].EndTick? then tick + 1 else tick;
      CastSpacing(sqrt, b, es[1..], t);
      CastsWait(sqrt, b, es[1..], t);
      var rest := CastLog(sqrt, b, es[1..], t);
      if Casts(a, es[0]) {
        var c := Cast(tick, es[0].cmd.player, es[0].cmd.skill);
        WaitStep(sqrt, a, es[0], c.player, c.skill);
        assert CastLog(sqrt, a, es, tick) == [c] + rest;
        forall d | d in rest && d.player == c.player && d.skill == c.skill
          ensures d.tick - c.tick >= TicksApart(c.skill)
        {
        }
      } else {
        assert CastLog(sqrt, a, es, tick) == rest;
      }
    }
  }

  ghost predicate CooldownsPositive(players: Players) {
    forall p, s :: p in players && s in players[p].cooldowns ==> players[p].cooldowns[s] > 0
  }

  /** A stored cooldown is never zero or negative. */
  lemma {:induction false} StoredCooldownsPositive(sqrt: real -> real, a: Arena, es: seq<Event>)
    requires CooldownsPositive(a.players)
    ensures CooldownsPositive(Run(sqrt, a, es).players)
    decreases |es|
  {
    hide Execute;
    if es != [] {
      if es[0].Do? && Accepts(a, es[0].cmd) {
        ExecuteShape(sqrt, a.players, es[0].cmd);
      }
      StoredCooldownsPositive(sqrt, Step(sqrt, a, es[0]), es[1..]);
    }
  }
}
