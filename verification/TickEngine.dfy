/** The tick loop of src/game/tick_engine.cpp, imperative, against the rules of module Battle. */
module TickEngine {
  import opened Bytes
  import opened Battle
  import AoiGrid

  function PositionsOf(players: Players): (at: AoiGrid.Positions)
    ensures at.Keys == players.Keys
  {
    map p | p in players :: AoiGrid.Point(players[p].x, players[p].y)
  }

  class TickEngine {
    const sqrt: real -> real
    var lastSeq: map<PlayerId, u64>

    constructor (sqrt: real -> real)
      ensures this.sqrt == sqrt && lastSeq == map[]
    {
      this.sqrt := sqrt;
      lastSeq := map[];
    }

    /** Records the sequence number unless it is old. */
    method IsDuplicate(player: PlayerId, sequence: u64) returns (dup: bool)
      modifies this
      ensures dup == (player in old(lastSeq) && sequence <= old(lastSeq)[player])
      ensures lastSeq == if dup then old(lastSeq) else old(lastSeq)[player := sequence]
    {
      if player in lastSeq && sequence <= lastSeq[player] {
        return true;
      }
      lastSeq := lastSeq[player := sequence];
      return false;
    }

    /** The command loop. */
    method RunCommands(start: Players, cmds: seq<Command>) returns (players: Players)
      modifies this
      ensures Arena(players, lastSeq) == ApplyAll(sqrt, Arena(start, old(lastSeq)), cmds)
    {
      hide Execute;
      players := start;
      ghost var goal := ApplyAll(sqrt, Arena(start, lastSeq), cmds);
      var i := 0;
      assert cmds[0..] == cmds;
      while i < |cmds|
        invariant 0 <= i <= |cmds|
        invariant ApplyAll(sqrt, Arena(players, lastSeq), cmds[i..]) == goal
      {
        var cmd := cmds[i];
        assert cmds[i..][1..] == cmds[i + 1..];
        if cmd.player in players && players[cmd.player].alive {
          var dup := IsDuplicate(cmd.player, cmd.sequence);
          if !dup {
            players := Execute(sqrt, players, cmd);
          }
        }
        i := i + 1;
      }
    }

    /** Erase-while-iterating over one player's cooldowns. */
    method RunDown(cooldowns: map<SkillId, int>, ms: int) returns (r: map<SkillId, int>)
      ensures r == Elapsed(cooldowns, ms)
    {
      r := cooldowns;
      var todo: set<SkillId> := cooldowns.Keys;
      while todo != {}
        invariant todo <= cooldowns.Keys
        invariant forall s :: s in r ==> s in cooldowns && (s in todo || cooldowns[s] - ms > 0)
        invariant forall s :: s in cooldowns && s !in todo && cooldowns[s] - ms > 0 ==> s in r
        invariant forall s :: s in todo ==> s in r
        invariant forall s :: s in r ==> r[s] == if s in todo then cooldowns[s] else cooldowns[s] - ms
        decreases todo
      {
        var s :| s in todo;
        r := r[s := r[s] - ms];
        if r[s] <= 0 {
          r := r - {s};
        }
        todo := todo - {s};
      }
    }

    method UpdateCooldowns(players: Players, ms: int) returns (r: Players)
      ensures r == Cooled(players, ms)
    {
      hide Elapsed;
      r := players;
      var todo := players.Keys;
      while todo != {}
        invariant todo <= players.Keys == r.Keys
        invariant forall p :: p in players ==>
                    r[p] == if p in todo then players[p] else Cooled(players, ms)[p]
        decreases todo
      {
        var p :| p in todo;
        var left := RunDown(r[p].cooldowns, ms);
        r := r[p := r[p].(cooldowns := left)];
        todo := todo - {p};
      }
    }

    /** One tick of a room; the grid learns the position of every player of the room. */
    method ProcessTick(players: Players, cmds: seq<Command>, aoi: AoiGrid.AoiGrid?) returns (r: Players)
      requires aoi != null ==> aoi.Valid()
      modifies this, aoi
      ensures Arena(r, lastSeq) == Tick(sqrt, Arena(players, old(lastSeq)), cmds)
      ensures aoi != null ==> aoi.Valid() && aoi.at == old(aoi.at) + PositionsOf(r)
    {
      hide ApplyAll, Cooled, AoiGrid.Inverse, PositionsOf;
      r := RunCommands(players, cmds);
      r := UpdateCooldowns(r, TICK_MS);
      if aoi != null {
        ReportPositions(r, aoi);
      }
    }
  }

  /** The last loop of processTick. */
  method ReportPositions(players: Players, aoi: AoiGrid.AoiGrid)
    requires aoi.Valid()
    modifies aoi
    ensures aoi.Valid() && aoi.at == old(aoi.at) + PositionsOf(players)
  {
    hide AoiGrid.Inverse, AoiGrid.CellsOf;
    var todo := players.Keys;
    while todo != {}
      invariant todo <= players.Keys && aoi.Valid()
      invariant aoi.at == old(aoi.at) + (PositionsOf(players) - todo)
      decreases todo
    {
      var p :| p in todo;
      OneMoreReport(old(aoi.at), PositionsOf(players), todo, p);
      aoi.Update(p, AoiGrid.Point(players[p].x, players[p].y));
      todo := todo - {p};
    }
    assert PositionsOf(players) - {} == PositionsOf(players);
  }

  lemma OneMoreReport(at: AoiGrid.Positions, positions: AoiGrid.Positions, todo: set<PlayerId>, p: PlayerId)
    requires p in todo && p in positions
    ensures (at + (positions - todo))[p := positions[p]] == at + (positions - (todo - {p}))
  {
  }
}
