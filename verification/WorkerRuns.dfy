/** What holds over every run of a worker: operations and ticks in any order, one battle after another. */
module WorkerRuns {
  import opened Bytes
  import opened Battle
  import opened BattleRuns
  import opened LogicWorker

  /** What a worker's thread does: apply an operation, or tick its rooms in some order. */
  datatype Entry = Applied(op: PendingOp) | Ticked(order: seq<RoomId>, cmds: seq<Command>, now: RoomId -> int)

  const IDLE := Worker(map[], map[], map[])

  /** A tick visits rooms the worker has. */
  predicate Visits(w: Worker, order: seq<RoomId>) {
    forall r :: r in order ==> r in w.rooms
  }

  function Perform(sqrt: real -> real, w: Worker, e: Entry): Worker {
    match e
    case Applied(op) => w.(rooms := ApplyOp(w.rooms, op))
    case Ticked(order, cmds, now) => if Visits(w, order) then TickRooms(sqrt, w, order, cmds, now) else w
  }

  /** The worker after everything in its log. */
  function Replay(sqrt: real -> real, log: seq<Entry>): Worker {
    if log == [] then IDLE else Perform(sqrt, Replay(sqrt, log[..|log| - 1]), log[|log| - 1])
  }

  lemma ReplayMore(sqrt: real -> real, log: seq<Entry>, e: Entry)
    ensures Replay(sqrt, log + [e]) == Perform(sqrt, Replay(sqrt, log), e)
  {
    assert (log + [e])[..|log|] == log;
  }

  // ---------------------------------------------------------------- the life of a room

  /** How a room began, and what it has seen since. */
  datatype Life = Life(birth: Arena, events: seq<Event>)

  /** The tick loop as room `r` sees it: its own turn, and the numbers accepted in the turns of others. */
  function Share(sqrt: real -> real, w: Worker, order: seq<RoomId>, cmds: seq<Command>, now: RoomId -> int,
                 r: RoomId): seq<Event>
    requires Visits(w, order)
    decreases |order|
  {
    if order == [] then []
    else
      var w1 := TickRoom(sqrt, w, order[0], cmds, now(order[0]));
      (if order[0] == r then RoomEvents(w, r, cmds, now(r)) else [Elsewhere(w1.lastSeq)])
      + Share(sqrt, w1, order[1..], cmds, now, r)
  }

  function Seen(sqrt: real -> real, w: Worker, e: Entry, r: RoomId): seq<Event> {
    if e.Ticked? && Visits(w, e.order) then Share(sqrt, w, e.order, e.cmds, e.now, r) else []
  }

  /** The life of the room that now has id `r`; ids may be used again. */
  function LifeOf(sqrt: real -> real, log: seq<Entry>, r: RoomId): Option<Life> {
    if log == [] then None
    else
      var before, e := log[..|log| - 1], log[|log| - 1];
      if e.Applied? && e.op.room == r && e.op.AddRoom? then
        Some(Life(Arena(e.op.players, Replay(sqrt, before).lastSeq), []))
      else if e.Applied? && e.op.room == r && e.op.RemoveRoom? then None
      else
        match LifeOf(sqrt, before, r)
        case None => None
        case Some(life) => Some(Life(life.birth, life.events + Seen(sqrt, Replay(sqrt, before), e, r)))
  }

  lemma {:induction false} PlainEvents(cmds: seq<Command>)
    ensures forall e :: e in TickEvents(cmds) ==> !e.Elsewhere?
  {
    if cmds != [] {
      PlainEvents(cmds[1..]);
    }
  }

  /** The commands a room's turn accepts. */
  function TurnAccepts(sqrt: real -> real, w: Worker, r: RoomId, cmds: seq<Command>, now: int): seq<Command>
    requires r in w.rooms
  {
    Accepted(sqrt, ArenaOf(w, r), RoomEvents(w, r, cmds, now))
  }

  lemma TurnAdvances(sqrt: real -> real, w: Worker, r: RoomId, cmds: seq<Command>, now: int)
    requires r in w.rooms
    ensures Advances(w.lastSeq, TurnAccepts(sqrt, w, r, cmds, now), TickRoom(sqrt, w, r, cmds, now).lastSeq)
  {
    hide TickRoom, Run, Advances, Accepted;
    PlainEvents(cmds);
    TickRoomIsRun(sqrt, w, r, cmds, now);
    AcceptedAdvance(sqrt, ArenaOf(w, r), RoomEvents(w, r, cmds, now));
  }

  lemma AdvanceIsNewer(m: map<PlayerId, u64>, log: seq<Command>, m': map<PlayerId, u64>)
    requires Advances(m, log, m')
    ensures Newer(m, m') == m'
  {
    forall p | p in m ensures p in m' && m[p] <= m'[p] {
      assert Passed(m, p, m[p]);
    }
  }

  /** Another room's turn changes nothing of this room but the shared sequence numbers. */
  lemma OtherTurn(sqrt: real -> real, w: Worker, q: RoomId, cmds: seq<Command>, now: int, r: RoomId)
    requires q in w.rooms && r in w.rooms && q != r
    ensures var w1 := TickRoom(sqrt, w, q, cmds, now);
            ArenaOf(w1, r) == Run(sqrt, ArenaOf(w, r), [Elsewhere(w1.lastSeq)])
  {
    hide Battle.Tick, Advances, Newer, TurnAccepts;
    var w1 := TickRoom(sqrt, w, q, cmds, now);
    TurnAdvances(sqrt, w, q, cmds, now);
    AdvanceIsNewer(w.lastSeq, TurnAccepts(sqrt, w, q, cmds, now), w1.lastSeq);
    assert Run(sqrt, ArenaOf(w, r), [Elsewhere(w1.lastSeq)]) == Step(sqrt, ArenaOf(w, r), Elsewhere(w1.lastSeq));
  }

  /** A tick of the worker is, to each of its rooms, the run of what the room sees. */
  lemma {:induction false} ShareIsRun(sqrt: real -> real, w: Worker, order: seq<RoomId>, cmds: seq<Command>,
                                      now: RoomId -> int, r: RoomId)
    requires Visits(w, order) && r in w.rooms
    ensures var w' := TickRooms(sqrt, w, order, cmds, now);
            r in w'.rooms && ArenaOf(w', r) == Run(sqrt, ArenaOf(w, r), Share(sqrt, w, order, cmds, now, r))
    decreases |order|
  {
    hide TickRoom, Run, RoomEvents, ArenaOf;
    if order == [] {
      RunNothing(sqrt, ArenaOf(w, r));
    } else {
      var q := order[0];
      var w1 := TickRoom(sqrt, w, q, cmds, now(q));
      var turn := if q == r then RoomEvents(w, r, cmds, now(r)) else [Elsewhere(w1.lastSeq)];
      if q == r {
        TickRoomIsRun(sqrt, w, r, cmds, now(r));
      } else {
        OtherTurn(sqrt, w, q, cmds, now(q), r);
      }
      ShareIsRun(sqrt, w1, order[1..], cmds, now, r);
      RunConcat(sqrt, ArenaOf(w, r), turn, Share(sqrt, w1, order[1..], cmds, now, r));
    }
  }

  lemma RunNothing(sqrt: real -> real, a: Arena)
    ensures Run(sqrt, a, []) == a
  {
  }

  /** The worker has the room exactly if the log gives it a life, and the room is where that life has led it. */
  ghost predicate LivedAs(sqrt: real -> real, log: seq<Entry>, r: RoomId) {
    && (LifeOf(sqrt, log, r).Some? <==> r in Replay(sqrt, log).rooms)
    && (LifeOf(sqrt, log, r).Some? ==>
          var life := LifeOf(sqrt, log, r).value;
          ArenaOf(Replay(sqrt, log), r) == Run(sqrt, life.birth, life.events))
  }

  /**
    To each room a worker has, everything the worker ever did amounts to one battle run from the players the room
    was added with, whatever other rooms, battles and operations came in between.
   */
  lemma {:induction false} RoomLife(sqrt: real -> real, log: seq<Entry>, r: RoomId)
    ensures LivedAs(sqrt, log, r)
    decreases |log|
  {
    hide Run, TickRooms;
    if log != [] {
      var before, e := log[..|log| - 1], log[|log| - 1];
      RoomLife(sqrt, before, r);
      var w := Replay(sqrt, before);
      assert log == before + [e];
      if e.Applied? {
        OpLife(sqrt, before, e.op, r);
      } else if Visits(w, e.order) {
        TickRoomsKeys(sqrt, w, e.order, e.cmds, e.now);
        if r in w.rooms {
          var life := LifeOf(sqrt, before, r).value;
          ShareIsRun(sqrt, w, e.order, e.cmds, e.now, r);
          RunConcat(sqrt, life.birth, life.events, Share(sqrt, w, e.order, e.cmds, e.now, r));
        }
      } else if r in w.rooms {
        var life := LifeOf(sqrt, before, r).value;
        assert life.events + [] == life.events;
      }
    }
  }

  lemma OpLife(sqrt: real -> real, before: seq<Entry>, op: PendingOp, r: RoomId)
    requires LivedAs(sqrt, before, r)
    ensures LivedAs(sqrt, before + [Applied(op)], r)
  {
    hide Run;
    var log := before + [Applied(op)];
    assert log[..|log| - 1] == before;
    ReplayMore(sqrt, before, Applied(op));
    hide Replay;
    if LifeOf(sqrt, before, r).Some? {
      var life := LifeOf(sqrt, before, r).value;
      assert life.events + [] == life.events;
    }
    if op.AddRoom? && op.room == r {
      RunNothing(sqrt, ArenaOf(Replay(sqrt, log), r));
    }
  }

  /** Battles begin with the players that startBattle builds. */
  ghost predicate FreshStarts(log: seq<Entry>) {
    forall e :: e in log && e.Applied? && e.op.AddRoom? ==> Fresh(e.op.players)
  }

  lemma {:induction false} BornFresh(sqrt: real -> real, log: seq<Entry>, r: RoomId)
    requires FreshStarts(log) && LifeOf(sqrt, log, r).Some?
    ensures Fresh(LifeOf(sqrt, log, r).value.birth.players)
    decreases |log|
  {
    hide Seen, Fresh;
    var before, e := log[..|log| - 1], log[|log| - 1];
    assert e in log;
    if !(e.Applied? && e.op.room == r && e.op.AddRoom?) {
      BornFresh(sqrt, before, r);
    }
  }

  /** Over every run of a worker, every battle in progress keeps the laws of a single battle. */
  lemma EveryBattle(sqrt: real -> real, log: seq<Entry>, r: RoomId)
    requires FreshStarts(log) && r in Replay(sqrt, log).rooms
    ensures Conserved(Replay(sqrt, log).rooms[r].players)
    ensures LifeOf(sqrt, log, r).Some? && var life := LifeOf(sqrt, log, r).value;
              && Spaced(CastLog(sqrt, life.birth, life.events, 0))
              && (forall c :: Do(c) in life.events ==> !Accepts(ArenaOf(Replay(sqrt, log), r), c))
  {
    hide Run, Replay, LifeOf, CastLog, Spaced, Conserved, FreshStarts, Fresh, Accepts;
    RoomLife(sqrt, log, r);
    BornFresh(sqrt, log, r);
    var life := LifeOf(sqrt, log, r).value;
    Conservation(sqrt, life.birth, life.events);
    CastSpacing(sqrt, life.birth, life.events, 0);
    forall c | Do(c) in life.events ensures !Accepts(ArenaOf(Replay(sqrt, log), r), c) {
      HistoryIsStale(sqrt, life.birth, life.events, c);
    }
  }

  // ---------------------------------------------------------------- sequence numbers across battles

  function TickAccepts(sqrt: real -> real, w: Worker, order: seq<RoomId>, cmds: seq<Command>,
                       now: RoomId -> int): seq<Command>
    requires Visits(w, order)
    decreases |order|
  {
    if order == [] then []
    else
      TurnAccepts(sqrt, w, order[0], cmds, now(order[0]))
      + TickAccepts(sqrt, TickRoom(sqrt, w, order[0], cmds, now(order[0])), order[1..], cmds, now)
  }

  /** Every command the worker ever accepted, in all its rooms and battles, in order. */
  function AcceptedBy(sqrt: real -> real, log: seq<Entry>): seq<Command> {
    if log == [] then []
    else
      var w, e := Replay(sqrt, log[..|log| - 1]), log[|log| - 1];
      AcceptedBy(sqrt, log[..|log| - 1])
      + if e.Ticked? && Visits(w, e.order) then TickAccepts(sqrt, w, e.order, e.cmds, e.now) else []
  }

  lemma {:induction false} TickAdvances(sqrt: real -> real, w: Worker, order: seq<RoomId>, cmds: seq<Command>,
                                        now: RoomId -> int)
    requires Visits(w, order)
    ensures Advances(w.lastSeq, TickAccepts(sqrt, w, order, cmds, now),
                     TickRooms(sqrt, w, order, cmds, now).lastSeq)
    decreases |order|
  {
    hide TickRoom, TurnAccepts, Advances;
    if order == [] {
      AdvanceNowhere(w.lastSeq);
    } else {
      var w1 := TickRoom(sqrt, w, order[0], cmds, now(order[0]));
      TurnAdvances(sqrt, w, order[0], cmds, now(order[0]));
      TickAdvances(sqrt, w1, order[1..], cmds, now);
      AdvancesCompose(w.lastSeq, TurnAccepts(sqrt, w, order[0], cmds, now(order[0])), w1.lastSeq,
                      TickAccepts(sqrt, w1, order[1..], cmds, now),
                      TickRooms(sqrt, w1, order[1..], cmds, now).lastSeq);
    }
  }

  /** The numbers accepted from a player rise across all its battles on a worker, and nothing else is remembered. */
  lemma {:induction false} AcrossBattles(sqrt: real -> real, log: seq<Entry>)
    ensures Advances(map[], AcceptedBy(sqrt, log), Replay(sqrt, log).lastSeq)
    decreases |log|
  {
    hide Advances, TickRooms, TickAccepts;
    if log == [] {
      AdvanceNowhere(map[]);
    } else {
      var w, e := Replay(sqrt, log[..|log| - 1]), log[|log| - 1];
      AcrossBattles(sqrt, log[..|log| - 1]);
      var more := if e.Ticked? && Visits(w, e.order) then TickAccepts(sqrt, w, e.order, e.cmds, e.now) else [];
      if e.Ticked? && Visits(w, e.order) {
        TickAdvances(sqrt, w, e.order, e.cmds, e.now);
      } else {
        AdvanceNowhere(w.lastSeq);
      }
      AdvancesCompose(map[], AcceptedBy(sqrt, log[..|log| - 1]), w.lastSeq, more, Replay(sqrt, log).lastSeq);
    }
  }

  /**
    A living player's command is accepted exactly if its number is above all those the worker ever accepted from
    the player, in this battle or an earlier one.
   */
  lemma AcceptedIffNewest(sqrt: real -> real, log: seq<Entry>, r: RoomId, cmd: Command)
    requires r in Replay(sqrt, log).rooms
    requires var players := Replay(sqrt, log).rooms[r].players; cmd.player in players && players[cmd.player].alive
    ensures Accepts(ArenaOf(Replay(sqrt, log), r), cmd) <==>
            forall c :: c in AcceptedBy(sqrt, log) && c.player == cmd.player ==> c.sequence < cmd.sequence
  {
    hide Replay, AcceptedBy;
    var before: map<PlayerId, u64>, accepted, lastSeq := map[], AcceptedBy(sqrt, log), Replay(sqrt, log).lastSeq;
    AcrossBattles(sqrt, log);
    assert !Passed(before, cmd.player, cmd.sequence);
    assert Duplicate(lastSeq, cmd) <==> Passed(lastSeq, cmd.player, cmd.sequence);
    assert Passed(lastSeq, cmd.player, cmd.sequence) <==> Reached(accepted, cmd.player, cmd.sequence);
  }

  /** So a client that starts counting anew in its next battle on the worker is ignored at first. */
  lemma RestartIgnored(sqrt: real -> real, players: Players, cmd: Command, now: RoomId -> int)
    requires Fresh(players) && cmd.player in players
    ensures var log := [Applied(AddRoom(1, players)), Ticked([1], [cmd], now),
                        Applied(RemoveRoom(1)), Applied(AddRoom(2, players))];
            var w := Replay(sqrt, log);
            && w.rooms.Keys == {2} && w.rooms[2].players == players && w.rooms[2].players[cmd.player].alive
            && !Accepts(ArenaOf(w, 2), cmd)
  {
    hide Replay, Perform, Accepts, ArenaOf;
    var a, b, c, d := Applied(AddRoom(1, players)), Ticked([1], [cmd], now),
                      Applied(RemoveRoom(1)), Applied(AddRoom(2, players));
    var w := Worker(map[1 := RoomState(players, map[])], map[], map[]);
    FourDone(sqrt, a, b, c, d);
    FirstRoom(sqrt, players);
    FirstTick(sqrt, players, cmd, now);
    NextBattle(sqrt, Perform(sqrt, w, b), players, cmd);
  }

  lemma FourDone(sqrt: real -> real, a: Entry, b: Entry, c: Entry, d: Entry)
    ensures Replay(sqrt, [a, b, c, d])
         == Perform(sqrt, Perform(sqrt, Perform(sqrt, Perform(sqrt, IDLE, a), b), c), d)
  {
    hide Replay, Perform;
    NothingDone(sqrt);
    ReplayMore(sqrt, [], a);
    ReplayMore(sqrt, [a], b);
    ReplayMore(sqrt, [a, b], c);
    ReplayMore(sqrt, [a, b, c], d);
    assert [] + [a] == [a] && [a] + [b] == [a, b] && [a, b] + [c] == [a, b, c] && [a, b, c] + [d] == [a, b, c, d];
  }

  lemma FirstRoom(sqrt: real -> real, players: Players)
    ensures Perform(sqrt, IDLE, Applied(AddRoom(1, players)))
         == Worker(map[1 := RoomState(players, map[])], map[], map[])
  {
  }

  lemma NextBattle(sqrt: real -> real, w: Worker, players: Players, cmd: Command)
    requires w.rooms.Keys == {1} && w.lastSeq == map[cmd.player := cmd.sequence]
    requires Fresh(players) && cmd.player in players
    ensures var w' := Perform(sqrt, Perform(sqrt, w, Applied(RemoveRoom(1))), Applied(AddRoom(2, players)));
            && w'.rooms.Keys == {2} && w'.rooms[2].players == players && w'.rooms[2].players[cmd.player].alive
            && !Accepts(ArenaOf(w', 2), cmd)
  {
  }

  lemma NothingDone(sqrt: real -> real)
    ensures Replay(sqrt, []) == IDLE
  {
  }

  lemma FirstTick(sqrt: real -> real, players: Players, cmd: Command, now: RoomId -> int)
    requires Fresh(players) && cmd.player in players
    ensures var w := Perform(sqrt, Worker(map[1 := RoomState(players, map[])], map[], map[]), Ticked([1], [cmd], now));
            w.rooms.Keys == {1} && w.lastSeq == map[cmd.player := cmd.sequence]
  {
    hide Execute, Cooled;
    var w := Worker(map[1 := RoomState(players, map[])], map[], map[]);
    assert TickRooms(sqrt, w, [1], [cmd], now) == TickRoom(sqrt, w, 1, [cmd], now(1));
    assert ApplyAll(sqrt, ArenaOf(w, 1), [cmd]) == Apply(sqrt, ArenaOf(w, 1), cmd);
  }
}
