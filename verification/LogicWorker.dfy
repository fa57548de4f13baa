/**
  A logic worker, src/game/logic_worker.cpp: it owns rooms, changes them only through its queue of pending
  operations, and ticks them one after the other in the order of an unordered map.
 */
module LogicWorker {
  import opened Bytes
  import opened Battle
  import opened TickEngine
  import AoiGrid

  /** `disconnected` maps a player to the time, in ms, at which its disconnection was applied. */
  datatype RoomState = RoomState(players: Players, disconnected: map<PlayerId, int>)

  type Rooms = map<RoomId, RoomState>

  // ---------------------------------------------------------------- pending operations

  /** `stamp` is the reading of the clock when the operation is applied. */
  datatype PendingOp =
    | AddRoom(room: RoomId, players: Players)
    | RemoveRoom(room: RoomId)
    | MarkDisconnected(room: RoomId, player: PlayerId, stamp: int)

  function ApplyOp(rooms: Rooms, op: PendingOp): Rooms {
    match op
    case AddRoom(room, players) => rooms[room := RoomState(players, map[])]
    case RemoveRoom(room) => rooms - {room}
    case MarkDisconnected(room, player, stamp) =>
      if room in rooms
      then rooms[room := rooms[room].(disconnected := rooms[room].disconnected[player := stamp])]
      else rooms
  }

  function ApplyOps(rooms: Rooms, ops: seq<PendingOp>): Rooms
    decreases |ops|
  {
    if ops == [] then rooms else ApplyOps(ApplyOp(rooms, ops[0]), ops[1..])
  }

  // ---------------------------------------------------------------- one tick over all rooms

  /** What a worker holds: its rooms, the shared sequence numbers and the positions known to the shared grid. */
  datatype Worker = Worker(rooms: Rooms, lastSeq: map<PlayerId, u64>, at: AoiGrid.Positions)

  const DISCONNECT_LIMIT_SEC := 30

  function Overdue(room: RoomState, now: int): set<PlayerId> {
    set p | p in room.disconnected && (now - room.disconnected[p]) / 1000 > DISCONNECT_LIMIT_SEC
  }

  /** Players disconnected for more than 30 whole seconds, so for 31 or more, are dead and forgotten. */
  function Expired(room: RoomState, now: int): RoomState {
    var gone := Overdue(room, now);
    RoomState(TimedOut(room.players, gone), room.disconnected - gone)
  }

  function TickRoom(sqrt: real -> real, w: Worker, r: RoomId, cmds: seq<Command>, now: int): (w': Worker)
    requires r in w.rooms
    ensures w'.rooms.Keys == w.rooms.Keys
  {
    var a := Tick(sqrt, Arena(w.rooms[r].players, w.lastSeq), cmds);
    Worker(w.rooms[r := Expired(w.rooms[r].(players := a.players), now)], a.lastSeq, w.at + PositionsOf(a.players))
  }

  /** A room of the worker, with the shared sequence numbers. */
  function ArenaOf(w: Worker, r: RoomId): Arena
    requires r in w.rooms
  {
    Arena(w.rooms[r].players, w.lastSeq)
  }

  /** A worker's tick as one of its rooms sees it: the commands, the end of the tick, and a timeout. */
  function RoomEvents(w: Worker, r: RoomId, cmds: seq<Command>, now: int): seq<Event>
    requires r in w.rooms
  {
    TickEvents(cmds) + [TimeOut(Overdue(w.rooms[r], now))]
  }

  lemma TickRoomIsRun(sqrt: real -> real, w: Worker, r: RoomId, cmds: seq<Command>, now: int)
    requires r in w.rooms
    ensures ArenaOf(TickRoom(sqrt, w, r, cmds, now), r) == Run(sqrt, ArenaOf(w, r), RoomEvents(w, r, cmds, now))
  {
    hide Battle.Tick, TickEvents;
    var a, e := ArenaOf(w, r), TimeOut(Overdue(w.rooms[r], now));
    TickIsRun(sqrt, a, cmds);
    RunConcat(sqrt, a, TickEvents(cmds), [e]);
    assert Run(sqrt, Battle.Tick(sqrt, a, cmds), [e]) == Step(sqrt, Battle.Tick(sqrt, a, cmds), e);
  }

  /**
    A player marked as disconnected is left alone by every tick less than 31 seconds later, and dead and forgotten
    after one that is not. Nobody else is touched, and a room starts without marks.
   */
  lemma MarkDeadline(sqrt: real -> real, w: Worker, r: RoomId, p: PlayerId, stamp: int, cmds: seq<Command>, now: int)
    requires r in w.rooms && p in w.rooms[r].players
    ensures var marked := w.(rooms := ApplyOp(w.rooms, MarkDisconnected(r, p, stamp)));
            && r in marked.rooms
            && var after, room := Tick(sqrt, ArenaOf(w, r), cmds), TickRoom(sqrt, marked, r, cmds, now).rooms[r];
               if now - stamp >= 31000
               then room.players[p] == after.players[p].(alive := false, hp := 0) && p !in room.disconnected
               else room.players[p] == after.players[p] && p in room.disconnected && room.disconnected[p] == stamp
    ensures var after, room := Tick(sqrt, ArenaOf(w, r), cmds), TickRoom(sqrt, w, r, cmds, now).rooms[r];
            forall q :: q in w.rooms[r].players && q !in w.rooms[r].disconnected ==> room.players[q] == after.players[q]
  {
    hide Battle.Tick;
  }

  /** A room starts with the players it is added with and no marks; marks for unknown rooms are dropped. */
  lemma FreshRoom(rooms: Rooms, r: RoomId, players: Players, p: PlayerId, stamp: int)
    ensures ApplyOp(rooms, AddRoom(r, players)) == rooms[r := RoomState(players, map[])]
    ensures r !in ApplyOp(rooms, RemoveRoom(r))
    ensures ApplyOp(ApplyOp(rooms, RemoveRoom(r)), MarkDisconnected(r, p, stamp)) == ApplyOp(rooms, RemoveRoom(r))
  {
  }

  /** The room loop of tick, in the given order; `now` is the clock as each room is checked. */
  function TickRooms(sqrt: real -> real, w: Worker, order: seq<RoomId>, cmds: seq<Command>, now: RoomId -> int): Worker
    requires forall r :: r in order ==> r in w.rooms
    decreases |order|
  {
    if order == [] then w
    else TickRooms(sqrt, TickRoom(sqrt, w, order[0], cmds, now(order[0])), order[1..], cmds, now)
  }

  class LogicWorker {
    const engine: TickEngine
    const aoi: AoiGrid.AoiGrid
    var rooms: Rooms
    var pending: seq<PendingOp>

    ghost predicate Valid()
      reads this, aoi
    {
      aoi.Valid()
    }

    ghost function Model(): Worker
      reads this, engine, aoi
    {
      Worker(rooms, engine.lastSeq, aoi.at)
    }

    constructor (sqrt: real -> real)
      ensures Valid() && fresh(engine) && fresh(aoi) && engine.sqrt == sqrt
      ensures Model() == Worker(map[], map[], map[]) && pending == []
    {
      engine := new TickEngine(sqrt);
      aoi := new AoiGrid.AoiGrid();
      rooms, pending := map[], [];
    }

    method Enqueue(op: PendingOp)
      modifies this`pending
      ensures pending == old(pending) + [op]
    {
      pending := pending + [op];
    }

    /** Apply everything queued, oldest first. */
    method DrainPendingOps()
      modifies this`rooms, this`pending
      ensures pending == [] && rooms == ApplyOps(old(rooms), old(pending))
    {
      while pending != []
        invariant ApplyOps(rooms, pending) == ApplyOps(old(rooms), old(pending))
        decreases |pending|
      {
        var op := pending[0];
        pending := pending[1..];
        rooms := ApplyOp(rooms, op);
      }
    }

    /** The disconnect check at the end of a room's tick. */
    method ExpireRoom(r: RoomId, now: int)
      requires r in rooms
      modifies this`rooms
      ensures rooms == old(rooms)[r := Expired(old(rooms)[r], now)]
    {
      var room := rooms[r];
      var players, disconnected := room.players, room.disconnected;
      var todo := disconnected.Keys;
      while todo != {}
        invariant todo <= room.disconnected.Keys
        invariant players == TimedOut(room.players, Overdue(room, now) - todo)
        invariant disconnected == room.disconnected - (Overdue(room, now) - todo)
        decreases todo
      {
        var p :| p in todo;
        if (now - room.disconnected[p]) / 1000 > DISCONNECT_LIMIT_SEC {
          if p in players {
            players := players[p := players[p].(alive := false, hp := 0)];
          }
          disconnected := disconnected - {p};
        }
        todo := todo - {p};
      }
      assert Overdue(room, now) - {} == Overdue(room, now);
      rooms := rooms[r := RoomState(players, disconnected)];
    }

    /** The body of the room loop. */
    method TickOne(r: RoomId, cmds: seq<Command>, now: int)
      requires Valid() && r in rooms
      modifies this`rooms, engine, aoi
      ensures Valid() && Model() == TickRoom(engine.sqrt, old(Model()), r, cmds, now)
    {
      hide Expired, Battle.Tick, PositionsOf, AoiGrid.Inverse, AoiGrid.CellsOf;
      var players := engine.ProcessTick(rooms[r].players, cmds, aoi);
      rooms := rooms[r := rooms[r].(players := players)];
      ExpireRoom(r, now);
      assert rooms == old(rooms)[r := rooms[r]];
    }

    /** The rooms are visited once each, in whatever order the hash map has. */
    method Tick(cmds: seq<Command>, now: RoomId -> int)
      requires Valid()
      modifies this`rooms, engine, aoi
      ensures Valid()
      ensures exists order: seq<RoomId> :: Enumerates(order, old(rooms).Keys) &&
                Model() == TickRooms(engine.sqrt, old(Model()), order, cmds, now)
      ensures Disjoint(old(rooms)) ==>
                forall order :: Enumerates(order, old(rooms).Keys) ==>
                  Model() == TickRooms(engine.sqrt, old(Model()), order, cmds, now)
    {
      hide TickRoom, AoiGrid.Inverse, AoiGrid.CellsOf;
      var todo := rooms.Keys;
      ghost var order: seq<RoomId> := [];
      while todo != {}
        invariant Valid() && rooms.Keys == old(rooms).Keys
        invariant todo <= rooms.Keys && Enumerates(order, rooms.Keys - todo)
        invariant Model() == TickRooms(engine.sqrt, old(Model()), order, cmds, now)
        decreases todo
      {
        var r :| r in todo;
        TickRoomsAppend(engine.sqrt, old(Model()), order, r, cmds, now);
        EnumerateMore(order, rooms.Keys - todo, r);
        TickOne(r, cmds, now(r));
        order := order + [r];
        assert rooms.Keys - (todo - {r}) == rooms.Keys - todo + {r};
        todo := todo - {r};
      }
      assert rooms.Keys - {} == rooms.Keys;
      if Disjoint(old(rooms)) {
        forall order' | Enumerates(order', old(rooms).Keys)
          ensures Model() == TickRooms(engine.sqrt, old(Model()), order', cmds, now)
        {
          RoomOrderIndependence(engine.sqrt, old(Model()), order, order', cmds, now);
        }
      }
    }
  }

  /** An iteration order of a set of rooms. */
  ghost predicate Enumerates(order: seq<RoomId>, rooms: set<RoomId>) {
    Distinct(order) && forall r :: r in order <==> r in rooms
  }

  lemma EnumerateMore(order: seq<RoomId>, rooms: set<RoomId>, r: RoomId)
    requires Enumerates(order, rooms) && r !in rooms
    ensures Enumerates(order + [r], rooms + {r})
  {
  }

  lemma {:induction false} TickRoomsKeys(sqrt: real -> real, w: Worker, order: seq<RoomId>,
                                         cmds: seq<Command>, now: RoomId -> int)
    requires forall r :: r in order ==> r in w.rooms
    ensures TickRooms(sqrt, w, order, cmds, now).rooms.Keys == w.rooms.Keys
    decreases |order|
  {
    hide TickRoom;
    if order != [] {
      TickRoomsKeys(sqrt, TickRoom(sqrt, w, order[0], cmds, now(order[0])), order[1..], cmds, now);
    }
  }

  lemma {:induction false} TickRoomsAppend(sqrt: real -> real, w: Worker, order: seq<RoomId>, r: RoomId,
                                           cmds: seq<Command>, now: RoomId -> int)
    requires r in w.rooms && forall q :: q in order ==> q in w.rooms
    ensures r in TickRooms(sqrt, w, order, cmds, now).rooms
    ensures TickRooms(sqrt, w, order + [r], cmds, now)
         == TickRoom(sqrt, TickRooms(sqrt, w, order, cmds, now), r, cmds, now(r))
    decreases |order|
  {
    hide TickRoom;
    TickRoomsKeys(sqrt, w, order, cmds, now);
    if order == [] {
      assert order + [r] == [r];
    } else {
      assert (order + [r])[1..] == order[1..] + [r];
      TickRoomsAppend(sqrt, TickRoom(sqrt, w, order[0], cmds, now(order[0])), order[1..], r, cmds, now);
    }
  }

  // ---------------------------------------------------------------- rooms do not disturb each other

  function At<V>(m: map<PlayerId, V>, p: PlayerId): Option<V> {
    if p in m then Some(m[p]) else None
  }

  ghost predicate AgreeOn<V(!new)>(m: map<PlayerId, V>, m': map<PlayerId, V>, ps: set<PlayerId>) {
    forall p :: p in ps ==> At(m, p) == At(m', p)
  }

  ghost predicate AgreeOff<V(!new)>(m: map<PlayerId, V>, m': map<PlayerId, V>, ps: set<PlayerId>) {
    forall p :: p !in ps ==> At(m, p) == At(m', p)
  }

  /** The commands of the given players. */
  function Own(cmds: seq<Command>, ps: set<PlayerId>): seq<Command> {
    if cmds == [] then []
    else (if cmds[0].player in ps then [cmds[0]] else []) + Own(cmds[1..], ps)
  }

  /** A room reads and writes only its own players' sequence numbers. */
  lemma {:induction false} RoomFrame(sqrt: real -> real, players: Players, seq1: map<PlayerId, u64>,
                                     seq2: map<PlayerId, u64>, cmds: seq<Command>)
    requires AgreeOn(seq1, seq2, players.Keys)
    ensures var a, b := ApplyAll(sqrt, Arena(players, seq1), cmds), ApplyAll(sqrt, Arena(players, seq2), cmds);
            && a.players == b.players && AgreeOn(a.lastSeq, b.lastSeq, players.Keys)
            && AgreeOff(a.lastSeq, seq1, players.Keys)
    decreases |cmds|
  {
    hide Execute;
    if cmds != [] {
      assert At(seq1, cmds[0].player) == At(seq2, cmds[0].player) || cmds[0].player !in players;
      var a, b := Apply(sqrt, Arena(players, seq1), cmds[0]), Apply(sqrt, Arena(players, seq2), cmds[0]);
      RoomFrame(sqrt, a.players, a.lastSeq, b.lastSeq, cmds[1..]);
    }
  }

  /** The commands of other rooms' players might as well not be there. */
  lemma {:induction false} OwnCommandsSuffice(sqrt: real -> real, a: Arena, cmds: seq<Command>)
    ensures ApplyAll(sqrt, a, cmds) == ApplyAll(sqrt, a, Own(cmds, a.players.Keys))
    decreases |cmds|
  {
    hide Execute;
    if cmds != [] {
      var b := Apply(sqrt, a, cmds[0]);
      var rest := Own(cmds[1..], a.players.Keys);
      OwnCommandsSuffice(sqrt, b, cmds[1..]);
      if cmds[0].player in a.players {
        ConsTail(cmds[0], rest);
      } else {
        assert [] + rest == rest;
      }
    }
  }

  ghost predicate Disjoint(rooms: Rooms) {
    forall r, q :: r in rooms && q in rooms && r != q ==> rooms[r].players.Keys !! rooms[q].players.Keys
  }

  /** What one room's tick would give alone: only its own commands, from the worker's initial sequence numbers. */
  function Solo(sqrt: real -> real, w: Worker, r: RoomId, cmds: seq<Command>): (a: Arena)
    requires r in w.rooms
    ensures a.players.Keys == w.rooms[r].players.Keys
  {
    var players := w.rooms[r].players;
    Tick(sqrt, Arena(players, w.lastSeq), Own(cmds, players.Keys))
  }

  /** The tick of room `r` has been carried over from `w` to `w'` as if `r` were alone. */
  ghost predicate Done(sqrt: real -> real, w: Worker, w': Worker, r: RoomId, cmds: seq<Command>, now: int)
    requires r in w.rooms
  {
    var a := Solo(sqrt, w, r, cmds);
    && r in w'.rooms && w'.rooms[r] == Expired(w.rooms[r].(players := a.players), now)
    && AgreeOn(w'.lastSeq, a.lastSeq, w.rooms[r].players.Keys)
    && AgreeOn(w'.at, PositionsOf(a.players), w.rooms[r].players.Keys)
  }

  /** Room `r` has not been touched between `w` and `w'`. */
  ghost predicate Untouched(w: Worker, w': Worker, r: RoomId)
    requires r in w.rooms
  {
    && r in w'.rooms && w'.rooms[r] == w.rooms[r]
    && AgreeOn(w'.lastSeq, w.lastSeq, w.rooms[r].players.Keys)
    && AgreeOn(w'.at, w.at, w.rooms[r].players.Keys)
  }

  lemma TickRoomEffect(sqrt: real -> real, w: Worker, r: RoomId, cmds: seq<Command>, now: int)
    requires r in w.rooms
    ensures var w' := TickRoom(sqrt, w, r, cmds, now);
            && Done(sqrt, w, w', r, cmds, now)
            && AgreeOff(w'.lastSeq, w.lastSeq, w.rooms[r].players.Keys)
            && AgreeOff(w'.at, w.at, w.rooms[r].players.Keys)
            && w'.rooms == w.rooms[r := w'.rooms[r]]
            && w'.rooms[r].players.Keys == w.rooms[r].players.Keys
  {
    hide ApplyAll, Cooled;
    var a := Arena(w.rooms[r].players, w.lastSeq);
    OwnCommandsSuffice(sqrt, a, cmds);
    RoomFrame(sqrt, a.players, w.lastSeq, w.lastSeq, cmds);
  }

  /** A room's tick gives the same before and after other rooms have ticked. */
  lemma SoloStable(sqrt: real -> real, w: Worker, w': Worker, r: RoomId, cmds: seq<Command>)
    requires r in w.rooms && Untouched(w, w', r)
    ensures Solo(sqrt, w', r, cmds).players == Solo(sqrt, w, r, cmds).players
    ensures AgreeOn(Solo(sqrt, w', r, cmds).lastSeq, Solo(sqrt, w, r, cmds).lastSeq, w.rooms[r].players.Keys)
  {
    hide ApplyAll;
    var players := w.rooms[r].players;
    RoomFrame(sqrt, players, w'.lastSeq, w.lastSeq, Own(cmds, players.Keys));
  }

  lemma OthersUntouched(sqrt: real -> real, w: Worker, r: RoomId, q: RoomId, cmds: seq<Command>, now: int)
    requires r in w.rooms && q in w.rooms && r != q && Disjoint(w.rooms)
    ensures Untouched(w, TickRoom(sqrt, w, r, cmds, now), q)
    ensures Disjoint(TickRoom(sqrt, w, r, cmds, now).rooms)
  {
    hide TickRoom, Done;
    TickRoomEffect(sqrt, w, r, cmds, now);
  }

  /** After the loop over `order`, its rooms are done as if alone and the other rooms and players untouched. */
  lemma {:induction false} TickRoomsEffect(sqrt: real -> real, w: Worker, order: seq<RoomId>,
                                           cmds: seq<Command>, now: RoomId -> int)
    requires Distinct(order) && Disjoint(w.rooms) && forall r :: r in order ==> r in w.rooms
    ensures var w' := TickRooms(sqrt, w, order, cmds, now);
            && w'.rooms.Keys == w.rooms.Keys
            && (forall r :: r in w.rooms ==>
                 if r in order then Done(sqrt, w, w', r, cmds, now(r)) else Untouched(w, w', r))
            && (forall p :: (forall r :: r in w.rooms ==> p !in w.rooms[r].players) ==>
                 At(w'.lastSeq, p) == At(w.lastSeq, p) && At(w'.at, p) == At(w.at, p))
    decreases |order|
  {
    hide TickRoom, Solo, Expired, PositionsOf, Disjoint;
    if order != [] {
      var r0, rest := order[0], order[1..];
      assert r0 in order;
      var w1 := TickRoom(sqrt, w, r0, cmds, now(r0));
      TickRoomEffect(sqrt, w, r0, cmds, now(r0));
      DisjointAfter(sqrt, w, r0, cmds, now(r0));
      TickRoomsEffect(sqrt, w1, rest, cmds, now);
      var w' := TickRooms(sqrt, w1, rest, cmds, now);
      forall r | r in w.rooms ensures if r in order then Done(sqrt, w, w', r, cmds, now(r)) else Untouched(w, w', r) {
        if r != r0 {
          OthersUntouched(sqrt, w, r0, r, cmds, now(r0));
          SoloStable(sqrt, w, w1, r, cmds);
        }
      }
      forall p | forall r :: r in w.rooms ==> p !in w.rooms[r].players
        ensures At(w'.lastSeq, p) == At(w.lastSeq, p) && At(w'.at, p) == At(w.at, p)
      {
        assert p !in w.rooms[r0].players;
        assert forall r :: r in w1.rooms ==> p !in w1.rooms[r].players;
      }
    }
  }

  lemma DisjointAfter(sqrt: real -> real, w: Worker, r: RoomId, cmds: seq<Command>, now: int)
    requires r in w.rooms && Disjoint(w.rooms)
    ensures Disjoint(TickRoom(sqrt, w, r, cmds, now).rooms)
  {
  }

  lemma SameEverywhere<V>(m: map<PlayerId, V>, m': map<PlayerId, V>)
    requires forall p :: At(m, p) == At(m', p)
    ensures m == m'
  {
    assert forall p :: p in m <==> p in m' by {
      forall p ensures p in m <==> p in m' { assert At(m, p) == At(m', p); }
    }
    assert forall p :: p in m ==> m[p] == m'[p] by {
      forall p | p in m ensures m[p] == m'[p] { assert At(m, p) == At(m', p); }
    }
  }

  /** With disjoint player sets, a worker's tick does not depend on the order in which its rooms are visited. */
  lemma RoomOrderIndependence(sqrt: real -> real, w: Worker, order: seq<RoomId>, order': seq<RoomId>,
                              cmds: seq<Command>, now: RoomId -> int)
    requires Disjoint(w.rooms) && Enumerates(order, w.rooms.Keys) && Enumerates(order', w.rooms.Keys)
    ensures TickRooms(sqrt, w, order, cmds, now) == TickRooms(sqrt, w, order', cmds, now)
  {
    hide TickRooms, Solo, Expired, PositionsOf, Disjoint;
    TickRoomsEffect(sqrt, w, order, cmds, now);
    TickRoomsEffect(sqrt, w, order', cmds, now);
    var u, v := TickRooms(sqrt, w, order, cmds, now), TickRooms(sqrt, w, order', cmds, now);
    forall p ensures At(u.lastSeq, p) == At(v.lastSeq, p) && At(u.at, p) == At(v.at, p) {
      if r :| r in w.rooms && p in w.rooms[r].players {
        assert Done(sqrt, w, u, r, cmds, now(r)) && Done(sqrt, w, v, r, cmds, now(r));
      }
    }
    SameEverywhere(u.lastSeq, v.lastSeq);
    SameEverywhere(u.at, v.at);
    assert u.rooms == v.rooms by {
      forall r | r in u.rooms ensures u.rooms[r] == v.rooms[r] {
        assert Done(sqrt, w, u, r, cmds, now(r)) && Done(sqrt, w, v, r, cmds, now(r));
      }
    }
  }

  /** After a tick the grid knows every room player at its current position. */
  lemma GridIsCurrent(sqrt: real -> real, w: Worker, order: seq<RoomId>, cmds: seq<Command>, now: RoomId -> int)
    requires Disjoint(w.rooms) && Enumerates(order, w.rooms.Keys)
    ensures var w' := TickRooms(sqrt, w, order, cmds, now);
            forall r, p :: r in w'.rooms && p in w'.rooms[r].players ==>
              At(w'.at, p) == Some(AoiGrid.Point(w'.rooms[r].players[p].x, w'.rooms[r].players[p].y))
  {
    hide TickRooms, Solo, Disjoint;
    TickRoomsEffect(sqrt, w, order, cmds, now);
    var w' := TickRooms(sqrt, w, order, cmds, now);
    forall r, p | r in w'.rooms && p in w'.rooms[r].players
      ensures At(w'.at, p) == Some(AoiGrid.Point(w'.rooms[r].players[p].x, w'.rooms[r].players[p].y))
    {
      assert Done(sqrt, w, w', r, cmds, now(r));
      var a := Solo(sqrt, w, r, cmds);
      assert At(w'.at, p) == At(PositionsOf(a.players), p);
    }
  }
}
