/** The matchmaker as the object it is, src/game/match_manager.cpp, over the room table and the session manager. */
module MatchManager {
  import opened Bytes
  import opened Matching
  import S = Sessions
  import R = Rooms

  class MatchManager {
    const rooms: R.RoomManager
    const sessions: S.SessionManager
    const roomSize: nat
    var queues: map<int, seq<PlayerId>>

    ghost predicate Valid()
      reads this, rooms, rooms.rooms.Values
    {
      rooms.Valid()
    }

    ghost function Model(): Lobby
      reads this, rooms, sessions
    {
      Lobby(sessions.Model(), rooms.data, rooms.nextRoom, queues)
    }

    constructor (rooms: R.RoomManager, sessions: S.SessionManager, roomSize: nat)
      requires rooms.Valid()
      ensures this.rooms == rooms && this.sessions == sessions && this.roomSize == roomSize
      ensures Valid() && queues == map[]
    {
      this.rooms, this.sessions, this.roomSize := rooms, sessions, roomSize;
      queues := map[];
    }

    /** redis LLEN */
    function Waiting(mode: int): (n: nat)
      reads this
    {
      if mode in queues then |queues[mode]| else 0
    }

    /** redis BRPOP: the oldest entry. */
    method Pop(mode: int) returns (p: PlayerId)
      requires Waiting(mode) > 0
      modifies this
      ensures p == old(queues)[mode][0] && queues == old(queues)[mode := old(queues)[mode][1..]]
    {
      p := queues[mode][0];
      queues := queues[mode := queues[mode][1..]];
    }

    /** One iteration of the inner loop, after the pop. */
    method SeatPlayer(id: RoomId, p: PlayerId)
      requires Valid() && id in rooms.rooms
      modifies rooms`data, rooms.rooms[id], sessions
      ensures Valid() && Model() == Seat(old(Model()), id, p)
    {
      hide S.SetState, S.SetCurrentRoom, R.AddPlayer, R.RoomManager.Valid;
      if p in sessions.playerMap && sessions.playerMap[p] in sessions.sessions {
        var s := sessions.playerMap[p];
        var _ := rooms.AddTo(id, p, sessions.sessions[s].username);
        SeatSession(s, id);
      }
    }

    method SeatSession(s: S.SessionId, id: RoomId)
      requires Valid()
      modifies sessions
      ensures Valid() && rooms.data == old(rooms.data) && rooms.nextRoom == old(rooms.nextRoom)
      ensures sessions.Model() == S.SetCurrentRoom(S.SetState(old(sessions.Model()), s, S.InRoom), s, id)
    {
      hide S.SetState, S.SetCurrentRoom, R.RoomManager.Valid;
      var _ := sessions.DoSetState(s, S.InRoom);
      var _ := sessions.DoSetCurrentRoom(s, id);
    }

    method PopAndSeat(id: RoomId, mode: int)
      requires Valid() && id in rooms.rooms && Waiting(mode) > 0
      modifies this, rooms`data, rooms.rooms[id], sessions
      ensures Valid() && Model() == Popped(Seat(old(Model()), id, old(queues)[mode][0]), mode)
    {
      hide Seat;
      ghost var before := Model();
      var p := Pop(mode);
      SeatIgnoresQueues(before, queues, id, p);
      SeatQueues(before, id, p);
      SeatPlayer(id, p);
    }

    /** The inner loop: pop and seat one batch. */
    method Fill(id: RoomId, mode: int)
      requires Valid() && id in rooms.rooms && Waiting(mode) >= roomSize && mode in queues
      modifies this, rooms`data, rooms.rooms[id], sessions
      ensures Valid()
      ensures var q := old(queues)[mode];
              Model() == SeatAll(old(Model()).(queues := old(queues)[mode := q[roomSize..]]), id, q[..roomSize])
    {
      hide Seat, SeatAll, Filling, Popped;
      ghost var start := Model();
      FillStart(start, id, mode, roomSize);
      for i := 0 to roomSize
        invariant Valid() && rooms.rooms == old(rooms.rooms)
        invariant Filling(start, Model(), id, mode, roomSize, i)
      {
        FillStep(start, Model(), id, mode, roomSize, i);
        PopAndSeat(id, mode);
      }
      FillEnd(start, Model(), id, mode, roomSize);
    }

    /** The body of the outer loop: one new room, filled. */
    method FormOne(mode: int)
      requires Valid() && 1 <= roomSize <= Waiting(mode)
      modifies this, rooms, sessions
      ensures Valid() && Model() == FormRoom(old(Model()), mode, roomSize)
    {
      hide SeatAll;
      var id := rooms.CreateRoom(roomSize);
      Fill(id, mode);
    }

    /** Form rooms until too few players wait; terminates because each room takes a full batch off the queue. */
    method TryMatchAll(mode: int) returns (formed: nat)
      requires Valid() && roomSize >= 1
      modifies this, rooms, sessions
      ensures Valid() && Model() == TryMatch(old(Model()), mode, roomSize)
      ensures rooms.nextRoom == old(rooms.nextRoom) + formed
    {
      hide FormRoom;
      formed := 0;
      while Waiting(mode) >= roomSize
        invariant Valid() && TryMatch(Model(), mode, roomSize) == TryMatch(old(Model()), mode, roomSize)
        invariant rooms.nextRoom == old(rooms.nextRoom) + formed
        decreases Waiting(mode)
      {
        FormRoomShrinks(Model(), mode, roomSize);
        FormOne(mode);
        formed := formed + 1;
      }
    }
  }

  function Popped(l: Lobby, mode: int): Lobby
    requires QueueOf(l, mode) != []
  {
    l.(queues := l.queues[mode := QueueOf(l, mode)[1..]])
  }

  lemma FormRoomShrinks(l: Lobby, mode: int, size: nat)
    requires 1 <= size <= |QueueOf(l, mode)|
    ensures var r := FormRoom(l, mode, size);
            |QueueOf(r, mode)| < |QueueOf(l, mode)| && r.nextRoom == l.nextRoom + 1
  {
    hide SeatAll;
    SeatAllFrame(l.(rooms := l.rooms[l.nextRoom := R.RoomData(R.Created, size, 0, map[])],
                    nextRoom := l.nextRoom + 1, queues := l.queues[mode := QueueOf(l, mode)[size..]]),
                 l.nextRoom, QueueOf(l, mode)[..size]);
  }

  /** The batch starting at `start` is seated up to index `i`, leaving `now`. */
  ghost predicate Filling(start: Lobby, now: Lobby, id: RoomId, mode: int, size: nat, i: nat) {
    && id in start.rooms && id in now.rooms && mode in start.queues && mode in now.queues
    && i <= size <= |QueueOf(start, mode)|
    && var q := QueueOf(start, mode);
       var after := start.queues[mode := q[size..]];
       && QueueOf(now, mode) == q[i..] && now.queues[mode := q[size..]] == after
       && SeatAll(now.(queues := after), id, q[..size][i..]) == SeatAll(start.(queues := after), id, q[..size])
  }

  lemma FillStart(l: Lobby, id: RoomId, mode: int, size: nat)
    requires id in l.rooms && mode in l.queues && size <= |QueueOf(l, mode)|
    ensures Filling(l, l, id, mode, size, 0)
  {
  }

  lemma FillStep(start: Lobby, now: Lobby, id: RoomId, mode: int, size: nat, i: nat)
    requires Filling(start, now, id, mode, size, i) && i < size
    ensures |QueueOf(now, mode)| > 0
    ensures var p := QueueOf(now, mode)[0];
            && QueueOf(Seat(now, id, p), mode) != []
            && Filling(start, Popped(Seat(now, id, p), mode), id, mode, size, i + 1)
  {
  }

  lemma FillEnd(start: Lobby, now: Lobby, id: RoomId, mode: int, size: nat)
    requires Filling(start, now, id, mode, size, size)
    ensures var q := QueueOf(start, mode);
            now == SeatAll(start.(queues := start.queues[mode := q[size..]]), id, q[..size])
  {
  }

  lemma SeatQueues(l: Lobby, id: RoomId, p: PlayerId)
    requires id in l.rooms
    ensures Seat(l, id, p).queues == l.queues && id in Seat(l, id, p).rooms
  {
  }

  lemma SeatIgnoresQueues(l: Lobby, queues: map<int, seq<PlayerId>>, room: RoomId, p: PlayerId)
    requires room in l.rooms
    ensures Seat(l.(queues := queues), room, p) == Seat(l, room, p).(queues := queues)
  {
  }
}
