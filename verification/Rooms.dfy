/** A waiting room and the table of rooms, src/game/room.cpp and src/game/room_manager.cpp. */
module Rooms {
  import opened Bytes

  datatype State = Created | Waiting | Loading | Running | Settling | Destroyed

  datatype Member = Member(username: string, ready: bool)

  datatype RoomData = RoomData(state: State, capacity: int, readyCount: int, players: map<PlayerId, Member>) {
    predicate Full() { |players| >= capacity }
    predicate AllReady() { readyCount == |players| && players != map[] }
  }

  const ADDED := 0
  const ROOM_FULL := 40002
  const WRONG_STATE := 40003

  function AddCode(r: RoomData): int {
    if r.state != Created && r.state != Waiting then WRONG_STATE else if r.Full() then ROOM_FULL else ADDED
  }

  function AddPlayer(r: RoomData, p: PlayerId, username: string): RoomData {
    if AddCode(r) != ADDED then r
    else r.(players := r.players[p := Member(username, false)], state := Waiting)
  }

  function RemovePlayer(r: RoomData, p: PlayerId): RoomData {
    if p !in r.players then r
    else r.(players := r.players - {p}, readyCount := if r.players[p].ready then r.readyCount - 1 else r.readyCount)
  }

  function PlayerReady(r: RoomData, p: PlayerId): RoomData {
    if p !in r.players || r.players[p].ready then r
    else r.(players := r.players[p := r.players[p].(ready := true)], readyCount := r.readyCount + 1)
  }

  function StartLoading(r: RoomData): RoomData {
    if r.state == Waiting && r.Full() then r.(state := Loading) else r
  }

  function StartBattle(r: RoomData): RoomData {
    if r.state == Loading && r.AllReady() then r.(state := Running) else r
  }

  function EndBattle(r: RoomData): RoomData {
    if r.state == Running then r.(state := Settling) else r
  }

  function Destroy(r: RoomData): RoomData {
    r.(state := Destroyed, players := map[])
  }

  // ---------------------------------------------------------------- the ready counter

  function ReadyOnes(r: RoomData): set<PlayerId> {
    set p | p in r.players && r.players[p].ready
  }

  /** The counter counts the ready members. */
  ghost predicate Counted(r: RoomData) {
    r.readyCount == |ReadyOnes(r)|
  }

  /** Then the room is ready exactly if it has members and all of them are. */
  lemma AllReadyMeans(r: RoomData)
    requires Counted(r)
    ensures r.AllReady() <==> r.players != map[] && forall p :: p in r.players ==> r.players[p].ready
  {
    var ready, all := ReadyOnes(r), r.players.Keys;
    assert ready <= all;
    if |ready| == |all| {
      SubsetOfSameSize(ready, all);
      assert forall p :: p in r.players ==> p in ready;
    }
    if forall p :: p in r.players ==> r.players[p].ready {
      assert ready == all;
    }
  }

  lemma SubsetOfSameSize(a: set<PlayerId>, b: set<PlayerId>)
    requires a <= b && |a| == |b|
    ensures a == b
  {
    assert |b - a| == |b| - |a|;
  }

  lemma RemoveCounts(r: RoomData, p: PlayerId)
    requires Counted(r)
    ensures Counted(RemovePlayer(r, p)) && RemovePlayer(r, p).players == r.players - {p}
    ensures RemovePlayer(r, p).state == r.state && RemovePlayer(r, p).capacity == r.capacity
  {
    if p in r.players {
      assert ReadyOnes(RemovePlayer(r, p)) == ReadyOnes(r) - {p};
    }
  }

  lemma ReadyCounts(r: RoomData, p: PlayerId)
    requires Counted(r)
    ensures Counted(PlayerReady(r, p)) && PlayerReady(r, p).state == r.state
    ensures PlayerReady(r, p).players ==
              if p in r.players then r.players[p := r.players[p].(ready := true)] else r.players
  {
    if p in r.players && !r.players[p].ready {
      assert ReadyOnes(PlayerReady(r, p)) == ReadyOnes(r) + {p};
    }
  }

  /** Adding keeps the counter right exactly unless it resets the flag of a member that was ready. */
  lemma AddCountsIff(r: RoomData, p: PlayerId, username: string)
    requires Counted(r)
    ensures Counted(AddPlayer(r, p, username)) <==> AddCode(r) != ADDED || p !in ReadyOnes(r)
  {
    if AddCode(r) == ADDED {
      assert ReadyOnes(AddPlayer(r, p, username)) == ReadyOnes(r) - {p};
    }
  }

  /** Destroying keeps it right exactly if nobody was ready: the members go, the counter stays. */
  lemma DestroyCountsIff(r: RoomData)
    requires Counted(r)
    ensures Counted(Destroy(r)) <==> ReadyOnes(r) == {}
    ensures Destroy(r).state == Destroyed && Destroy(r).players == map[]
  {
  }

  /** A ready member enters again and gets ready again: the counter is at two, and the room is never all ready. */
  lemma ReenterExample()
    ensures var r := RoomData(Waiting, 2, 1, map[7 := Member("seven", true)]);
            var again := PlayerReady(AddPlayer(r, 7, "seven"), 7);
            Counted(r) && r.AllReady() && again.players == r.players && !Counted(again) && !again.AllReady()
  {
    var r := RoomData(Waiting, 2, 1, map[7 := Member("seven", true)]);
    assert ReadyOnes(r) == {7};
    assert AddPlayer(r, 7, "seven") == r.(players := map[7 := Member("seven", false)]);
    assert PlayerReady(AddPlayer(r, 7, "seven"), 7) == RoomData(Waiting, 2, 2, r.players);
  }

  lemma DestroyExample()
    ensures var r := RoomData(Running, 1, 1, map[7 := Member("seven", true)]);
            Counted(r) && Destroy(r).players == map[] && Destroy(r).readyCount == 1
  {
    var r := RoomData(Running, 1, 1, map[7 := Member("seven", true)]);
    assert ReadyOnes(r) == {7};
  }

  // ---------------------------------------------------------------- entering and moving on

  function AddAll(r: RoomData, ps: seq<PlayerId>, names: PlayerId -> string): RoomData {
    if ps == [] then r else AddPlayer(AddAll(r, ps[..|ps| - 1], names), ps[|ps| - 1], names(ps[|ps| - 1]))
  }

  function Firsts(ps: seq<PlayerId>, n: nat): set<PlayerId> {
    set p | p in ps[..Min(n, |ps|)]
  }

  /** The room after these players tried to enter: the first ones are in, by name and not ready. */
  ghost predicate Took(r: RoomData, capacity: nat, ps: seq<PlayerId>, names: PlayerId -> string) {
    && r.players.Keys == Firsts(ps, capacity) && |r.players| == Min(|ps|, capacity)
    && (forall p :: p in r.players ==> r.players[p] == Member(names(p), false))
    && r.state == (if Min(|ps|, capacity) == 0 then Created else Waiting)
    && r.readyCount == 0 && r.capacity == capacity
  }

  /** A new room takes as many different players as it has places, first come first served, and refuses the rest. */
  lemma {:induction false} FirstComeFirstServed(capacity: nat, ps: seq<PlayerId>, names: PlayerId -> string)
    requires Distinct(ps)
    ensures var r := AddAll(RoomData(Created, capacity, 0, map[]), ps, names);
            Took(r, capacity, ps, names) && AddCode(r) == if |ps| < capacity then 0 else 40002
    decreases |ps|
  {
    hide Firsts;
    if ps == [] {
      NobodyFirst(capacity);
    } else {
      var n := |ps| - 1;
      FirstComeFirstServed(capacity, ps[..n], names);
      hide Took, AddPlayer, AddCode;
      var before := AddAll(RoomData(Created, capacity, 0, map[]), ps[..n], names);
      OneMoreTry(before, capacity, ps, names);
      Answer(AddPlayer(before, ps[n], names(ps[n])), capacity, ps, names);
    }
  }

  lemma Answer(r: RoomData, capacity: nat, ps: seq<PlayerId>, names: PlayerId -> string)
    requires Took(r, capacity, ps, names)
    ensures AddCode(r) == if |ps| < capacity then 0 else 40002
  {
  }

  lemma OneMoreTry(before: RoomData, capacity: nat, ps: seq<PlayerId>, names: PlayerId -> string)
    requires ps != [] && Distinct(ps) && Took(before, capacity, ps[..|ps| - 1], names)
    ensures var p := ps[|ps| - 1]; Took(AddPlayer(before, p, names(p)), capacity, ps, names)
  {
    hide Firsts;
    var n := |ps| - 1;
    var p := ps[n];
    OneMoreEntry(ps, capacity);
    Answer(before, capacity, ps[..n], names);
    if n < capacity {
      OneMoreMember(before.players, p, Member(names(p), false));
    }
  }

  lemma NobodyFirst(n: nat)
    ensures Firsts([], n) == {}
  {
  }

  lemma OneMoreMember(m: map<PlayerId, Member>, p: PlayerId, v: Member)
    requires p !in m
    ensures |m[p := v]| == |m| + 1
  {
  }

  lemma OneMoreEntry(ps: seq<PlayerId>, capacity: nat)
    requires ps != [] && Distinct(ps)
    ensures var n := |ps| - 1;
            && Firsts(ps, capacity) == Firsts(ps[..n], capacity) + (if n < capacity then {ps[n]} else {})
            && (n < capacity ==> ps[n] !in Firsts(ps[..n], capacity))
  {
    var n := |ps| - 1;
    if n < capacity {
      assert ps[..Min(capacity, |ps|)] == ps[..n] + [ps[n]];
      assert ps[..n][..Min(capacity, n)] == ps[..n];
    } else {
      assert ps[..Min(capacity, |ps|)] == ps[..n][..Min(capacity, n)];
    }
  }

  /** Into a room of two: 0, 0, then 40002; and 40003 once the room is loading. */
  lemma RoomOfTwo(names: PlayerId -> string)
    ensures var r := AddAll(RoomData(Created, 2, 0, map[]), [7, 8], names);
            && AddCode(AddAll(RoomData(Created, 2, 0, map[]), [7], names)) == 0
            && AddCode(r) == 40002 && AddCode(StartLoading(r)) == 40003
  {
    var empty := RoomData(Created, 2, 0, map[]);
    FirstComeFirstServed(2, [7], names);
    FirstComeFirstServed(2, [7, 8], names);
  }

  /** While the counter is right: which rooms move on, and that only the state changes. */
  lemma MovesOn(r: RoomData)
    requires Counted(r)
    ensures StartLoading(r) == if r.state == Waiting && |r.players| >= r.capacity then r.(state := Loading) else r
    ensures StartBattle(r) ==
              if r.state == Loading && r.players != map[] && (forall p :: p in r.players ==> r.players[p].ready)
              then r.(state := Running) else r
    ensures EndBattle(r) == if r.state == Running then r.(state := Settling) else r
  {
    AllReadyMeans(r);
  }

  // ---------------------------------------------------------------- the objects

  class Room {
    var state: State
    const capacity: int
    var readyCount: int
    var players: map<PlayerId, Member>

    function Data(): RoomData
      reads this
    {
      RoomData(state, capacity, readyCount, players)
    }

    constructor (capacity: int)
      ensures Data() == RoomData(Created, capacity, 0, map[])
    {
      this.capacity := capacity;
      state, readyCount, players := Created, 0, map[];
    }

    method Add(p: PlayerId, username: string) returns (code: int)
      modifies this
      ensures Data() == AddPlayer(old(Data()), p, username) && code == AddCode(old(Data()))
    {
      if state != Created && state != Waiting {
        return WRONG_STATE;
      }
      if |players| >= capacity {
        return ROOM_FULL;
      }
      players := players[p := Member(username, false)];
      if state == Created {
        state := Waiting;
      }
      return ADDED;
    }

    method Remove(p: PlayerId)
      modifies this
      ensures Data() == RemovePlayer(old(Data()), p)
    {
      if p !in players {
        return;
      }
      if players[p].ready {
        readyCount := readyCount - 1;
      }
      players := players - {p};
    }

    method Ready(p: PlayerId)
      modifies this
      ensures Data() == PlayerReady(old(Data()), p)
    {
      if p in players && !players[p].ready {
        players := players[p := players[p].(ready := true)];
        readyCount := readyCount + 1;
      }
    }

    method BeginLoading()
      modifies this
      ensures Data() == StartLoading(old(Data()))
    {
      if state == Waiting && |players| >= capacity {
        state := Loading;
      }
    }

    method BeginBattle()
      modifies this
      ensures Data() == StartBattle(old(Data()))
    {
      if state == Loading && readyCount == |players| && players != map[] {
        state := Running;
      }
    }

    method FinishBattle()
      modifies this
      ensures Data() == EndBattle(old(Data()))
    {
      if state == Running {
        state := Settling;
      }
    }

    method TearDown()
      modifies this
      ensures Data() == Destroy(old(Data()))
    {
      state := Destroyed;
      players := map[];
    }
  }

  class RoomManager {
    var rooms: map<RoomId, Room>
    var nextRoom: RoomId
    ghost var data: map<RoomId, RoomData>

    ghost predicate Valid()
      reads this, rooms.Values
    {
      && nextRoom > 0 && rooms.Keys == data.Keys
      && (forall r :: r in rooms ==> 0 < r < nextRoom && rooms[r].Data() == data[r])
      && (forall r, q :: r in rooms && q in rooms && r != q ==> rooms[r] != rooms[q])
    }

    constructor ()
      ensures Valid() && rooms == map[] && nextRoom == 1
    {
      rooms, nextRoom, data := map[], 1, map[];
    }

    /** Room ids are never reused. */
    method CreateRoom(capacity: int) returns (id: RoomId)
      requires Valid()
      modifies this
      ensures Valid() && id == old(nextRoom) && nextRoom == id + 1
      ensures id in rooms && fresh(rooms[id]) && rooms == old(rooms)[id := rooms[id]]
      ensures data == old(data)[id := RoomData(Created, capacity, 0, map[])]
    {
      id := nextRoom;
      nextRoom := nextRoom + 1;
      var room := new Room(capacity);
      rooms := rooms[id := room];
      data := data[id := RoomData(Created, capacity, 0, map[])];
    }

    /** getRoom(id)->addPlayer(p, username) */
    method AddTo(id: RoomId, p: PlayerId, username: string) returns (code: int)
      requires Valid() && id in rooms
      modifies this`data, rooms[id]
      ensures Valid() && code == AddCode(old(data)[id])
      ensures data == old(data)[id := AddPlayer(old(data)[id], p, username)]
    {
      code := rooms[id].Add(p, username);
      data := data[id := rooms[id].Data()];
    }
  }
}
