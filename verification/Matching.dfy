/**
  Sessions, rooms and match queues together: src/game/match_manager.cpp and the handlers of
  src/game/game_server.cpp that move players between them. A queue is listed oldest player first:
  LPUSH adds at its far end and BRPOP takes from its near end.
 */
module Matching {
  import opened Bytes
  import S = Sessions
  import R = Rooms

  datatype Lobby = Lobby(store: S.Store, rooms: map<RoomId, R.RoomData>, nextRoom: RoomId,
                         queues: map<int, seq<PlayerId>>)

  const EMPTY := Lobby(S.EMPTY, map[], 1, map[])

  function QueueOf(l: Lobby, mode: int): seq<PlayerId> {
    if mode in l.queues then l.queues[mode] else []
  }

  // ---------------------------------------------------------------- matching

  /** One iteration of the inner loop: a player with a session enters the room; others are dropped. */
  function Seat(l: Lobby, room: RoomId, p: PlayerId): Lobby
    requires room in l.rooms
  {
    match S.ByPlayer(l.store, p)
    case None => l
    case Some(id) =>
      l.(rooms := l.rooms[room := R.AddPlayer(l.rooms[room], p, l.store.sessions[id].username)],
         store := S.SetCurrentRoom(S.SetState(l.store, id, S.InRoom), id, room))
  }

  function SeatAll(l: Lobby, room: RoomId, ps: seq<PlayerId>): (r: Lobby)
    requires room in l.rooms
    ensures r.rooms.Keys == l.rooms.Keys
    decreases |ps|
  {
    if ps == [] then l else SeatAll(Seat(l, room, ps[0]), room, ps[1..])
  }

  /** createRoom, then the oldest `size` players of the queue are popped and seated. */
  function FormRoom(l: Lobby, mode: int, size: nat): Lobby
    requires size <= |QueueOf(l, mode)|
  {
    var q := QueueOf(l, mode);
    var l1 := l.(rooms := l.rooms[l.nextRoom := R.RoomData(R.Created, size, 0, map[])],
                 nextRoom := l.nextRoom + 1, queues := l.queues[mode := q[size..]]);
    SeatAll(l1, l.nextRoom, q[..size])
  }

  function TryMatch(l: Lobby, mode: int, size: nat): Lobby
    requires size >= 1
    decreases |QueueOf(l, mode)|
  {
    if |QueueOf(l, mode)| < size then l
    else
      SeatAllFrame(
        l.(rooms := l.rooms[l.nextRoom := R.RoomData(R.Created, size, 0, map[])],
           nextRoom := l.nextRoom + 1, queues := l.queues[mode := QueueOf(l, mode)[size..]]),
        l.nextRoom, QueueOf(l, mode)[..size]);
      TryMatch(FormRoom(l, mode, size), mode, size)
  }

  lemma {:induction false} SeatAllFrame(l: Lobby, room: RoomId, ps: seq<PlayerId>)
    requires room in l.rooms
    ensures var r := SeatAll(l, room, ps);
            && r.queues == l.queues && r.nextRoom == l.nextRoom
            && r.rooms == l.rooms[room := r.rooms[room]]
    decreases |ps|
  {
    if ps != [] {
      SeatAllFrame(Seat(l, room, ps[0]), room, ps[1..]);
    }
  }

  /** A session after its player was given a seat, or none. */
  function Seated(s: S.Session, seat: Option<RoomId>): S.Session {
    if seat.Some? then s.(state := S.InRoom, room := seat.value) else s
  }

  /** The store as far as matching may change it: sessions keep their ids and players. */
  ghost predicate OnlySeats(st: S.Store, st': S.Store, seat: PlayerId -> Option<RoomId>) {
    && st'.playerMap == st.playerMap && st'.sessions.Keys == st.sessions.Keys
    && forall i :: i in st.sessions ==> st'.sessions[i] == Seated(st.sessions[i], seat(st.sessions[i].player))
  }

  function Batch(ps: seq<PlayerId>, room: RoomId): PlayerId -> Option<RoomId> {
    p => if p in ps then Some(room) else None
  }

  predicate HasSession(st: S.Store, p: PlayerId) { S.ByPlayer(st, p).Some? }

  function Present(st: S.Store, ps: seq<PlayerId>): set<PlayerId> {
    set p | p in ps && HasSession(st, p)
  }

  function NameOf(st: S.Store, p: PlayerId): string
    requires HasSession(st, p)
  {
    st.sessions[S.ByPlayer(st, p).value].username
  }

  /** The members a room gets from these players: those with sessions, by name and not ready. */
  function Members(st: S.Store, ps: seq<PlayerId>): (m: map<PlayerId, R.Member>)
    ensures m.Keys == Present(st, ps)
  {
    map p | p in Present(st, ps) :: R.Member(NameOf(st, p), false)
  }

  lemma SeatOnce(l: Lobby, room: RoomId, p: PlayerId)
    requires room in l.rooms && S.PlayersIndexed(l.store)
    ensures var r := Seat(l, room, p);
            && S.PlayersIndexed(r.store)
            && OnlySeats(l.store, r.store, Batch([p], room))
  {
    if HasSession(l.store, p) {
      var id := l.store.playerMap[p];
      forall i | i in l.store.sessions && i != id ensures l.store.sessions[i].player != p {
      }
    }
  }

  lemma SeatsCompose(st: S.Store, st1: S.Store, st2: S.Store, room: RoomId, p: PlayerId, ps: seq<PlayerId>)
    requires OnlySeats(st, st1, Batch([p], room)) && OnlySeats(st1, st2, Batch(ps, room))
    ensures OnlySeats(st, st2, Batch([p] + ps, room))
  {
  }

  /** Seating a batch: with room for all, exactly the players that have a session become members. */
  lemma {:induction false} SeatBatch(l: Lobby, room: RoomId, ps: seq<PlayerId>)
    requires room in l.rooms && S.PlayersIndexed(l.store)
    requires l.rooms[room].state in {R.Created, R.Waiting} && |l.rooms[room].players| + |ps| <= l.rooms[room].capacity
    ensures var r := SeatAll(l, room, ps);
            && S.PlayersIndexed(r.store) && OnlySeats(l.store, r.store, Batch(ps, room))
            && r.rooms[room].players == l.rooms[room].players + Members(l.store, ps)
            && r.rooms[room].capacity == l.rooms[room].capacity
            && r.rooms[room].readyCount == l.rooms[room].readyCount
    decreases |ps|
  {
    hide S.PlayersIndexed, OnlySeats, Members, Present, Seat, HasSession, Batch;
    if ps == [] {
      SeatNobody(l.store, room);
    } else {
      var p, l1 := ps[0], Seat(l, room, ps[0]);
      SeatKeeps(l, room, p);
      SeatOnce(l, room, p);
      SeatRoom(l, room, p);
      SeatBatch(l1, room, ps[1..]);
      SeatsCompose(l.store, l1.store, SeatAll(l1, room, ps[1..]).store, room, p, ps[1..]);
      assert [p] + ps[1..] == ps;
      MembersCons(l.store, l1.store, Batch([p], room), ps, l.rooms[room].players);
    }
  }

  lemma SeatNobody(st: S.Store, room: RoomId)
    ensures OnlySeats(st, st, Batch([], room)) && Members(st, []) == map[]
  {
  }

  lemma SeatKeeps(l: Lobby, room: RoomId, p: PlayerId)
    requires room in l.rooms
    ensures Seat(l, room, p).rooms.Keys == l.rooms.Keys
  {
  }

  lemma SeatRoom(l: Lobby, room: RoomId, p: PlayerId)
    requires room in l.rooms && l.rooms[room].state in {R.Created, R.Waiting}
    requires |l.rooms[room].players| < l.rooms[room].capacity
    ensures var d, d' := l.rooms[room], Seat(l, room, p).rooms[room];
            && d'.players == d.players + Members(l.store, [p])
            && d'.state in {R.Created, R.Waiting} && d'.capacity == d.capacity && d'.readyCount == d.readyCount
            && |d'.players| <= |d.players| + 1
  {
    hide Members, Present, S.SetState, S.SetCurrentRoom;
    var d := l.rooms[room];
    OneMember(l.store, p, d.players);
    if HasSession(l.store, p) {
      OneMoreKey(d.players, p, R.Member(NameOf(l.store, p), false));
    }
  }

  lemma OneMember(st: S.Store, p: PlayerId, m: map<PlayerId, R.Member>)
    ensures m + Members(st, [p]) == if HasSession(st, p) then m[p := R.Member(NameOf(st, p), false)] else m
  {
    hide HasSession, NameOf;
  }

  lemma OneMoreKey(m: map<PlayerId, R.Member>, p: PlayerId, v: R.Member)
    ensures |m[p := v]| <= |m| + 1
  {
  }

  lemma MembersCons(st: S.Store, st': S.Store, seat: PlayerId -> Option<RoomId>, ps: seq<PlayerId>,
                    m: map<PlayerId, R.Member>)
    requires ps != [] && OnlySeats(st, st', seat)
    ensures m + Members(st, ps) == m + Members(st, [ps[0]]) + Members(st', ps[1..])
  {
    hide Members, OnlySeats;
    SameMembers(st, st', seat, ps[1..]);
    MembersSplit(st, ps);
    MergeAssoc(m, Members(st, [ps[0]]), Members(st, ps[1..]));
  }

  lemma MembersSplit(st: S.Store, ps: seq<PlayerId>)
    requires ps != []
    ensures Members(st, ps) == Members(st, [ps[0]]) + Members(st, ps[1..])
  {
    hide HasSession, NameOf;
    assert Present(st, ps) == Present(st, [ps[0]]) + Present(st, ps[1..]);
  }

  lemma MergeAssoc(a: map<PlayerId, R.Member>, b: map<PlayerId, R.Member>, c: map<PlayerId, R.Member>)
    ensures a + (b + c) == a + b + c
  {
  }

  lemma MergeEmpty(m: map<PlayerId, R.Member>)
    ensures map[] + m == m
  {
  }

  /** The seat matching gives a player: that of its last occurrence in a full batch. */
  function SeatOf(q: seq<PlayerId>, size: nat, first: RoomId): PlayerId -> Option<RoomId>
    requires size >= 1
    decreases |q|
  {
    if |q| < size then _ => None
    else
      var later := SeatOf(q[size..], size, first + 1);
      p => if later(p).Some? then later(p) else if p in q[..size] then Some(first) else None
  }

  lemma SeatsCompose'(st: S.Store, st1: S.Store, st2: S.Store, q: seq<PlayerId>, size: nat, first: RoomId)
    requires 1 <= size <= |q|
    requires OnlySeats(st, st1, Batch(q[..size], first)) && OnlySeats(st1, st2, SeatOf(q[size..], size, first + 1))
    ensures OnlySeats(st, st2, SeatOf(q, size, first))
  {
  }

  /** What holds of the k-th room formed from queue `q`. */
  ghost predicate RoomFilled(l: Lobby, st: S.Store, q: seq<PlayerId>, size: nat, first: RoomId, k: nat)
    requires Times(k, size) <= Times(k + 1, size) <= |q|
  {
    && first + k in l.rooms
    && l.rooms[first + k].players == Members(st, q[Times(k, size)..Times(k + 1, size)])
    && l.rooms[first + k].capacity == size && l.rooms[first + k].readyCount == 0
  }

  lemma FormRoomEffect(l: Lobby, mode: int, size: nat)
    requires 1 <= size <= |QueueOf(l, mode)| && S.PlayersIndexed(l.store)
    ensures var q, r := QueueOf(l, mode), FormRoom(l, mode, size);
            && r.nextRoom == l.nextRoom + 1 && r.queues == l.queues[mode := q[size..]]
            && S.PlayersIndexed(r.store) && OnlySeats(l.store, r.store, Batch(q[..size], l.nextRoom))
            && l.nextRoom in r.rooms && r.rooms == l.rooms[l.nextRoom := r.rooms[l.nextRoom]]
            && r.rooms[l.nextRoom].players == Members(l.store, q[..size])
            && r.rooms[l.nextRoom].capacity == size && r.rooms[l.nextRoom].readyCount == 0
  {
    hide S.PlayersIndexed, OnlySeats, SeatAll, Members, Present;
    var q := QueueOf(l, mode);
    var l1 := l.(rooms := l.rooms[l.nextRoom := R.RoomData(R.Created, size, 0, map[])],
                 nextRoom := l.nextRoom + 1, queues := l.queues[mode := q[size..]]);
    SeatAllFrame(l1, l.nextRoom, q[..size]);
    SeatBatch(l1, l.nextRoom, q[..size]);
    MergeEmpty(Members(l.store, q[..size]));
  }

  // ---------------------------------------------------------------- batches

  /** How many full batches `n` players make. */
  function Rounds(n: nat, size: nat): nat
    requires size >= 1
  {
    n / size
  }

  /** How many players `k` batches hold. */
  function Times(k: nat, size: nat): nat { k * size }

  /** How many of `n` queued players are matched. */
  function Matched(n: nat, size: nat): (m: nat)
    requires size >= 1
    ensures m <= n < m + size
  {
    RoundsFit(n, size);
    Times(Rounds(n, size), size)
  }

  lemma RoundsFit(n: nat, size: nat)
    requires size >= 1
    ensures Times(Rounds(n, size), size) <= n < Times(Rounds(n, size), size) + size
  {
    assert n == size * (n / size) + n % size;
  }

  lemma RoundsSmall(n: nat, size: nat)
    requires n < size
    ensures Rounds(n, size) == 0 && Times(0, size) == 0
  {
  }

  lemma TimesNext(k: nat, size: nat)
    ensures Times(k + 1, size) == Times(k, size) + size && Times(0, size) == 0
  {
  }

  lemma {:induction false} TimesGrow(k: nat, k': nat, size: nat)
    requires k <= k'
    ensures Times(k, size) <= Times(k', size)
    decreases k'
  {
    hide Times;
    if k < k' {
      TimesGrow(k, k' - 1, size);
      TimesNext(k' - 1, size);
    }
  }

  /** Only one number of batches fits. */
  lemma RoundsUnique(n: nat, size: nat, k: nat)
    requires size >= 1 && Times(k, size) <= n < Times(k, size) + size
    ensures Rounds(n, size) == k
  {
    hide Times, Rounds;
    var d := Rounds(n, size);
    RoundsFit(n, size);
    TimesNext(d, size);
    TimesNext(k, size);
    if d < k {
      TimesGrow(d + 1, k, size);
    } else if k < d {
      TimesGrow(k + 1, d, size);
    }
  }

  lemma RoundsNext(n: nat, size: nat)
    requires 1 <= size <= n
    ensures Rounds(n, size) == Rounds(n - size, size) + 1
    ensures Matched(n, size) == Matched(n - size, size) + size
  {
    hide Times, Rounds;
    var k := Rounds(n - size, size);
    RoundsFit(n - size, size);
    TimesNext(k, size);
    RoundsUnique(n, size, k + 1);
  }

  /** The j-th player is in batch j / size. */
  lemma Locate(j: nat, n: nat, size: nat)
    requires size >= 1 && j < Matched(n, size)
    ensures var k := Rounds(j, size);
            && k < Rounds(n, size) && Times(k, size) <= j < Times(k + 1, size) <= n
            && Times(k + 1, size) == Times(k, size) + size
  {
    hide Times, Rounds;
    var k := Rounds(j, size);
    RoundsFit(j, size);
    TimesNext(k, size);
    if Rounds(n, size) <= k {
      TimesGrow(Rounds(n, size), k, size);
    } else {
      TimesGrow(k + 1, Rounds(n, size), size);
    }
  }

  /**
    tryMatch, for any queue: it forms |q| / size rooms with new ids, leaves the youngest |q| % size players queued
    in order, points sessions at their seats and changes no other room, queue or session.
   */
  lemma {:induction false} TryMatchEffect(l: Lobby, mode: int, size: nat)
    requires size >= 1 && S.PlayersIndexed(l.store) && forall r :: r in l.rooms ==> r < l.nextRoom
    ensures var q, r := QueueOf(l, mode), TryMatch(l, mode, size);
            && r.nextRoom == l.nextRoom + Rounds(|q|, size)
            && QueueOf(r, mode) == q[Matched(|q|, size)..]
            && (forall m :: m != mode ==> QueueOf(r, m) == QueueOf(l, m))
            && S.PlayersIndexed(r.store) && OnlySeats(l.store, r.store, SeatOf(q, size, l.nextRoom))
            && (forall k :: k in r.rooms <==> k in l.rooms || l.nextRoom <= k < r.nextRoom)
            && (forall k :: k in l.rooms ==> r.rooms[k] == l.rooms[k])
    decreases |QueueOf(l, mode)|
  {
    hide S.PlayersIndexed, OnlySeats, Present, FormRoom, SeatOf, Rounds, Times;
    var q := QueueOf(l, mode);
    if |q| < size {
      RoundsSmall(|q|, size);
      assert q[0..] == q;
      NoSeats(l.store, q, size, l.nextRoom);
    } else {
      var l1 := FormRoom(l, mode, size);
      FormRoomEffect(l, mode, size);
      RoundsNext(|q|, size);
      TryMatchEffect(l1, mode, size);
      DropDrop(q, size, Matched(|q|, size));
      SeatsCompose'(l.store, l1.store, TryMatch(l1, mode, size).store, q, size, l.nextRoom);
    }
  }

  lemma DropDrop(q: seq<PlayerId>, a: nat, b: nat)
    requires a <= b <= |q|
    ensures q[a..][b - a..] == q[b..]
  {
  }

  lemma SliceSlice(q: seq<PlayerId>, a: nat, b: nat, c: nat)
    requires a <= b <= c <= |q|
    ensures q[a..][b - a..c - a] == q[b..c]
  {
  }

  /** The k-th room formed holds exactly the k-th batch, as far as it has sessions. */
  lemma {:induction false} TryMatchRooms(l: Lobby, mode: int, size: nat, k: nat)
    requires size >= 1 && S.PlayersIndexed(l.store) && forall r :: r in l.rooms ==> r < l.nextRoom
    requires k < Rounds(|QueueOf(l, mode)|, size)
    ensures Times(k, size) <= Times(k + 1, size) <= |QueueOf(l, mode)|
    ensures RoomFilled(TryMatch(l, mode, size), l.store, QueueOf(l, mode), size, l.nextRoom, k)
    decreases k
  {
    hide S.PlayersIndexed, OnlySeats, Present, FormRoom, SeatOf, Rounds, Times, RoomFilled;
    var q := QueueOf(l, mode);
    KthBatch(|q|, size, k);
    var l1 := FormRoom(l, mode, size);
    FormRoomEffect(l, mode, size);
    RoundsNext(|q|, size);
    if k == 0 {
      TryMatchEffect(l1, mode, size);
      FirstRoom(l.store, TryMatch(l1, mode, size), q, size, l.nextRoom);
    } else {
      TryMatchRooms(l1, mode, size, k - 1);
      LaterRoom(l.store, l1.store, TryMatch(l1, mode, size), q, size, l.nextRoom, k);
    }
  }

  lemma KthBatch(n: nat, size: nat, k: nat)
    requires size >= 1 && k < Rounds(n, size)
    ensures size <= n && Times(k, size) <= Times(k + 1, size) <= n
  {
    hide Rounds, Times;
    TimesGrow(k, k + 1, size);
    TimesGrow(k + 1, Rounds(n, size), size);
    TimesGrow(1, k + 1, size);
    TimesNext(0, size);
    RoundsFit(n, size);
  }

  lemma FirstRoom(st: S.Store, r: Lobby, q: seq<PlayerId>, size: nat, first: RoomId)
    requires size <= |q| && first in r.rooms && r.rooms[first].capacity == size && r.rooms[first].readyCount == 0
    requires r.rooms[first].players == Members(st, q[..size])
    ensures Times(0, size) <= Times(1, size) <= |q| && RoomFilled(r, st, q, size, first, 0)
  {
    hide Times, Members;
    TimesNext(0, size);
    assert q[0..size] == q[..size];
  }

  /** The later rooms are the rooms formed from the rest of the queue. */
  lemma LaterRoom(st: S.Store, st1: S.Store, r: Lobby, q: seq<PlayerId>, size: nat, first: RoomId, k: nat)
    requires 1 <= size <= |q| && k >= 1 && OnlySeats(st, st1, Batch(q[..size], first))
    requires Times(k - 1, size) <= Times(k, size) <= |q| - size
    requires RoomFilled(r, st1, q[size..], size, first + 1, k - 1)
    ensures Times(k, size) <= Times(k + 1, size) <= |q| && RoomFilled(r, st, q, size, first, k)
  {
    hide Times, Members, OnlySeats, Batch;
    TimesNext(k - 1, size);
    TimesNext(k, size);
    SliceSlice(q, size, Times(k, size), Times(k + 1, size));
    SameMembers(st, st1, Batch(q[..size], first), q[Times(k, size)..Times(k + 1, size)]);
  }

  lemma NoSeats(st: S.Store, q: seq<PlayerId>, size: nat, first: RoomId)
    requires |q| < size
    ensures OnlySeats(st, st, SeatOf(q, size, first))
  {
  }

  lemma SameMembers(st: S.Store, st': S.Store, seat: PlayerId -> Option<RoomId>, ps: seq<PlayerId>)
    requires OnlySeats(st, st', seat)
    ensures Members(st', ps) == Members(st, ps)
  {
    assert Present(st', ps) == Present(st, ps);
  }

  /** In a queue without repeats, the j-th oldest player sits in room number j / size, if that batch is full. */
  lemma {:induction false} SeatOfIndex(q: seq<PlayerId>, size: nat, first: RoomId, j: nat)
    requires size >= 1 && Distinct(q) && j < |q|
    ensures SeatOf(q, size, first)(q[j]) == if j < Matched(|q|, size) then Some(first + Rounds(j, size)) else None
    decreases |q|
  {
    hide Rounds, Times;
    if |q| < size {
      RoundsSmall(|q|, size);
    } else {
      RoundsNext(|q|, size);
      var q1 := q[size..];
      if j < size {
        RoundsSmall(j, size);
        NotSeatedLater(q1, size, first + 1, q[j]);
        assert q[j] in q[..size];
      } else {
        RoundsNext(j, size);
        assert q1[j - size] == q[j];
        SeatOfIndex(q1, size, first + 1, j - size);
        assert q[j] !in q[..size];
      }
    }
  }

  lemma {:induction false} NotSeatedLater(q: seq<PlayerId>, size: nat, first: RoomId, p: PlayerId)
    requires size >= 1 && p !in q
    ensures SeatOf(q, size, first)(p) == None
    decreases |q|
  {
    if |q| >= size {
      NotSeatedLater(q[size..], size, first + 1, p);
    }
  }

  function Elements(ps: seq<PlayerId>): set<PlayerId> { set p | p in ps }

  lemma {:induction false} DistinctSize(ps: seq<PlayerId>)
    requires Distinct(ps)
    ensures |Elements(ps)| == |ps|
    decreases |ps|
  {
    if ps == [] {
      assert Elements(ps) == {};
    } else {
      DistinctSize(ps[1..]);
      assert ps[0] !in ps[1..];
      assert Elements(ps) == {ps[0]} + Elements(ps[1..]);
    }
  }

  /**
    FIFO batches: with n distinct queued players who all have sessions, n / size rooms are formed and each holds
    exactly `size` of them; the j-th oldest sits in the (j / size)-th new room and its session says so.
   */
  lemma FifoMatching(l: Lobby, mode: int, size: nat)
    requires size >= 1 && S.PlayersIndexed(l.store) && forall r :: r in l.rooms ==> r < l.nextRoom
    requires Distinct(QueueOf(l, mode)) && forall p :: p in QueueOf(l, mode) ==> HasSession(l.store, p)
    ensures forall j :: 0 <= j < Matched(|QueueOf(l, mode)|, size) ==> WellSeated(l, mode, size, j)
  {
    hide TryMatch, S.PlayersIndexed, HasSession, SitsIn, OnlySeats, SeatOf, Rounds, Times;
    forall j | 0 <= j < Matched(|QueueOf(l, mode)|, size) ensures WellSeated(l, mode, size, j) {
      FifoRoom(l, mode, size, j);
      FifoSitting(l, mode, size, j);
    }
  }

  /** The j-th oldest player is in the right room, that room is exactly full, and its session points there. */
  ghost predicate WellSeated(l: Lobby, mode: int, size: nat, j: nat)
    requires size >= 1 && j < |QueueOf(l, mode)|
  {
    var p, r, room := QueueOf(l, mode)[j], TryMatch(l, mode, size), l.nextRoom + Rounds(j, size);
    && room in r.rooms && p in r.rooms[room].players && |r.rooms[room].players| == size
    && SitsIn(r.store, p, room)
  }

  /** The player's session names this room. */
  ghost predicate SitsIn(st: S.Store, p: PlayerId, room: RoomId) {
    S.ByPlayer(st, p).Some? &&
    var s := st.sessions[S.ByPlayer(st, p).value];
    s.room == room && s.state == S.InRoom
  }

  lemma SeatMeansSitting(st: S.Store, st': S.Store, seat: PlayerId -> Option<RoomId>, p: PlayerId)
    requires S.PlayersIndexed(st) && OnlySeats(st, st', seat) && HasSession(st, p) && seat(p).Some?
    ensures SitsIn(st', p, seat(p).value)
  {
  }

  lemma BatchRoom(st: S.Store, room: R.RoomData, q: seq<PlayerId>, lo: nat, hi: nat, j: nat)
    requires lo <= j < hi <= |q| && Distinct(q) && forall p :: p in q ==> HasSession(st, p)
    requires room.players.Keys == Present(st, q[lo..hi])
    ensures q[j] in room.players && |room.players| == hi - lo
  {
    hide HasSession, Present;
    FullBatch(st, q[lo..hi], q, lo);
    assert q[j] == q[lo..hi][j - lo];
    assert |room.players| == |room.players.Keys|;
  }

  lemma FifoRoom(l: Lobby, mode: int, size: nat, j: nat)
    requires size >= 1 && S.PlayersIndexed(l.store) && forall r :: r in l.rooms ==> r < l.nextRoom
    requires Distinct(QueueOf(l, mode)) && forall p :: p in QueueOf(l, mode) ==> HasSession(l.store, p)
    requires j < Matched(|QueueOf(l, mode)|, size)
    ensures var p, r, room := QueueOf(l, mode)[j], TryMatch(l, mode, size), l.nextRoom + Rounds(j, size);
            room in r.rooms && p in r.rooms[room].players && |r.rooms[room].players| == size
  {
    hide TryMatch, Present, HasSession, S.PlayersIndexed, Rounds, Times;
    var q, r, k := QueueOf(l, mode), TryMatch(l, mode, size), Rounds(j, size);
    Locate(j, |q|, size);
    TryMatchRooms(l, mode, size, k);
    BatchRoom(l.store, r.rooms[l.nextRoom + k], q, Times(k, size), Times(k + 1, size), j);
  }

  lemma FifoSitting(l: Lobby, mode: int, size: nat, j: nat)
    requires size >= 1 && S.PlayersIndexed(l.store) && forall r :: r in l.rooms ==> r < l.nextRoom
    requires Distinct(QueueOf(l, mode)) && forall p :: p in QueueOf(l, mode) ==> HasSession(l.store, p)
    requires j < Matched(|QueueOf(l, mode)|, size)
    ensures SitsIn(TryMatch(l, mode, size).store, QueueOf(l, mode)[j], l.nextRoom + Rounds(j, size))
  {
    hide TryMatch, SeatOf, HasSession, S.PlayersIndexed, OnlySeats, SitsIn, Rounds, Times;
    var q := QueueOf(l, mode);
    SeatOfIndex(q, size, l.nextRoom, j);
    TryMatchEffect(l, mode, size);
    SeatMeansSitting(l.store, TryMatch(l, mode, size).store, SeatOf(q, size, l.nextRoom), q[j]);
  }

  lemma FullBatch(st: S.Store, batch: seq<PlayerId>, q: seq<PlayerId>, from: nat)
    requires from + |batch| <= |q| && batch == q[from..from + |batch|] && Distinct(q)
    requires forall p :: p in q ==> HasSession(st, p)
    ensures |Present(st, batch)| == |batch| && Present(st, batch) == Elements(batch)
  {
    DistinctSize(batch);
    assert Present(st, batch) == Elements(batch);
  }

  // ---------------------------------------------------------------- what the documentation says

  /** The player is a member of a room that the lobby `r` has and `l` had not. */
  ghost predicate InNewRoom(l: Lobby, r: Lobby, p: PlayerId) {
    exists k :: k in r.rooms && k !in l.rooms && p in r.rooms[k].players
  }

  /** Matching puts a player into a new room exactly if it has a session and is queued within the full batches. */
  lemma MatchedIff(l: Lobby, mode: int, size: nat, p: PlayerId)
    requires size >= 1 && S.PlayersIndexed(l.store) && forall r :: r in l.rooms ==> r < l.nextRoom
    ensures var q := QueueOf(l, mode);
            InNewRoom(l, TryMatch(l, mode, size), p)
            <==> HasSession(l.store, p) && p in q[..Matched(|q|, size)]
  {
    hide TryMatch, Rounds, Times, HasSession, S.PlayersIndexed, OnlySeats, SeatOf, RoomFilled;
    var q, r := QueueOf(l, mode), TryMatch(l, mode, size);
    TryMatchEffect(l, mode, size);
    if InNewRoom(l, r, p) {
      var room :| room in r.rooms && room !in l.rooms && p in r.rooms[room].players;
      var k := room - l.nextRoom;
      TryMatchRooms(l, mode, size, k);
      TimesGrow(k + 1, Rounds(|q|, size), size);
      FilledWith(r, l.store, q, size, l.nextRoom, k, Matched(|q|, size), p);
    }
    if HasSession(l.store, p) && p in q[..Matched(|q|, size)] {
      var j :| 0 <= j < Matched(|q|, size) && q[j] == p;
      Locate(j, |q|, size);
      var k := Rounds(j, size);
      TryMatchRooms(l, mode, size, k);
      Fills(r, l.store, q, size, l.nextRoom, k, j);
    }
  }

  lemma FilledWith(r: Lobby, st: S.Store, q: seq<PlayerId>, size: nat, first: RoomId, k: nat, end: nat, p: PlayerId)
    requires Times(k, size) <= Times(k + 1, size) <= end <= |q| && RoomFilled(r, st, q, size, first, k)
    requires first + k in r.rooms && p in r.rooms[first + k].players
    ensures HasSession(st, p) && p in q[..end]
  {
  }

  lemma Fills(r: Lobby, st: S.Store, q: seq<PlayerId>, size: nat, first: RoomId, k: nat, j: nat)
    requires Times(k, size) <= j < Times(k + 1, size) <= |q| && RoomFilled(r, st, q, size, first, k)
    requires HasSession(st, q[j])
    ensures first + k in r.rooms && q[j] in r.rooms[first + k].players
  {
    hide Times, HasSession;
    assert q[Times(k, size)..Times(k + 1, size)][j - Times(k, size)] == q[j];
  }

  /** "The room_id if a match was created, 0 otherwise". */
  ghost predicate AsDocumented(l: Lobby, r: Lobby, returned: nat) {
    if r.rooms.Keys == l.rooms.Keys then returned == 0 else returned in r.rooms && returned !in l.rooms
  }

  /**
    What tryMatch returns, the number of rooms formed, is the documented value exactly if no room is formed or
    as many are formed as ids have been given out.
   */
  lemma ReturnIsRoomIff(l: Lobby, mode: int, size: nat)
    requires size >= 1 && S.PlayersIndexed(l.store) && forall r :: r in l.rooms ==> r < l.nextRoom
    requires l.nextRoom > 0
    ensures var r := TryMatch(l, mode, size);
            && r.nextRoom >= l.nextRoom
            && (AsDocumented(l, r, r.nextRoom - l.nextRoom)
                <==> |QueueOf(l, mode)| < size || l.nextRoom <= |QueueOf(l, mode)| / size)
  {
    hide TryMatch, Times, S.PlayersIndexed, OnlySeats, SeatOf;
    var q, r := QueueOf(l, mode), TryMatch(l, mode, size);
    TryMatchEffect(l, mode, size);
    var formed := |q| / size;
    assert formed == Rounds(|q|, size);
    hide Rounds;
    if |q| < size {
      RoundsSmall(|q|, size);
      assert r.rooms.Keys == l.rooms.Keys;
    } else {
      RoundsNext(|q|, size);
      assert l.nextRoom in r.rooms.Keys && l.nextRoom !in l.rooms.Keys;
    }
  }

  /** The ids 1 to 4 have been given out: room 5 is formed, and 1 is returned. */
  lemma ReturnExample()
    ensures var l := Lobby(S.EMPTY, map[], 5, map[0 := [7]]);
            var r := TryMatch(l, 0, 1);
            r.nextRoom - l.nextRoom == 1 && 5 in r.rooms && 1 !in r.rooms && !AsDocumented(l, r, 1)
  {
    hide TryMatch, Times, OnlySeats, SeatOf;
    var l := Lobby(S.EMPTY, map[], 5, map[0 := [7]]);
    TryMatchEffect(l, 0, 1);
  }
}
