/**
  The lobby as clients drive it, src/game/game_server.cpp and src/game/battle_manager.cpp: logins, reconnects,
  queueing, matching, entering rooms, getting ready and the end of battles, in any order.
 */
module GameServer {
  import opened Bytes
  import opened Matching
  import S = Sessions
  import R = Rooms

  /** `order` is the order in which the members of the room are visited. */
  datatype Action =
    | Session(op: S.Op)
    | JoinQueue(conn: S.ConnId, mode: int)
    | LeaveQueue(conn: S.ConnId)
    | Match(mode: int, size: nat)
    | EnterRoom(conn: S.ConnId, room: RoomId)
    | Ready(conn: S.ConnId, order: seq<PlayerId>)
    | EndBattle(room: RoomId, order: seq<PlayerId>)

  /** Rooms are set by the server alone, the id generator returns no live id, and rooms hold at least one player. */
  predicate Enabled(l: Lobby, a: Action) {
    match a
    case Session(op) => !op.DoSetCurrentRoom? && S.Issued(op) !! l.store.sessions.Keys
    case Match(_, size) => size >= 1
    case _ => true
  }

  /** joinQueue and leaveQueue look the session up again by player; it is the same one. */
  function Queued(l: Lobby, id: S.SessionId, mode: int): Lobby
    requires id in l.store.sessions
  {
    var p := l.store.sessions[id].player;
    l.(queues := l.queues[mode := QueueOf(l, mode) + [p]],
       store := S.SetMatchMode(S.SetState(l.store, id, S.Matching), id, mode))
  }

  function SetStates(st: S.Store, ps: seq<PlayerId>, state: S.State): S.Store
    decreases |ps|
  {
    if ps == [] then st
    else
      var st1 := match S.ByPlayer(st, ps[0]) case None => st case Some(id) => S.SetState(st, id, state);
      SetStates(st1, ps[1..], state)
  }

  function BackToLobby(st: S.Store, ps: seq<PlayerId>): S.Store
    decreases |ps|
  {
    if ps == [] then st
    else
      var st1 := match S.ByPlayer(st, ps[0])
                 case None => st
                 case Some(id) => S.SetCurrentRoom(S.SetState(st, id, S.InLobby), id, 0);
      BackToLobby(st1, ps[1..])
  }

  function Entered(l: Lobby, id: S.SessionId, room: RoomId): Lobby
    requires id in l.store.sessions && room in l.rooms
  {
    var s, d := l.store.sessions[id], l.rooms[room];
    if R.AddCode(d) != R.ADDED then l
    else l.(rooms := l.rooms[room := R.AddPlayer(d, s.player, s.username)],
            store := S.SetCurrentRoom(l.store, id, room))
  }

  function MadeReady(l: Lobby, id: S.SessionId, order: seq<PlayerId>): Lobby
    requires id in l.store.sessions
  {
    var s := l.store.sessions[id];
    if s.room == 0 || s.room !in l.rooms then l
    else
      var d := R.PlayerReady(l.rooms[s.room], s.player);
      if !d.AllReady() then l.(rooms := l.rooms[s.room := d])
      else l.(rooms := l.rooms[s.room := R.StartBattle(d)], store := SetStates(l.store, order, S.InBattle))
  }

  function Step(l: Lobby, a: Action): Lobby
    requires Enabled(l, a)
  {
    match a
    case Session(op) => l.(store := S.Apply(l.store, op))
    case JoinQueue(conn, mode) =>
      (match S.ByConn(l.store, conn) case None => l case Some(id) => Queued(l, id, mode))
    case LeaveQueue(conn) =>
      (match S.ByConn(l.store, conn)
       case None => l
       case Some(id) => l.(store := S.SetMatchMode(S.SetState(l.store, id, S.InLobby), id, 0)))
    case Match(mode, size) => TryMatch(l, mode, size)
    case EnterRoom(conn, room) =>
      (match S.ByConn(l.store, conn)
       case None => l
       case Some(id) => if room in l.rooms then Entered(l, id, room) else l)
    case Ready(conn, order) =>
      (match S.ByConn(l.store, conn) case None => l case Some(id) => MadeReady(l, id, order))
    case EndBattle(room, order) =>
      if room !in l.rooms then l
      else l.(rooms := l.rooms[room := R.EndBattle(l.rooms[room])], store := BackToLobby(l.store, order))
  }

  /** A session found by connection is the one found by its player, so joinQueue never meets a missing session. */
  lemma SameSession(st: S.Store, conn: S.ConnId)
    requires S.Good(st) && S.ByConn(st, conn).Some?
    ensures var id := S.ByConn(st, conn).value; S.ByPlayer(st, st.sessions[id].player) == Some(id)
  {
  }

  // ---------------------------------------------------------------- seated sessions are members

  ghost predicate Member(l: Lobby, room: RoomId, p: PlayerId) {
    room in l.rooms && p in l.rooms[room].players
  }

  ghost predicate AllSeated(l: Lobby) {
    forall i :: i in l.store.sessions && l.store.sessions[i].room != 0 ==>
      Member(l, l.store.sessions[i].room, l.store.sessions[i].player)
  }

  ghost predicate Inv(l: Lobby) {
    && S.Good(l.store) && l.nextRoom > 0
    && (forall r :: r in l.rooms ==> 0 < r < l.nextRoom)
    && AllSeated(l)
  }

  /** A change of the store that gives no session a new seat. */
  ghost predicate NoNewSeats(st: S.Store, st': S.Store) {
    forall i :: i in st'.sessions && st'.sessions[i].room != 0 ==>
      i in st.sessions && st.sessions[i].room == st'.sessions[i].room && st.sessions[i].player == st'.sessions[i].player
  }

  lemma OpSeats(st: S.Store, op: S.Op)
    requires S.Good(st) && S.Issued(op) !! st.sessions.Keys && (op.DoSetCurrentRoom? ==> op.room == 0)
    ensures S.Good(S.Apply(st, op)) && NoNewSeats(st, S.Apply(st, op))
  {
    hide S.Good, S.Apply, NoNewSeats;
    S.ApplyGood(st, op);
    OpNoNewSeats(st, op);
  }

  lemma OpNoNewSeats(st: S.Store, op: S.Op)
    requires op.DoSetCurrentRoom? ==> op.room == 0
    ensures NoNewSeats(st, S.Apply(st, op))
  {
    hide NoNewSeats, S.Removed, S.Login, S.TryReconnect;
    SameStore(st);
    var st' := S.Apply(st, op);
    match op
    case DoLogin(conn, who, id, now) => LoginNoNewSeats(st, conn, who, id, now);
    case DoLogout(id) =>
      if id in st.sessions {
        RemoveSeats(st, {id});
      }
    case DoHeartbeat(id, _) => TouchSeats(st, st', id);
    case DoSetState(id, _) => TouchSeats(st, st', id);
    case DoSetMatchMode(id, _) => TouchSeats(st, st', id);
    case DoSetCurrentRoom(id, _) => TouchSeats(st, st', id);
    case DoCleanup(now) => RemoveSeats(st, S.ExpiredIds(st, now));
    case DoMarkDisconnected(conn, _) =>
      if S.ByConn(st, conn).Some? {
        TouchSeats(st, st', S.ByConn(st, conn).value);
      }
    case DoReconnect(id, conn, now) => ReconnectNoNewSeats(st, id, conn, now);
  }

  lemma ReconnectNoNewSeats(st: S.Store, id: S.SessionId, conn: S.ConnId, now: int)
    ensures NoNewSeats(st, S.TryReconnect(st, id, conn, now))
  {
    hide NoNewSeats, S.Removed;
    SameStore(st);
    if id in st.sessions {
      RemoveSeats(st, {id});
      if S.ReconnectCode(st, id, now) == S.OK {
        TouchSeats(st, S.TryReconnect(st, id, conn, now), id);
      }
    }
  }

  /** Changing one session, but for leaving its room. */
  lemma TouchSeats(st: S.Store, st': S.Store, id: S.SessionId)
    requires id !in st.sessions ==> st'.sessions == st.sessions
    requires id in st.sessions ==>
               && id in st'.sessions && st'.sessions == st.sessions[id := st'.sessions[id]]
               && st'.sessions[id].player == st.sessions[id].player
               && st'.sessions[id].room in {0, st.sessions[id].room}
    ensures NoNewSeats(st, st')
  {
  }

  lemma RemoveSeats(st: S.Store, ids: set<S.SessionId>)
    requires ids <= st.sessions.Keys
    ensures NoNewSeats(st, S.Removed(st, ids))
  {
  }

  lemma LoginNoNewSeats(st: S.Store, conn: S.ConnId, who: S.Lookup, id: S.SessionId, now: int)
    ensures NoNewSeats(st, S.Login(st, conn, who, id, now))
  {
  }

  lemma StateSeats(st: S.Store, id: S.SessionId, state: S.State)
    requires S.Good(st)
    ensures S.Good(S.SetState(st, id, state)) && NoNewSeats(st, S.SetState(st, id, state))
  {
    hide S.Good, S.SetState, NoNewSeats;
    OpSeats(st, S.DoSetState(id, state));
  }

  lemma ModeSeats(st: S.Store, id: S.SessionId, mode: int)
    requires S.Good(st)
    ensures S.Good(S.SetMatchMode(st, id, mode)) && NoNewSeats(st, S.SetMatchMode(st, id, mode))
  {
    hide S.Good, S.SetMatchMode, NoNewSeats;
    OpSeats(st, S.DoSetMatchMode(id, mode));
  }

  lemma {:induction false} SetStatesSeats(st: S.Store, ps: seq<PlayerId>, state: S.State)
    requires S.Good(st)
    ensures S.Good(SetStates(st, ps, state)) && NoNewSeats(st, SetStates(st, ps, state))
    decreases |ps|
  {
    hide S.Good, S.SetState;
    if ps != [] {
      var st1 := match S.ByPlayer(st, ps[0]) case None => st case Some(id) => S.SetState(st, id, state);
      if S.ByPlayer(st, ps[0]).Some? {
        StateSeats(st, S.ByPlayer(st, ps[0]).value, state);
      }
      SetStatesSeats(st1, ps[1..], state);
    }
  }

  lemma {:induction false} BackToLobbySeats(st: S.Store, ps: seq<PlayerId>)
    requires S.Good(st)
    ensures S.Good(BackToLobby(st, ps)) && NoNewSeats(st, BackToLobby(st, ps))
    decreases |ps|
  {
    hide S.Good, S.SetState, S.SetCurrentRoom;
    if ps != [] {
      var st1 := match S.ByPlayer(st, ps[0])
                 case None => st
                 case Some(id) => S.SetCurrentRoom(S.SetState(st, id, S.InLobby), id, 0);
      if S.ByPlayer(st, ps[0]).Some? {
        var id := S.ByPlayer(st, ps[0]).value;
        StateSeats(st, id, S.InLobby);
        OpSeats(S.SetState(st, id, S.InLobby), S.DoSetCurrentRoom(id, 0));
      }
      BackToLobbySeats(st1, ps[1..]);
    }
  }

  /** The lobby `l'` differs from `l` in that session `id` has been put into `room`, which accepts its player. */
  ghost predicate Admitted(l: Lobby, id: S.SessionId, room: RoomId, st: S.Store, l': Lobby) {
    && id in l.store.sessions && room in l.rooms && R.AddCode(l.rooms[room]) == R.ADDED
    && NoNewSeats(l.store, st) && id in st.sessions && st.sessions[id].player == l.store.sessions[id].player
    && l'.nextRoom == l.nextRoom && l'.store == S.SetCurrentRoom(st, id, room)
    && var s := l.store.sessions[id];
       l'.rooms == l.rooms[room := R.AddPlayer(l.rooms[room], s.player, s.username)]
  }

  lemma AdmitKeeps(l: Lobby, id: S.SessionId, room: RoomId, st: S.Store, l': Lobby)
    requires Inv(l) && S.Good(st) && Admitted(l, id, room, st, l')
    ensures Inv(l')
  {
    hide S.Good, S.SetCurrentRoom, AllSeated, NoNewSeats, R.AddPlayer, R.AddCode;
    RoomSet(st, id, room);
    AdmitSeats(l, id, room, st, l');
  }

  lemma RoomSet(st: S.Store, id: S.SessionId, room: RoomId)
    requires S.Good(st) && id in st.sessions
    ensures S.Good(S.SetCurrentRoom(st, id, room))
    ensures S.SetCurrentRoom(st, id, room).sessions == st.sessions[id := st.sessions[id].(room := room)]
  {
    S.TouchGood(st, id, st.sessions[id].(room := room));
    hide S.Good;
  }

  lemma AdmitSeats(l: Lobby, id: S.SessionId, room: RoomId, st: S.Store, l': Lobby)
    requires AllSeated(l) && Admitted(l, id, room, st, l')
    requires l'.store.sessions == st.sessions[id := st.sessions[id].(room := room)]
    ensures AllSeated(l')
  {
    hide S.SetCurrentRoom;
    assert l'.rooms.Keys == l.rooms.Keys;
    var p := l.store.sessions[id].player;
    assert l'.rooms[room].players.Keys == l.rooms[room].players.Keys + {p};
  }

  lemma SeatKeeps(l: Lobby, room: RoomId, p: PlayerId)
    requires Inv(l) && room in l.rooms && R.AddCode(l.rooms[room]) == R.ADDED
    ensures Inv(Seat(l, room, p))
  {
    hide S.Good, R.AddPlayer, R.AddCode, AllSeated, S.SetCurrentRoom, NoNewSeats;
    if S.ByPlayer(l.store, p).Some? {
      var id := S.ByPlayer(l.store, p).value;
      FoundPlayer(l.store, p);
      StateSeats(l.store, id, S.InRoom);
      AdmitKeeps(l, id, room, S.SetState(l.store, id, S.InRoom), Seat(l, room, p));
    }
  }

  lemma FoundPlayer(st: S.Store, p: PlayerId)
    requires S.Good(st) && S.ByPlayer(st, p).Some?
    ensures st.sessions[S.ByPlayer(st, p).value].player == p
  {
  }

  lemma {:induction false} SeatAllKeeps(l: Lobby, room: RoomId, ps: seq<PlayerId>)
    requires Inv(l) && room in l.rooms && l.rooms[room].state in {R.Created, R.Waiting}
    requires |l.rooms[room].players| + |ps| <= l.rooms[room].capacity
    ensures Inv(SeatAll(l, room, ps))
    decreases |ps|
  {
    hide Inv, Seat, HasSession;
    if ps != [] {
      SeatKeeps(l, room, ps[0]);
      SeatRoom(l, room, ps[0]);
      Matching.SeatKeeps(l, room, ps[0]);
      SeatAllKeeps(Seat(l, room, ps[0]), room, ps[1..]);
    }
  }

  lemma NewRoomKeeps(l: Lobby, mode: int, size: nat)
    requires Inv(l) && size <= |QueueOf(l, mode)|
    ensures Inv(l.(rooms := l.rooms[l.nextRoom := R.RoomData(R.Created, size, 0, map[])],
                   nextRoom := l.nextRoom + 1, queues := l.queues[mode := QueueOf(l, mode)[size..]]))
  {
  }

  lemma {:induction false} TryMatchKeeps(l: Lobby, mode: int, size: nat)
    requires Inv(l) && size >= 1
    ensures Inv(TryMatch(l, mode, size))
    decreases |QueueOf(l, mode)|
  {
    hide Inv, SeatAll;
    if |QueueOf(l, mode)| >= size {
      var q := QueueOf(l, mode);
      NewRoomKeeps(l, mode, size);
      var l1 := l.(rooms := l.rooms[l.nextRoom := R.RoomData(R.Created, size, 0, map[])],
                   nextRoom := l.nextRoom + 1, queues := l.queues[mode := q[size..]]);
      SeatAllKeeps(l1, l.nextRoom, q[..size]);
      SeatAllFrame(l1, l.nextRoom, q[..size]);
      TryMatchKeeps(FormRoom(l, mode, size), mode, size);
    }
  }

  lemma SeatsCompose(st: S.Store, st1: S.Store, st2: S.Store)
    requires NoNewSeats(st, st1) && NoNewSeats(st1, st2)
    ensures NoNewSeats(st, st2)
  {
  }

  /** A step that only changes a room's state or readiness and gives no seat. */
  lemma QuietKeeps(l: Lobby, l': Lobby)
    requires Inv(l) && S.Good(l'.store) && NoNewSeats(l.store, l'.store)
    requires l'.nextRoom == l.nextRoom && l'.rooms.Keys == l.rooms.Keys
    requires forall r :: r in l.rooms ==> l'.rooms[r].players.Keys == l.rooms[r].players.Keys
    ensures Inv(l')
  {
  }

  lemma StepKeeps(l: Lobby, a: Action)
    requires Inv(l) && Enabled(l, a)
    ensures Inv(Step(l, a))
  {
    hide S.Good, AllSeated, NoNewSeats, S.Apply, S.SetState, S.SetMatchMode, TryMatch, S.SetCurrentRoom, S.Issued,
         MadeReady;
    match a
    case Session(op) =>
      OpSeats(l.store, op);
      QuietKeeps(l, Step(l, a));
    case JoinQueue(conn, mode) =>
      if S.ByConn(l.store, conn).Some? {
        StateThenMode(l.store, S.ByConn(l.store, conn).value, S.Matching, mode);
        QuietKeeps(l, Step(l, a));
      }
    case LeaveQueue(conn) =>
      if S.ByConn(l.store, conn).Some? {
        StateThenMode(l.store, S.ByConn(l.store, conn).value, S.InLobby, 0);
        QuietKeeps(l, Step(l, a));
      }
    case Match(mode, size) => TryMatchKeeps(l, mode, size);
    case EnterRoom(conn, room) =>
      if S.ByConn(l.store, conn).Some? && room in l.rooms && R.AddCode(l.rooms[room]) == R.ADDED {
        SameStore(l.store);
        AdmitKeeps(l, S.ByConn(l.store, conn).value, room, l.store, Step(l, a));
      }
    case Ready(conn, order) =>
      if S.ByConn(l.store, conn).Some? {
        ReadyKeeps(l, S.ByConn(l.store, conn).value, order);
      }
    case EndBattle(room, order) => EndKeeps(l, room, order);
  }

  lemma ReadyKeeps(l: Lobby, id: S.SessionId, order: seq<PlayerId>)
    requires Inv(l) && id in l.store.sessions
    ensures Inv(MadeReady(l, id, order))
  {
    hide S.Good, AllSeated, NoNewSeats, SetStates;
    SetStatesSeats(l.store, order, S.InBattle);
    SameStore(l.store);
    QuietKeeps(l, MadeReady(l, id, order));
  }

  lemma EndKeeps(l: Lobby, room: RoomId, order: seq<PlayerId>)
    requires Inv(l)
    ensures Inv(Step(l, EndBattle(room, order)))
  {
    hide S.Good, AllSeated, NoNewSeats, BackToLobby;
    BackToLobbySeats(l.store, order);
    SameStore(l.store);
    QuietKeeps(l, Step(l, EndBattle(room, order)));
  }

  lemma SameStore(st: S.Store)
    ensures NoNewSeats(st, st)
  {
  }

  lemma StateThenMode(st: S.Store, id: S.SessionId, state: S.State, mode: int)
    requires S.Good(st)
    ensures var st' := S.SetMatchMode(S.SetState(st, id, state), id, mode);
            S.Good(st') && NoNewSeats(st, st')
  {
    hide S.Good, NoNewSeats, S.SetState, S.SetMatchMode;
    StateSeats(st, id, state);
    ModeSeats(S.SetState(st, id, state), id, mode);
    SeatsCompose(st, S.SetState(st, id, state), S.SetMatchMode(S.SetState(st, id, state), id, mode));
  }

  /** A run goes through enabled steps only. */
  ghost predicate IsRun(trace: seq<Lobby>, actions: seq<Action>) {
    && |trace| == |actions| + 1
    && forall i :: 0 <= i < |actions| ==> Enabled(trace[i], actions[i]) && trace[i + 1] == Step(trace[i], actions[i])
  }

  /**
    Over every run, a session with a current room names an existing room that lists its player, and the session
    indexes and their Redis mirror agree.
   */
  lemma {:induction false} SeatedAreMembers(trace: seq<Lobby>, actions: seq<Action>)
    requires IsRun(trace, actions) && trace[0] == EMPTY
    ensures Inv(trace[|actions|])
    decreases |actions|
  {
    hide Step, Enabled;
    var k := |actions|;
    if k > 0 {
      hide Inv;
      SeatedAreMembers(trace[..k], actions[..k - 1]);
      StepKeeps(trace[k - 1], actions[k - 1]);
    }
  }

  // ---------------------------------------------------------------- what each handler does to sessions

  /** Sessions of these players are changed by `f`; all others are as they were. */
  ghost predicate Changed(st: S.Store, st': S.Store, ps: seq<PlayerId>, f: S.Session -> S.Session) {
    && st'.sessions.Keys == st.sessions.Keys
    && forall i :: i in st.sessions ==>
         st'.sessions[i] == if st.sessions[i].player in ps then f(st.sessions[i]) else st.sessions[i]
  }

  lemma ChangeOne(st: S.Store, st': S.Store, p: PlayerId, f: S.Session -> S.Session)
    requires S.PlayersIndexed(st)
    requires match S.ByPlayer(st, p)
             case None => st' == st
             case Some(id) => st'.sessions == st.sessions[id := f(st.sessions[id])]
    ensures Changed(st, st', [p], f)
  {
  }

  lemma ChangeMore(st: S.Store, st1: S.Store, st2: S.Store, ps: seq<PlayerId>, f: S.Session -> S.Session)
    requires ps != [] && Changed(st, st1, [ps[0]], f) && Changed(st1, st2, ps[1..], f)
    requires forall s :: f(f(s)) == f(s) && f(s).player == s.player
    ensures Changed(st, st2, ps, f)
  {
  }

  lemma {:induction false} SetStatesOutcome(st: S.Store, ps: seq<PlayerId>, state: S.State)
    requires S.Good(st)
    ensures Changed(st, SetStates(st, ps, state), ps, (s: S.Session) => s.(state := state))
    decreases |ps|
  {
    hide S.Good, Changed;
    var f := (s: S.Session) => s.(state := state);
    if ps == [] {
      ChangeNone(st, f);
    } else {
      var st1 := match S.ByPlayer(st, ps[0]) case None => st case Some(id) => S.SetState(st, id, state);
      GoodIndex(st);
      ChangeOne(st, st1, ps[0], f);
      if S.ByPlayer(st, ps[0]).Some? {
        StateSeats(st, S.ByPlayer(st, ps[0]).value, state);
      }
      SetStatesOutcome(st1, ps[1..], state);
      ChangeMore(st, st1, SetStates(st1, ps[1..], state), ps, f);
    }
  }

  lemma ChangeNone(st: S.Store, f: S.Session -> S.Session)
    ensures Changed(st, st, [], f)
  {
  }

  lemma {:induction false} BackToLobbyOutcome(st: S.Store, ps: seq<PlayerId>)
    requires S.Good(st)
    ensures Changed(st, BackToLobby(st, ps), ps, (s: S.Session) => s.(state := S.InLobby, room := 0))
    decreases |ps|
  {
    hide S.Good, Changed;
    var f := (s: S.Session) => s.(state := S.InLobby, room := 0);
    if ps == [] {
      ChangeNone(st, f);
    } else {
      var st1 := match S.ByPlayer(st, ps[0])
                 case None => st
                 case Some(id) => S.SetCurrentRoom(S.SetState(st, id, S.InLobby), id, 0);
      GoodIndex(st);
      ChangeOne(st, st1, ps[0], f);
      if S.ByPlayer(st, ps[0]).Some? {
        var id := S.ByPlayer(st, ps[0]).value;
        StateSeats(st, id, S.InLobby);
        OpSeats(S.SetState(st, id, S.InLobby), S.DoSetCurrentRoom(id, 0));
      }
      BackToLobbyOutcome(st1, ps[1..]);
      ChangeMore(st, st1, BackToLobby(st1, ps[1..]), ps, f);
    }
  }

  /** `order` lists the members of the room. */
  ghost predicate Lists(order: seq<PlayerId>, d: R.RoomData) {
    forall p :: p in order <==> p in d.players
  }

  /** Joining and leaving: the session is matching in that mode, or in the lobby; rooms are untouched. */
  lemma QueueingOutcome(l: Lobby, conn: S.ConnId, mode: int)
    ensures S.ByConn(l.store, conn) == None ==>
              Step(l, JoinQueue(conn, mode)) == l && Step(l, LeaveQueue(conn)) == l
    ensures S.ByConn(l.store, conn).Some? ==>
              var id := S.ByConn(l.store, conn).value;
              var s, joined, left := l.store.sessions[id], Step(l, JoinQueue(conn, mode)), Step(l, LeaveQueue(conn));
              && joined.store.sessions == l.store.sessions[id := s.(state := S.Matching, mode := mode)]
              && left.store.sessions == l.store.sessions[id := s.(state := S.InLobby, mode := 0)]
              && joined.rooms == left.rooms == l.rooms && left.queues == l.queues
  {
  }

  /** Entering: exactly a waiting room with a free place takes the player, not ready, and becomes its current room. */
  lemma EnterOutcome(l: Lobby, conn: S.ConnId, room: RoomId)
    ensures var l' := Step(l, EnterRoom(conn, room));
            if S.ByConn(l.store, conn).Some? && room in l.rooms && l.rooms[room].state in {R.Created, R.Waiting}
               && |l.rooms[room].players| < l.rooms[room].capacity
            then
              var id, d := S.ByConn(l.store, conn).value, l.rooms[room];
              var s := l.store.sessions[id];
              && l'.rooms == l.rooms[room := d.(state := R.Waiting,
                                                players := d.players[s.player := R.Member(s.username, false)])]
              && l'.store.sessions == l.store.sessions[id := s.(room := room)]
            else l' == l
  {
  }

  /** Getting ready: the player's flag is set; once all members are ready, exactly their sessions are in battle. */
  lemma ReadyOutcome(l: Lobby, conn: S.ConnId, order: seq<PlayerId>)
    requires Inv(l) && S.ByConn(l.store, conn).Some?
    requires var room := l.store.sessions[S.ByConn(l.store, conn).value].room;
             room != 0 && room in l.rooms && R.Counted(l.rooms[room]) && Lists(order, l.rooms[room])
    ensures var s, l' := l.store.sessions[S.ByConn(l.store, conn).value], Step(l, Ready(conn, order));
            && s.room in l'.rooms && l'.rooms == l.rooms[s.room := l'.rooms[s.room]]
            && var d, d' := l.rooms[s.room], l'.rooms[s.room];
               && s.player in d.players
               && d'.players == d.players[s.player := d.players[s.player].(ready := true)]
               && if forall p :: p in d'.players ==> d'.players[p].ready
                  then Changed(l.store, l'.store, order, (s: S.Session) => s.(state := S.InBattle))
                  else l'.store == l.store
  {
    hide S.Good, SetStates, Changed;
    var s := l.store.sessions[S.ByConn(l.store, conn).value];
    assert Member(l, s.room, s.player);
    var d := R.PlayerReady(l.rooms[s.room], s.player);
    R.ReadyCounts(l.rooms[s.room], s.player);
    R.AllReadyMeans(d);
    SetStatesOutcome(l.store, order, S.InBattle);
  }

  /** The end of a battle: exactly the members' sessions are back in the lobby and in no room. */
  lemma EndOutcome(l: Lobby, room: RoomId, order: seq<PlayerId>)
    requires Inv(l) && room in l.rooms && Lists(order, l.rooms[room])
    ensures var l' := Step(l, EndBattle(room, order));
            && Changed(l.store, l'.store, order, (s: S.Session) => s.(state := S.InLobby, room := 0))
            && room in l'.rooms && l'.rooms == l.rooms[room := l'.rooms[room]]
            && l'.rooms[room].players == l.rooms[room].players
  {
    hide S.Good, BackToLobby, Changed;
    BackToLobbyOutcome(l.store, order);
  }

  // ---------------------------------------------------------------- dropped connections

  /** The disconnect handler marks the session and only then asks whether it is in a battle. */
  predicate TellsBattle(st: S.Store, conn: S.ConnId, now: int) {
    match S.ByConn(st, conn)
    case None => false
    case Some(id) =>
      var st' := S.MarkDisconnected(st, conn, now);
      id in st'.sessions && st'.sessions[id].state == S.InBattle && st'.sessions[id].room > 0
  }

  /** The reconnect handler reconnects the session and only then asks whether it is in a battle. */
  predicate SendsSnapshot(st: S.Store, id: S.SessionId, conn: S.ConnId, now: int) {
    S.ReconnectCode(st, id, now) == S.OK &&
    var st' := S.TryReconnect(st, id, conn, now);
    id in st'.sessions && st'.sessions[id].state == S.InBattle && st'.sessions[id].room > 0
  }

  /** So no disconnection ever reaches the battle, and no snapshot is ever sent. */
  lemma BattleNeverHears(st: S.Store, conn: S.ConnId, id: S.SessionId, now: int)
    ensures !TellsBattle(st, conn, now) && !SendsSnapshot(st, id, conn, now)
  {
  }

  /** The handlers of moves, attacks and skills pass a command on only for a session in battle. */
  predicate PassesCommands(st: S.Store, conn: S.ConnId) {
    match S.ByConn(st, conn)
    case None => false
    case Some(id) => st.sessions[id].state == S.InBattle
  }

  /** A player whose battle goes on cannot act in it after reconnecting. */
  lemma ReconnectedCannotAct(st: S.Store, id: S.SessionId, conn: S.ConnId, now: int)
    requires S.ReconnectCode(st, id, now) == S.OK
    ensures !PassesCommands(S.TryReconnect(st, id, conn, now), conn)
  {
  }

  // ---------------------------------------------------------------- queues

  /** Whom an action adds to the end of a queue, and whom it takes from the front. */
  function JoinedBy(l: Lobby, a: Action, mode: int): seq<PlayerId> {
    if a.JoinQueue? && a.mode == mode && S.ByConn(l.store, a.conn).Some?
    then [l.store.sessions[S.ByConn(l.store, a.conn).value].player] else []
  }

  function TakenBy(l: Lobby, a: Action, mode: int): seq<PlayerId> {
    if a.Match? && a.mode == mode && a.size >= 1
    then QueueOf(l, mode)[..Matched(|QueueOf(l, mode)|, a.size)] else []
  }

  /** Those who joined over a run, and those taken, in order. */
  function Joined(trace: seq<Lobby>, actions: seq<Action>, mode: int): seq<PlayerId>
    requires |trace| == |actions| + 1
    decreases |actions|
  {
    var k := |actions|;
    if k == 0 then [] else Joined(trace[..k], actions[..k - 1], mode) + JoinedBy(trace[k - 1], actions[k - 1], mode)
  }

  function TakenOff(trace: seq<Lobby>, actions: seq<Action>, mode: int): seq<PlayerId>
    requires |trace| == |actions| + 1
    decreases |actions|
  {
    var k := |actions|;
    if k == 0 then [] else TakenOff(trace[..k], actions[..k - 1], mode) + TakenBy(trace[k - 1], actions[k - 1], mode)
  }

  lemma QueueStep(l: Lobby, a: Action, mode: int)
    requires Inv(l) && Enabled(l, a)
    ensures QueueOf(l, mode) + JoinedBy(l, a, mode) == TakenBy(l, a, mode) + QueueOf(Step(l, a), mode)
  {
    hide S.Good, S.Apply, S.SetState, S.SetMatchMode, S.SetCurrentRoom, TryMatch, SetStates, BackToLobby, S.Issued,
         AllSeated, S.PlayersIndexed, OnlySeats, SeatOf, Rounds, Times;
    if a.Match? {
      GoodIndex(l.store);
      TryMatchEffect(l, a.mode, a.size);
      if a.mode == mode {
        Rejoin(QueueOf(l, mode), Matched(|QueueOf(l, mode)|, a.size));
      }
    }
  }

  /** Over every run: those queued, then those who joined, are those taken, then those still queued, in order. */
  lemma {:induction false} QueuesConserved(trace: seq<Lobby>, actions: seq<Action>, mode: int)
    requires IsRun(trace, actions) && Inv(trace[0])
    ensures Inv(trace[|actions|])
    ensures QueueOf(trace[0], mode) + Joined(trace, actions, mode)
         == TakenOff(trace, actions, mode) + QueueOf(trace[|actions|], mode)
    decreases |actions|
  {
    hide Step, Enabled, Inv, QueueOf, JoinedBy, TakenBy;
    var k := |actions|;
    if k > 0 {
      var l, a := trace[k - 1], actions[k - 1];
      QueuesConserved(trace[..k], actions[..k - 1], mode);
      StepKeeps(l, a);
      QueueStep(l, a, mode);
      Shift(QueueOf(trace[0], mode), Joined(trace[..k], actions[..k - 1], mode), JoinedBy(l, a, mode),
            TakenOff(trace[..k], actions[..k - 1], mode), TakenBy(l, a, mode), QueueOf(l, mode),
            QueueOf(trace[k], mode));
    }
  }

  lemma Shift(q: seq<PlayerId>, joined: seq<PlayerId>, j: seq<PlayerId>, taken: seq<PlayerId>, t: seq<PlayerId>,
              now: seq<PlayerId>, next: seq<PlayerId>)
    requires q + joined == taken + now && now + j == t + next
    ensures q + (joined + j) == taken + t + next
  {
    Assoc(q, joined, j);
    Assoc(taken, now, j);
    Assoc(taken, t, next);
  }

  lemma {:induction false} NobodyTaken(trace: seq<Lobby>, actions: seq<Action>, mode: int)
    requires |trace| == |actions| + 1 && forall a :: a in actions ==> !(a.Match? && a.mode == mode)
    ensures TakenOff(trace, actions, mode) == []
    decreases |actions|
  {
    var k := |actions|;
    if k > 0 {
      assert actions[k - 1] in actions;
      NobodyTaken(trace[..k], actions[..k - 1], mode);
    }
  }

  /**
    First come, first matched: after any run without a match, the line is those queued before and then those who
    joined, in the order they did. If they are different and still have sessions, the j-th of the line sits in the
    (j / size)-th new room, which is exactly full, and those of the last incomplete batch stay queued.
   */
  lemma JoinOrderMatched(trace: seq<Lobby>, actions: seq<Action>, mode: int, size: nat)
    requires IsRun(trace, actions) && Inv(trace[0]) && size >= 1
    requires forall a :: a in actions ==> !(a.Match? && a.mode == mode)
    requires var line := QueueOf(trace[0], mode) + Joined(trace, actions, mode);
             Distinct(line) && forall p :: p in line ==> HasSession(trace[|actions|].store, p)
    ensures var line := QueueOf(trace[0], mode) + Joined(trace, actions, mode);
            Served(trace[|actions|], Step(trace[|actions|], Match(mode, size)), mode, size, line)
  {
    hide Step, Enabled, Joined, S.PlayersIndexed, HasSession, Served, S.Good, AllSeated, Distinct;
    var l := trace[|actions|];
    LineIsQueue(trace, actions, mode);
    MatchStep(l, mode, size);
    GoodIndex(l.store);
    LineServed(l, mode, size);
  }

  /** The matching of lobby `l` with its line into `r`: who sits where, and who waits. */
  ghost predicate Served(l: Lobby, r: Lobby, mode: int, size: nat, line: seq<PlayerId>)
    requires size >= 1
  {
    && QueueOf(r, mode) == line[Matched(|line|, size)..]
    && forall j :: 0 <= j < Matched(|line|, size) ==> HasSeat(r, line[j], l.nextRoom + Rounds(j, size), size)
  }

  ghost predicate HasSeat(r: Lobby, p: PlayerId, room: RoomId, size: nat) {
    room in r.rooms && p in r.rooms[room].players && |r.rooms[room].players| == size && SitsIn(r.store, p, room)
  }

  lemma LineIsQueue(trace: seq<Lobby>, actions: seq<Action>, mode: int)
    requires IsRun(trace, actions) && Inv(trace[0])
    requires forall a :: a in actions ==> !(a.Match? && a.mode == mode)
    ensures Inv(trace[|actions|])
    ensures QueueOf(trace[|actions|], mode) == QueueOf(trace[0], mode) + Joined(trace, actions, mode)
  {
    hide Step, Joined, TakenOff, QueueOf;
    QueuesConserved(trace, actions, mode);
    NobodyTaken(trace, actions, mode);
  }

  lemma LineServed(l: Lobby, mode: int, size: nat)
    requires size >= 1 && S.PlayersIndexed(l.store) && forall r :: r in l.rooms ==> r < l.nextRoom
    requires Distinct(QueueOf(l, mode)) && forall p :: p in QueueOf(l, mode) ==> HasSession(l.store, p)
    ensures Served(l, TryMatch(l, mode, size), mode, size, QueueOf(l, mode))
  {
    hide TryMatch, S.PlayersIndexed, HasSession, SitsIn, Rounds, Times, OnlySeats, SeatOf, Distinct;
    TryMatchEffect(l, mode, size);
    FifoMatching(l, mode, size);
    var line, r := QueueOf(l, mode), TryMatch(l, mode, size);
    forall j | 0 <= j < Matched(|line|, size) ensures HasSeat(r, line[j], l.nextRoom + Rounds(j, size), size) {
      assert WellSeated(l, mode, size, j);
    }
  }

  // ---------------------------------------------------------------- room states

  ghost predicate StillOpen(rooms: map<RoomId, R.RoomData>) {
    forall r :: r in rooms ==> rooms[r].state in {R.Created, R.Waiting}
  }

  lemma SeatOpen(l: Lobby, room: RoomId, p: PlayerId)
    requires StillOpen(l.rooms) && room in l.rooms
    ensures StillOpen(Seat(l, room, p).rooms)
  {
    hide S.SetState, S.SetCurrentRoom;
  }

  lemma {:induction false} SeatAllOpen(l: Lobby, room: RoomId, ps: seq<PlayerId>)
    requires StillOpen(l.rooms) && room in l.rooms
    ensures StillOpen(SeatAll(l, room, ps).rooms)
    decreases |ps|
  {
    hide Seat;
    if ps != [] {
      SeatOpen(l, room, ps[0]);
      Matching.SeatKeeps(l, room, ps[0]);
      SeatAllOpen(Seat(l, room, ps[0]), room, ps[1..]);
    }
  }

  lemma {:induction false} TryMatchOpen(l: Lobby, mode: int, size: nat)
    requires StillOpen(l.rooms) && size >= 1
    ensures StillOpen(TryMatch(l, mode, size).rooms)
    decreases |QueueOf(l, mode)|
  {
    hide SeatAll;
    var q := QueueOf(l, mode);
    if |q| >= size {
      var l1 := l.(rooms := l.rooms[l.nextRoom := R.RoomData(R.Created, size, 0, map[])],
                   nextRoom := l.nextRoom + 1, queues := l.queues[mode := q[size..]]);
      SeatAllOpen(l1, l.nextRoom, q[..size]);
      SeatAllFrame(l1, l.nextRoom, q[..size]);
      TryMatchOpen(FormRoom(l, mode, size), mode, size);
    }
  }

  lemma StepOpen(l: Lobby, a: Action)
    requires StillOpen(l.rooms) && Enabled(l, a)
    ensures StillOpen(Step(l, a).rooms)
  {
    hide S.Apply, S.SetState, S.SetMatchMode, S.SetCurrentRoom, TryMatch, SetStates, BackToLobby, S.Issued;
    if a.Match? {
      TryMatchOpen(l, a.mode, a.size);
    }
  }

  /**
    No handler calls startLoading, so over every run no room ever gets as far as loading, running or settling:
    battles are fought in rooms that are still waiting for players.
   */
  lemma {:induction false} RoomsStayOpen(trace: seq<Lobby>, actions: seq<Action>)
    requires IsRun(trace, actions) && trace[0] == EMPTY
    ensures StillOpen(trace[|actions|].rooms)
    decreases |actions|
  {
    hide Step, Enabled;
    var k := |actions|;
    if k > 0 {
      hide StillOpen;
      RoomsStayOpen(trace[..k], actions[..k - 1]);
      StepOpen(trace[k - 1], actions[k - 1]);
    }
  }

  // ---------------------------------------------------------------- leaving the queue

  /**
    A player who leaves the queue is not filtered out: it is put into a new room exactly if it still stands in a
    full batch, as if it had not left.
   */
  lemma LeaverIsMatched(l: Lobby, conn: S.ConnId, mode: int, size: nat)
    requires Inv(l) && size >= 1 && S.ByConn(l.store, conn).Some?
    ensures var p, q := l.store.sessions[S.ByConn(l.store, conn).value].player, QueueOf(l, mode);
            && (InNewRoom(l, Step(Step(l, LeaveQueue(conn)), Match(mode, size)), p)
                <==> p in q[..Matched(|q|, size)])
            && (InNewRoom(l, Step(l, Match(mode, size)), p) <==> p in q[..Matched(|q|, size)])
  {
    hide Step, S.PlayersIndexed, Matched, HasSession, InNewRoom;
    var p, l1 := l.store.sessions[S.ByConn(l.store, conn).value].player, Step(l, LeaveQueue(conn));
    Leaving(l, conn);
    MatchStep(l, mode, size);
    MatchStep(l1, mode, size);
    MatchedIff(l, mode, size, p);
    MatchedIff(l1, mode, size, p);
    SameRooms(l, l1, TryMatch(l1, mode, size), p);
  }

  /** In a queue without repeats its session is put into the room of its place in the queue. */
  lemma LeaverSits(l: Lobby, conn: S.ConnId, mode: int, size: nat, j: nat)
    requires Inv(l) && size >= 1 && S.ByConn(l.store, conn).Some? && Distinct(QueueOf(l, mode))
    requires j < Matched(|QueueOf(l, mode)|, size)
    requires QueueOf(l, mode)[j] == l.store.sessions[S.ByConn(l.store, conn).value].player
    ensures SitsIn(Step(Step(l, LeaveQueue(conn)), Match(mode, size)).store, QueueOf(l, mode)[j],
                   l.nextRoom + Rounds(j, size))
  {
    hide Step, TryMatch, S.PlayersIndexed, Matched, Rounds, HasSession, SitsIn, SeatOf, OnlySeats;
    var q, l1 := QueueOf(l, mode), Step(l, LeaveQueue(conn));
    Leaving(l, conn);
    MatchStep(l1, mode, size);
    SeatOfIndex(q, size, l.nextRoom, j);
    TryMatchEffect(l1, mode, size);
    SeatMeansSitting(l1.store, TryMatch(l1, mode, size).store, SeatOf(q, size, l.nextRoom), q[j]);
  }

  lemma MatchStep(l: Lobby, mode: int, size: nat)
    requires size >= 1
    ensures Step(l, Match(mode, size)) == TryMatch(l, mode, size)
  {
  }

  /** Leaving the queue leaves the queue as it is. */
  lemma Leaving(l: Lobby, conn: S.ConnId)
    requires Inv(l) && S.ByConn(l.store, conn).Some?
    ensures var p, l1 := l.store.sessions[S.ByConn(l.store, conn).value].player, Step(l, LeaveQueue(conn));
            && l1.queues == l.queues && l1.rooms == l.rooms && l1.nextRoom == l.nextRoom
            && S.PlayersIndexed(l.store) && S.PlayersIndexed(l1.store)
            && HasSession(l.store, p) && HasSession(l1.store, p)
  {
    hide S.Good, S.PlayersIndexed, AllSeated, S.SetState, S.SetMatchMode;
    var l1 := Step(l, LeaveQueue(conn));
    StepKeeps(l, LeaveQueue(conn));
    SameSession(l.store, conn);
    GoodIndex(l.store);
    GoodIndex(l1.store);
    LeavingKeepsSession(l.store, S.ByConn(l.store, conn).value);
  }

  lemma GoodIndex(st: S.Store)
    requires S.Good(st)
    ensures S.PlayersIndexed(st)
  {
  }

  lemma LeavingKeepsSession(st: S.Store, id: S.SessionId)
    requires id in st.sessions && S.ByPlayer(st, st.sessions[id].player) == Some(id)
    ensures HasSession(S.SetMatchMode(S.SetState(st, id, S.InLobby), id, 0), st.sessions[id].player)
  {
  }

  lemma SameRooms(l: Lobby, l': Lobby, r: Lobby, p: PlayerId)
    requires l.rooms == l'.rooms
    ensures InNewRoom(l, r, p) <==> InNewRoom(l', r, p)
  {
  }

  /** Player 7 logs in, joins the queue, leaves it, and is matched. */
  lemma LeaverExample()
    ensures var login := Session(S.DoLogin(5, S.Verified(7, "seven"), 1, 0));
            && Enabled(EMPTY, login)
            && var l := Step(Step(EMPTY, login), JoinQueue(5, 0));
               InNewRoom(l, Step(Step(l, LeaveQueue(5)), Match(0, 1)), 7)
  {
    hide Inv, Step, S.ByConn, QueueOf, InNewRoom, Matched;
    var login := Session(S.DoLogin(5, S.Verified(7, "seven"), 1, 0));
    var l := Step(Step(EMPTY, login), JoinQueue(5, 0));
    FirstLogin(login);
    FirstJoin(Step(EMPTY, login));
    LeaverIsMatched(l, 5, 0, 1);
    assert QueueOf(l, 0)[..Matched(1, 1)] == [7];
  }

  lemma NewLobby()
    ensures Inv(EMPTY)
  {
  }

  lemma FirstLogin(login: Action)
    requires login == Session(S.DoLogin(5, S.Verified(7, "seven"), 1, 0))
    ensures Enabled(EMPTY, login)
    ensures var l := Step(EMPTY, login);
            && Inv(l) && QueueOf(l, 0) == []
            && S.ByConn(l.store, 5) == Some(1) && 1 in l.store.sessions && l.store.sessions[1].player == 7
  {
    NewLobby();
    hide Inv;
    StepKeeps(EMPTY, login);
  }

  lemma FirstJoin(l: Lobby)
    requires Inv(l) && QueueOf(l, 0) == []
    requires S.ByConn(l.store, 5) == Some(1) && 1 in l.store.sessions && l.store.sessions[1].player == 7
    ensures var l' := Step(l, JoinQueue(5, 0));
            && Inv(l') && QueueOf(l', 0) == [7]
            && S.ByConn(l'.store, 5) == Some(1) && l'.store.sessions[1].player == 7
  {
    hide Inv;
    StepKeeps(l, JoinQueue(5, 0));
  }
}
