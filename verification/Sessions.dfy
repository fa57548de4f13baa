/**
  Sessions, src/game/session_manager.cpp: three maps that must agree, written through to Redis. The store is
  modelled as maps without expiry or failures; a saved session is the record of the fields it is written from.
  Player lookup and the clock (milliseconds) are parameters; session ids come from a generator that never repeats.
 */
module Sessions {
  import opened Bytes

  type SessionId = u64
  type ConnId = u64

  datatype State = Connected | Authenticated | InLobby | Matching | InRoom | InBattle | Settlement | Disconnected

  datatype Session = Session(player: PlayerId, conn: ConnId, state: State, username: string,
                             lastActive: int, room: RoomId, mode: int)

  /** The fields saveToRedis writes. */
  datatype Record = Record(state: State, player: PlayerId, conn: ConnId, username: string, room: RoomId, mode: int)

  function RecordOf(s: Session): Record {
    Record(s.state, s.player, s.conn, s.username, s.room, s.mode)
  }

  datatype Store = Store(
    sessions: map<SessionId, Session>,
    connMap: map<ConnId, SessionId>,
    playerMap: map<PlayerId, SessionId>,
    saved: map<SessionId, Record>,
    online: map<PlayerId, SessionId>)

  const EMPTY := Store(map[], map[], map[], map[], map[])

  /** What the player database answers to a login. */
  datatype Lookup = Refused | Verified(player: PlayerId, username: string)

  const OK := 0
  const LOGIN_FAILED := 20001
  const NOT_FOUND := 20002
  const NOT_DISCONNECTED := 20003

  // ---------------------------------------------------------------- operations on the store

  function Put(st: Store, id: SessionId, s: Session): Store {
    st.(sessions := st.sessions[id := s])
  }

  function Save(st: Store, id: SessionId): Store
    requires id in st.sessions
  {
    var s := st.sessions[id];
    st.(saved := st.saved[id := RecordOf(s)], online := st.online[s.player := id])
  }

  function ConnsOf(sessions: map<SessionId, Session>, ids: set<SessionId>): set<ConnId>
    requires ids <= sessions.Keys
  {
    set i | i in ids :: sessions[i].conn
  }

  function PlayersOf(sessions: map<SessionId, Session>, ids: set<SessionId>): set<PlayerId>
    requires ids <= sessions.Keys
  {
    set i | i in ids :: sessions[i].player
  }

  /** Forget these sessions everywhere. */
  function Removed(st: Store, ids: set<SessionId>): Store
    requires ids <= st.sessions.Keys
  {
    Store(st.sessions - ids,
          st.connMap - ConnsOf(st.sessions, ids),
          st.playerMap - PlayersOf(st.sessions, ids),
          st.saved - ids,
          st.online - PlayersOf(st.sessions, ids))
  }

  function Logout(st: Store, id: SessionId): Store {
    if id in st.sessions then Removed(st, {id}) else st
  }

  function KickDuplicate(st: Store, p: PlayerId): Store {
    if p !in st.playerMap then st
    else if st.playerMap[p] in st.sessions then
      var old_ := st.sessions[st.playerMap[p]];
      var id := st.playerMap[p];
      Store(st.sessions - {id}, st.connMap - {old_.conn}, st.playerMap - {p},
            st.saved - {id}, st.online - {old_.player})
    else st.(playerMap := st.playerMap - {p})
  }

  /** Enter a new session into all maps and save it. */
  function Install(st: Store, id: SessionId, s: Session): Store {
    Save(st.(sessions := st.sessions[id := s], connMap := st.connMap[s.conn := id],
             playerMap := st.playerMap[s.player := id]), id)
  }

  function Login(st: Store, conn: ConnId, who: Lookup, id: SessionId, now: int): Store {
    if who.Refused? then st
    else
      Install(KickDuplicate(st, who.player), id, Session(who.player, conn, Authenticated, who.username, now, 0, 0))
  }

  function Heartbeat(st: Store, id: SessionId, now: int): Store {
    if id in st.sessions then Put(st, id, st.sessions[id].(lastActive := now)) else st
  }

  function SetState(st: Store, id: SessionId, state: State): Store {
    if id in st.sessions then Save(Put(st, id, st.sessions[id].(state := state)), id) else st
  }

  /** Unlike the others, this one is not saved. */
  function SetMatchMode(st: Store, id: SessionId, mode: int): Store {
    if id in st.sessions then Put(st, id, st.sessions[id].(mode := mode)) else st
  }

  function SetCurrentRoom(st: Store, id: SessionId, room: RoomId): Store {
    if id in st.sessions then Save(Put(st, id, st.sessions[id].(room := room)), id) else st
  }

  function ExpiredIds(st: Store, now: int): set<SessionId> {
    set i | i in st.sessions && (now - st.sessions[i].lastActive) / 1000 > 3600
  }

  function CleanupExpired(st: Store, now: int): Store {
    Removed(st, ExpiredIds(st, now))
  }

  function ByConn(st: Store, conn: ConnId): Option<SessionId> {
    if conn in st.connMap && st.connMap[conn] in st.sessions then Some(st.connMap[conn]) else None
  }

  function ByPlayer(st: Store, p: PlayerId): Option<SessionId> {
    if p in st.playerMap && st.playerMap[p] in st.sessions then Some(st.playerMap[p]) else None
  }

  function MarkDisconnected(st: Store, conn: ConnId, now: int): Store {
    match ByConn(st, conn)
    case None => st
    case Some(id) => Save(Put(st, id, st.sessions[id].(state := Disconnected, lastActive := now)), id)
  }

  function ReconnectCode(st: Store, id: SessionId, now: int): int {
    if id !in st.sessions then NOT_FOUND
    else if st.sessions[id].state != Disconnected then NOT_DISCONNECTED
    else if (now - st.sessions[id].lastActive) / 1000 > 30 then NOT_FOUND
    else OK
  }

  /** Moving a session to another connection. */
  function Rebound(st: Store, id: SessionId, s: Session): Store
    requires id in st.sessions
  {
    Save(Put(st.(connMap := (st.connMap - {st.sessions[id].conn})[s.conn := id]), id, s), id)
  }

  function TryReconnect(st: Store, id: SessionId, conn: ConnId, now: int): Store {
    if id !in st.sessions || st.sessions[id].state != Disconnected then st
    else if (now - st.sessions[id].lastActive) / 1000 > 30 then Logout(st, id)
    else Rebound(st, id, st.sessions[id].(conn := conn, state := InLobby, lastActive := now))
  }

  // ---------------------------------------------------------------- the manager

  lemma RemoveOneMore(st: Store, done: set<SessionId>, id: SessionId)
    requires done <= st.sessions.Keys && id in st.sessions && id !in done
    ensures Removed(Removed(st, done), {id}) == Removed(st, done + {id})
  {
    hide ConnsOf, PlayersOf;
    var s := st.sessions[id];
    OneMore(st.sessions, done, id);
    MinusTwice(st.sessions, done, id);
    MinusTwice(st.saved, done, id);
    MinusTwice(st.connMap, ConnsOf(st.sessions, done), s.conn);
    MinusTwice(st.playerMap, PlayersOf(st.sessions, done), s.player);
    MinusTwice(st.online, PlayersOf(st.sessions, done), s.player);
  }

  lemma OneMore(sessions: map<SessionId, Session>, done: set<SessionId>, id: SessionId)
    requires done <= sessions.Keys && id in sessions && id !in done
    ensures ConnsOf(sessions, done + {id}) == ConnsOf(sessions, done) + {sessions[id].conn}
    ensures PlayersOf(sessions, done + {id}) == PlayersOf(sessions, done) + {sessions[id].player}
    ensures ConnsOf(sessions - done, {id}) == {sessions[id].conn}
    ensures PlayersOf(sessions - done, {id}) == {sessions[id].player}
  {
  }

  lemma MinusTwice<K, V>(m: map<K, V>, ks: set<K>, k: K)
    ensures m - ks - {k} == m - (ks + {k})
  {
  }

  class SessionManager {
    var sessions: map<SessionId, Session>
    var connMap: map<ConnId, SessionId>
    var playerMap: map<PlayerId, SessionId>
    var saved: map<SessionId, Record>
    var online: map<PlayerId, SessionId>

    ghost function Model(): Store
      reads this
    {
      Store(sessions, connMap, playerMap, saved, online)
    }

    constructor ()
      ensures Model() == EMPTY
    {
      sessions, connMap, playerMap, saved, online := map[], map[], map[], map[], map[];
    }

    method SaveToRedis(id: SessionId)
      requires id in sessions
      modifies this
      ensures Model() == Save(old(Model()), id)
    {
      var s := sessions[id];
      saved := saved[id := Record(s.state, s.player, s.conn, s.username, s.room, s.mode)];
      online := online[s.player := id];
    }

    method RemoveFromRedis(id: SessionId)
      modifies this`saved, this`online
      ensures saved == old(saved) - {id}
      ensures online == if id in sessions then old(online) - {sessions[id].player} else old(online)
    {
      if id in sessions {
        online := online - {sessions[id].player};
      }
      saved := saved - {id};
    }

    method KickDup(p: PlayerId)
      modifies this
      ensures Model() == KickDuplicate(old(Model()), p)
    {
      if p !in playerMap {
        return;
      }
      var id := playerMap[p];
      if id in sessions {
        connMap := connMap - {sessions[id].conn};
        RemoveFromRedis(id);
        sessions := sessions - {id};
      }
      playerMap := playerMap - {p};
    }

    method DoLogin(conn: ConnId, who: Lookup, id: SessionId, now: int) returns (code: int)
      modifies this
      ensures Model() == Login(old(Model()), conn, who, id, now)
      ensures code == if who.Refused? then 20001 else 0
    {
      if who.Refused? {
        return LOGIN_FAILED;
      }
      KickDup(who.player);
      sessions := sessions[id := Session(who.player, conn, Authenticated, who.username, now, 0, 0)];
      connMap := connMap[conn := id];
      playerMap := playerMap[who.player := id];
      SaveToRedis(id);
      return OK;
    }

    method Erase(id: SessionId)
      requires id in sessions
      modifies this
      ensures Model() == Removed(old(Model()), {id})
    {
      var s := sessions[id];
      connMap := connMap - {s.conn};
      playerMap := playerMap - {s.player};
      RemoveFromRedis(id);
      sessions := sessions - {id};
    }

    method DoLogout(id: SessionId)
      modifies this
      ensures Model() == Logout(old(Model()), id)
    {
      if id !in sessions {
        return;
      }
      Erase(id);
    }

    method DoHeartbeat(id: SessionId, now: int)
      modifies this
      ensures Model() == Heartbeat(old(Model()), id, now)
    {
      if id in sessions {
        sessions := sessions[id := sessions[id].(lastActive := now)];
      }
    }

    method DoSetState(id: SessionId, state: State) returns (ok: bool)
      modifies this
      ensures Model() == SetState(old(Model()), id, state) && ok == (id in old(sessions))
    {
      if id !in sessions {
        return false;
      }
      sessions := sessions[id := sessions[id].(state := state)];
      SaveToRedis(id);
      return true;
    }

    method DoSetMatchMode(id: SessionId, mode: int) returns (ok: bool)
      modifies this
      ensures Model() == SetMatchMode(old(Model()), id, mode) && ok == (id in old(sessions))
    {
      if id !in sessions {
        return false;
      }
      sessions := sessions[id := sessions[id].(mode := mode)];
      return true;
    }

    method DoSetCurrentRoom(id: SessionId, room: RoomId) returns (ok: bool)
      modifies this
      ensures Model() == SetCurrentRoom(old(Model()), id, room) && ok == (id in old(sessions))
    {
      if id !in sessions {
        return false;
      }
      sessions := sessions[id := sessions[id].(room := room)];
      SaveToRedis(id);
      return true;
    }

    /** Erase while iterating, in whatever order the hash map has. */
    method DoCleanup(now: int)
      modifies this
      ensures Model() == CleanupExpired(old(Model()), now)
    {
      ghost var start := Model();
      ghost var expired := ExpiredIds(start, now);
      var todo := sessions.Keys;
      while todo != {}
        invariant todo <= start.sessions.Keys
        invariant Model() == Removed(start, expired - todo)
        decreases todo
      {
        var id :| id in todo;
        ghost var done := expired - todo;
        assert id in sessions && sessions[id] == start.sessions[id];
        if (now - sessions[id].lastActive) / 1000 > 3600 {
          RemoveOneMore(start, done, id);
          Erase(id);
        }
        todo := todo - {id};
        assert expired - todo == if id in expired then done + {id} else done;
      }
      assert expired - {} == expired;
    }

    method DoMarkDisconnected(conn: ConnId, now: int)
      modifies this
      ensures Model() == MarkDisconnected(old(Model()), conn, now)
    {
      if conn !in connMap || connMap[conn] !in sessions {
        return;
      }
      var id := connMap[conn];
      sessions := sessions[id := sessions[id].(state := Disconnected, lastActive := now)];
      SaveToRedis(id);
    }

    method DoReconnect(id: SessionId, conn: ConnId, now: int) returns (code: int)
      modifies this
      ensures Model() == TryReconnect(old(Model()), id, conn, now)
      ensures code == ReconnectCode(old(Model()), id, now)
    {
      if id !in sessions {
        return NOT_FOUND;
      }
      if sessions[id].state != Disconnected {
        return NOT_DISCONNECTED;
      }
      if (now - sessions[id].lastActive) / 1000 > 30 {
        DoLogout(id);
        return NOT_FOUND;
      }
      connMap := connMap - {sessions[id].conn};
      sessions := sessions[id := sessions[id].(conn := conn)];
      connMap := connMap[conn := id];
      sessions := sessions[id := sessions[id].(state := InLobby, lastActive := now)];
      SaveToRedis(id);
      return OK;
    }
  }

  // ---------------------------------------------------------------- what every operation keeps

  /** Players and live sessions are in bijection. */
  ghost predicate PlayersIndexed(st: Store) {
    && (forall p :: p in st.playerMap ==> st.playerMap[p] in st.sessions && st.sessions[st.playerMap[p]].player == p)
    && (forall i :: i in st.sessions ==>
          st.sessions[i].player in st.playerMap && st.playerMap[st.sessions[i].player] == i)
  }

  /** A mapped connection names a live session with that connection. */
  ghost predicate ConnsIndexed(st: Store) {
    forall c :: c in st.connMap ==> st.connMap[c] in st.sessions && st.sessions[st.connMap[c]].conn == c
  }

  ghost predicate SameButMode(a: Record, b: Record) {
    a == b.(mode := a.mode)
  }

  /** Redis shows the same players online, the same sessions, and the same fields but match_mode. */
  ghost predicate Mirrored(st: Store) {
    && st.online == st.playerMap
    && st.saved.Keys == st.sessions.Keys
    && (forall i :: i in st.sessions ==> SameButMode(st.saved[i], RecordOf(st.sessions[i])))
  }

  ghost predicate Good(st: Store) {
    PlayersIndexed(st) && ConnsIndexed(st) && Mirrored(st)
  }

  /** Every live session is reachable through its connection. */
  ghost predicate ConnsComplete(st: Store) {
    forall i :: i in st.sessions ==> st.sessions[i].conn in st.connMap && st.connMap[st.sessions[i].conn] == i
  }

  datatype Op =
    | DoLogin(conn: ConnId, who: Lookup, id: SessionId, now: int)
    | DoLogout(id: SessionId)
    | DoHeartbeat(id: SessionId, now: int)
    | DoSetState(id: SessionId, state: State)
    | DoSetMatchMode(id: SessionId, mode: int)
    | DoSetCurrentRoom(id: SessionId, room: RoomId)
    | DoCleanup(now: int)
    | DoMarkDisconnected(conn: ConnId, now: int)
    | DoReconnect(id: SessionId, conn: ConnId, now: int)

  function Apply(st: Store, op: Op): Store {
    match op
    case DoLogin(conn, who, id, now) => Login(st, conn, who, id, now)
    case DoLogout(id) => Logout(st, id)
    case DoHeartbeat(id, now) => Heartbeat(st, id, now)
    case DoSetState(id, state) => SetState(st, id, state)
    case DoSetMatchMode(id, mode) => SetMatchMode(st, id, mode)
    case DoSetCurrentRoom(id, room) => SetCurrentRoom(st, id, room)
    case DoCleanup(now) => CleanupExpired(st, now)
    case DoMarkDisconnected(conn, now) => MarkDisconnected(st, conn, now)
    case DoReconnect(id, conn, now) => TryReconnect(st, id, conn, now)
  }

  function Run(st: Store, ops: seq<Op>): Store
    decreases |ops|
  {
    if ops == [] then st else Run(Apply(st, ops[0]), ops[1..])
  }

  /** The session id an operation issues, if any. */
  function Issued(op: Op): set<SessionId> {
    if op.DoLogin? && op.who.Verified? then {op.id} else {}
  }

  /** No session id is issued twice. */
  ghost predicate FreshIds(used: set<SessionId>, ops: seq<Op>)
    decreases |ops|
  {
    ops == [] || (Issued(ops[0]) !! used && FreshIds(used + Issued(ops[0]), ops[1..]))
  }

  lemma RemovedGood(st: Store, ids: set<SessionId>)
    requires Good(st) && ids <= st.sessions.Keys
    ensures Good(Removed(st, ids))
    ensures ConnsComplete(st) ==> ConnsComplete(Removed(st, ids))
  {
  }

  lemma KickGood(st: Store, p: PlayerId)
    requires Good(st)
    ensures var k := KickDuplicate(st, p);
            && Good(k) && p !in k.playerMap && k.sessions.Keys <= st.sessions.Keys
            && (forall i :: i in k.sessions ==> k.sessions[i] == st.sessions[i] && st.sessions[i].player != p)
            && (forall i :: i in st.sessions && st.sessions[i].player != p ==> i in k.sessions)
            && (ConnsComplete(st) ==> ConnsComplete(k))
  {
    hide KickDuplicate, Mirrored, ConnsIndexed;
    KickIsRemoval(st, p);
    if p in st.playerMap {
      RemovedGood(st, {st.playerMap[p]});
    }
  }

  lemma KickIsRemoval(st: Store, p: PlayerId)
    requires PlayersIndexed(st)
    ensures KickDuplicate(st, p) == if p in st.playerMap then Removed(st, {st.playerMap[p]}) else st
  {
  }

  /** Changing a session's fields other than player and connection, then saving it or only its mode. */
  lemma TouchGood(st: Store, id: SessionId, s: Session)
    requires Good(st) && id in st.sessions
    requires s.player == st.sessions[id].player && s.conn == st.sessions[id].conn
    ensures Good(Save(Put(st, id, s), id))
    ensures SameButMode(st.saved[id], RecordOf(s)) ==> Good(Put(st, id, s))
    ensures ConnsComplete(st) ==> ConnsComplete(Save(Put(st, id, s), id)) && ConnsComplete(Put(st, id, s))
  {
    TouchIndexed(st, id, s);
    TouchMirrored(st, id, s);
  }

  lemma TouchIndexed(st: Store, id: SessionId, s: Session)
    requires PlayersIndexed(st) && ConnsIndexed(st) && id in st.sessions
    requires s.player == st.sessions[id].player && s.conn == st.sessions[id].conn
    ensures PlayersIndexed(Put(st, id, s)) && ConnsIndexed(Put(st, id, s))
    ensures PlayersIndexed(Save(Put(st, id, s), id)) && ConnsIndexed(Save(Put(st, id, s), id))
  {
  }

  lemma TouchMirrored(st: Store, id: SessionId, s: Session)
    requires PlayersIndexed(st) && Mirrored(st) && id in st.sessions && s.player == st.sessions[id].player
    ensures Mirrored(Save(Put(st, id, s), id))
    ensures SameButMode(st.saved[id], RecordOf(s)) ==> Mirrored(Put(st, id, s))
  {
    assert st.playerMap[s.player := id] == st.playerMap;
  }

  lemma InstallPlayers(st: Store, id: SessionId, s: Session)
    requires PlayersIndexed(st) && id !in st.sessions && s.player !in st.playerMap
    ensures PlayersIndexed(Install(st, id, s))
  {
  }

  lemma InstallConns(st: Store, id: SessionId, s: Session)
    requires ConnsIndexed(st) && id !in st.sessions
    ensures ConnsIndexed(Install(st, id, s))
  {
  }

  lemma InstallMirrored(st: Store, id: SessionId, s: Session)
    requires Mirrored(st) && id !in st.sessions
    ensures Mirrored(Install(st, id, s))
  {
  }

  lemma LoginGood(st: Store, conn: ConnId, who: Lookup, id: SessionId, now: int)
    requires Good(st) && id !in st.sessions
    ensures Good(Login(st, conn, who, id, now))
  {
    hide KickDuplicate, Install, PlayersIndexed, ConnsIndexed, Mirrored, ConnsComplete;
    if who.Verified? {
      KickGood(st, who.player);
      var k, s := KickDuplicate(st, who.player), Session(who.player, conn, Authenticated, who.username, now, 0, 0);
      InstallPlayers(k, id, s);
      InstallConns(k, id, s);
      InstallMirrored(k, id, s);
    }
  }

  lemma ReboundIndexed(st: Store, id: SessionId, s: Session)
    requires PlayersIndexed(st) && ConnsIndexed(st) && id in st.sessions && s.player == st.sessions[id].player
    ensures PlayersIndexed(Rebound(st, id, s)) && ConnsIndexed(Rebound(st, id, s))
  {
  }

  lemma ReboundMirrored(st: Store, id: SessionId, s: Session)
    requires PlayersIndexed(st) && Mirrored(st) && id in st.sessions && s.player == st.sessions[id].player
    ensures Mirrored(Rebound(st, id, s))
  {
  }

  lemma ReconnectGood(st: Store, id: SessionId, conn: ConnId, now: int)
    requires Good(st)
    ensures Good(TryReconnect(st, id, conn, now))
  {
    hide PlayersIndexed, ConnsIndexed, Mirrored, Removed, Save, ConnsComplete;
    if id in st.sessions && st.sessions[id].state == Disconnected {
      if ReconnectCode(st, id, now) == NOT_FOUND {
        RemovedGood(st, {id});
      } else {
        var s := st.sessions[id].(conn := conn, state := InLobby, lastActive := now);
        ReboundIndexed(st, id, s);
        ReboundMirrored(st, id, s);
      }
    }
  }

  lemma ApplyGood(st: Store, op: Op)
    requires Good(st) && Issued(op) !! st.sessions.Keys
    ensures Good(Apply(st, op))
  {
    hide Good, Save, Removed, KickDuplicate, Login, TryReconnect;
    match op
    case DoLogin(conn, who, id, now) =>
      if who.Verified? {
        assert id in Issued(op);
        LoginGood(st, conn, who, id, now);
      } else {
        RefusedLogin(st, conn, id, now);
      }
    case DoLogout(id) =>
      if id in st.sessions {
        RemovedGood(st, {id});
      }
    case DoHeartbeat(id, now) =>
      if id in st.sessions {
        GoodMirrors(st);
        TouchGood(st, id, st.sessions[id].(lastActive := now));
      }
    case DoSetState(id, state) =>
      if id in st.sessions {
        TouchGood(st, id, st.sessions[id].(state := state));
      }
    case DoSetMatchMode(id, mode) =>
      if id in st.sessions {
        GoodMirrors(st);
        TouchGood(st, id, st.sessions[id].(mode := mode));
      }
    case DoSetCurrentRoom(id, room) =>
      if id in st.sessions {
        TouchGood(st, id, st.sessions[id].(room := room));
      }
    case DoCleanup(now) => RemovedGood(st, ExpiredIds(st, now));
    case DoMarkDisconnected(conn, now) =>
      if ByConn(st, conn).Some? {
        var id := ByConn(st, conn).value;
        TouchGood(st, id, st.sessions[id].(state := Disconnected, lastActive := now));
      }
    case DoReconnect(id, conn, now) => ReconnectGood(st, id, conn, now);
  }

  lemma GoodMirrors(st: Store)
    requires Good(st)
    ensures Mirrored(st)
  {
  }

  lemma RefusedLogin(st: Store, conn: ConnId, id: SessionId, now: int)
    ensures Login(st, conn, Refused, id, now) == st
  {
  }

  lemma ApplyKeys(st: Store, op: Op)
    ensures Apply(st, op).sessions.Keys <= st.sessions.Keys + Issued(op)
  {
  }

  /** Over every run: players and sessions in bijection, no dangling connection, Redis in step. */
  lemma {:induction false} RunGood(st: Store, used: set<SessionId>, ops: seq<Op>)
    requires Good(st) && st.sessions.Keys <= used && FreshIds(used, ops)
    ensures Good(Run(st, ops))
    decreases |ops|
  {
    hide Good, Apply;
    if ops != [] {
      assert Issued(ops[0]) !! st.sessions.Keys;
      ApplyGood(st, ops[0]);
      ApplyKeys(st, ops[0]);
      RunGood(Apply(st, ops[0]), used + Issued(ops[0]), ops[1..]);
    }
  }

  lemma SessionIndexAgreement(ops: seq<Op>)
    requires FreshIds({}, ops)
    ensures Good(Run(EMPTY, ops))
  {
    RunGood(EMPTY, {}, ops);
  }

  /** A verified login is found by connection and by player, outside any room. */
  lemma LoginFinds(st: Store, conn: ConnId, who: Lookup, id: SessionId, now: int)
    requires who.Verified?
    ensures var st' := Login(st, conn, who, id, now);
            && ByConn(st', conn) == Some(id) && ByPlayer(st', who.player) == Some(id)
            && st'.sessions[id] == Session(who.player, conn, Authenticated, who.username, now, 0, 0)
            && id in st'.saved && st'.saved[id] == Record(Authenticated, who.player, conn, who.username, 0, 0)
            && who.player in st'.online && st'.online[who.player] == id
  {
  }

  /** A refused login changes nothing; a verified one removes nobody but the player's own earlier session. */
  lemma LoginSpares(st: Store, conn: ConnId, who: Lookup, id: SessionId, now: int, i: SessionId)
    requires Good(st) && i in st.sessions && i != id
    ensures who.Refused? ==> Login(st, conn, who, id, now) == st
    ensures who.Verified? ==>
              var st' := Login(st, conn, who, id, now);
              && (i in st'.sessions <==> st.sessions[i].player != who.player)
              && (i in st'.sessions ==> st'.sessions[i] == st.sessions[i])
  {
    hide Mirrored;
  }

  /** A successful reconnect is found under its new connection, back in the lobby, with its room kept. */
  lemma ReconnectFinds(st: Store, id: SessionId, conn: ConnId, now: int)
    requires Good(st) && ReconnectCode(st, id, now) == OK
    ensures var st' := TryReconnect(st, id, conn, now);
            && ByConn(st', conn) == Some(id) && ByPlayer(st', st.sessions[id].player) == Some(id)
            && st'.sessions[id] == st.sessions[id].(conn := conn, state := InLobby, lastActive := now)
            && st'.saved[id].state == InLobby && st'.saved[id].conn == conn
            && (st.sessions[id].conn != conn ==> ByConn(st', st.sessions[id].conn) == None)
  {
  }

  /** Setting a state or a room changes that field of that session, in memory and in Redis, and nothing else. */
  lemma SetOutcome(st: Store, id: SessionId, state: State, room: RoomId)
    requires Good(st) && id in st.sessions
    ensures var st' := SetState(st, id, state);
            && st'.sessions == st.sessions[id := st.sessions[id].(state := state)]
            && st'.saved[id].state == state && st'.connMap == st.connMap && st'.playerMap == st.playerMap
    ensures var st' := SetCurrentRoom(st, id, room);
            && st'.sessions == st.sessions[id := st.sessions[id].(room := room)]
            && st'.saved[id].room == room && st'.connMap == st.connMap && st'.playerMap == st.playerMap
  {
  }

  // ---------------------------------------------------------------- time

  /**
    A dropped connection's session can be taken up again for 31 seconds, and with code 0; later the answer is 20002
    and the session is gone. Until the connection is dropped the answer is 20003.
   */
  lemma ReconnectWindow(st: Store, conn: ConnId, id: SessionId, t: int, conn': ConnId, now: int)
    requires Good(st) && ByConn(st, conn) == Some(id) && now >= t
    ensures var st' := MarkDisconnected(st, conn, t);
            && st'.sessions == st.sessions[id := st.sessions[id].(state := Disconnected, lastActive := t)]
            && id in st'.saved && st'.saved[id].state == Disconnected
            && (now - t < 31000 ==>
                 && ReconnectCode(st', id, now) == 0
                 && ByConn(TryReconnect(st', id, conn', now), conn') == Some(id))
            && (now - t >= 31000 ==>
                 && ReconnectCode(st', id, now) == 20002
                 && id !in TryReconnect(st', id, conn', now).sessions)
    ensures st.sessions[id].state != Disconnected ==>
              ReconnectCode(st, id, now) == 20003 && TryReconnect(st, id, conn', now) == st
    ensures forall i :: i !in st.sessions ==>
              ReconnectCode(st, i, now) == 20002 && TryReconnect(st, i, conn', now) == st
  {
    hide Mirrored;
    WholeSeconds(now - t, 31);
  }

  lemma WholeSeconds(ms: int, s: nat)
    requires s > 0
    ensures ms / 1000 > s - 1 <==> ms >= 1000 * s
  {
  }

  /** Cleaning up removes exactly the sessions that have been idle for 3601 seconds, everywhere. */
  lemma CleanupOutcome(st: Store, now: int, id: SessionId)
    requires Good(st)
    ensures var st' := CleanupExpired(st, now);
            && (id in st'.sessions <==> id in st.sessions && now - st.sessions[id].lastActive < 3601000)
            && (id in st'.sessions ==> st'.sessions[id] == st.sessions[id])
            && (id in st.sessions && id !in st'.sessions ==>
                 && id !in st'.saved && st.sessions[id].player !in st'.online
                 && st.sessions[id].player !in st'.playerMap && st.sessions[id].conn !in st'.connMap)
  {
    hide Mirrored;
    if id in st.sessions {
      WholeSeconds(now - st.sessions[id].lastActive, 3601);
    }
    RemovedGood(st, ExpiredIds(st, now));
  }

  /** A heartbeat starts the hour anew for its session and leaves the others alone. */
  lemma HeartbeatPostpones(st: Store, id: SessionId, t: int, now: int)
    requires Good(st) && id in st.sessions
    ensures var st' := CleanupExpired(Heartbeat(st, id, t), now);
            && (id in st'.sessions <==> now - t < 3601000)
            && forall i :: i in st.sessions && i != id ==>
                 (i in st'.sessions <==> i in CleanupExpired(st, now).sessions)
  {
    hide Good;
    ApplyGood(st, DoHeartbeat(id, t));
    var st1 := Heartbeat(st, id, t);
    CleanupOutcome(st1, now, id);
    forall i | i in st.sessions && i != id
      ensures i in CleanupExpired(st1, now).sessions <==> i in CleanupExpired(st, now).sessions
    {
      CleanupOutcome(st1, now, i);
      CleanupOutcome(st, now, i);
    }
  }

  /** After a logout the session is found by nothing, in memory or in Redis; everyone else stays. */
  lemma LogoutOutcome(st: Store, id: SessionId)
    requires Good(st) && id in st.sessions
    ensures var s, st' := st.sessions[id], Logout(st, id);
            && st'.sessions == st.sessions - {id} && id !in st'.saved
            && ByPlayer(st', s.player) == None && s.player !in st'.online
            && (forall c :: ByConn(st', c) != Some(id))
            && (forall p :: p != s.player ==> ByPlayer(st', p) == ByPlayer(st, p))
  {
    hide Mirrored;
  }

  // ---------------------------------------------------------------- superseded sessions

  /** An id that was issued and is gone stays gone: it is never found and never reconnects. */
  lemma {:induction false} GoneForever(st: Store, used: set<SessionId>, ops: seq<Op>, id: SessionId)
    requires id in used && id !in st.sessions && FreshIds(used, ops)
    ensures id !in Run(st, ops).sessions
    ensures forall now :: ReconnectCode(Run(st, ops), id, now) == NOT_FOUND
    decreases |ops|
  {
    hide Apply;
    if ops != [] {
      ApplyKeys(st, ops[0]);
      GoneForever(Apply(st, ops[0]), used + Issued(ops[0]), ops[1..], id);
    }
  }

  /** Logging in again supersedes the player's old session for good. */
  lemma SupersededForever(st: Store, used: set<SessionId>, conn: ConnId, who: Lookup, id: SessionId, now: int,
                          ops: seq<Op>)
    requires Good(st) && st.sessions.Keys <= used && id !in used && who.Verified? && who.player in st.playerMap
    requires FreshIds(used + {id}, ops)
    ensures var old_ := st.playerMap[who.player];
            var st' := Run(Login(st, conn, who, id, now), ops);
            && old_ !in st'.sessions
            && (forall c :: ByConn(st', c) != Some(old_)) && (forall p :: ByPlayer(st', p) != Some(old_))
            && (forall t :: ReconnectCode(st', old_, t) == NOT_FOUND)
  {
    var old_ := st.playerMap[who.player];
    var st1 := Login(st, conn, who, id, now);
    assert old_ in st.sessions && old_ !in st1.sessions;
    GoneForever(st1, used + {id}, ops, old_);
  }

  // ---------------------------------------------------------------- connections

  /** Whether the operation binds its connection to a session. */
  predicate Binds(st: Store, op: Op) {
    (op.DoLogin? && op.who.Verified?) || (op.DoReconnect? && ReconnectCode(st, op.id, op.now) == OK)
  }

  /** Sessions other than the one bound (or kicked) that already use the connection. */
  ghost predicate Taken(st: Store, op: Op)
    requires op.DoLogin? || op.DoReconnect?
  {
    exists i :: i in st.sessions && st.sessions[i].conn == op.conn &&
      i != op.id && (op.DoLogin? && op.who.Verified? ==> st.sessions[i].player != op.who.player)
  }

  /** Binding a connection keeps every session reachable exactly if no other live session uses that connection. */
  lemma BindCompleteIff(st: Store, op: Op)
    requires Good(st) && ConnsComplete(st) && Issued(op) !! st.sessions.Keys && Binds(st, op)
    ensures ConnsComplete(Apply(st, op)) <==> !Taken(st, op)
  {
    if op.DoLogin? {
      LoginCompleteIff(st, op);
    } else {
      ReconnectCompleteIff(st, op);
    }
  }

  lemma LoginCompleteIff(st: Store, op: Op)
    requires Good(st) && ConnsComplete(st) && op.DoLogin? && op.who.Verified? && op.id !in st.sessions
    ensures ConnsComplete(Apply(st, op)) <==> !Taken(st, op)
  {
    hide KickDuplicate, Mirrored, PlayersIndexed;
    KickGood(st, op.who.player);
    var k, r := KickDuplicate(st, op.who.player), Apply(st, op);
    if Taken(st, op) {
      var i :|
        i in st.sessions && st.sessions[i].conn == op.conn && i != op.id && st.sessions[i].player != op.who.player;
      assert i in k.sessions && i in r.sessions && r.sessions[i].conn == op.conn && r.connMap[op.conn] == op.id;
    } else {
      forall i | i in r.sessions ensures r.sessions[i].conn in r.connMap && r.connMap[r.sessions[i].conn] == i {
        if i != op.id {
          assert i in k.sessions && k.sessions[i].conn in k.connMap;
        }
      }
    }
  }

  lemma ReconnectCompleteIff(st: Store, op: Op)
    requires ConnsIndexed(st) && ConnsComplete(st) && op.DoReconnect? && ReconnectCode(st, op.id, op.now) == OK
    ensures ConnsComplete(Apply(st, op)) <==> !Taken(st, op)
  {
    var s := st.sessions[op.id].(conn := op.conn, state := InLobby, lastActive := op.now);
    assert Apply(st, op) == Rebound(st, op.id, s);
    ReboundCompleteIff(st, op.id, s);
  }

  lemma ReboundCompleteIff(st: Store, id: SessionId, s: Session)
    requires ConnsIndexed(st) && ConnsComplete(st) && id in st.sessions
    ensures ConnsComplete(Rebound(st, id, s)) <==>
            forall i :: i in st.sessions && i != id ==> st.sessions[i].conn != s.conn
  {
    var r := Rebound(st, id, s);
    forall i | i in st.sessions && i != id ensures i in r.sessions && r.sessions[i] == st.sessions[i] {
    }
  }

  lemma NonBindingComplete(st: Store, op: Op)
    requires Good(st) && ConnsComplete(st) && !Binds(st, op)
    ensures ConnsComplete(Apply(st, op))
  {
    hide Good, Save, Removed, Put, KickDuplicate, ConnsComplete;
    match op
    case DoLogin(_, _, _, _) =>
    case DoLogout(id) =>
      if id in st.sessions {
        RemovedGood(st, {id});
      }
    case DoHeartbeat(id, now) =>
      if id in st.sessions {
        TouchGood(st, id, st.sessions[id].(lastActive := now));
      }
    case DoSetState(id, state) =>
      if id in st.sessions {
        TouchGood(st, id, st.sessions[id].(state := state));
      }
    case DoSetMatchMode(id, mode) =>
      if id in st.sessions {
        TouchGood(st, id, st.sessions[id].(mode := mode));
      }
    case DoSetCurrentRoom(id, room) =>
      if id in st.sessions {
        TouchGood(st, id, st.sessions[id].(room := room));
      }
    case DoCleanup(now) => RemovedGood(st, ExpiredIds(st, now));
    case DoMarkDisconnected(conn, now) =>
      if ByConn(st, conn).Some? {
        var id := ByConn(st, conn).value;
        TouchGood(st, id, st.sessions[id].(state := Disconnected, lastActive := now));
      }
    case DoReconnect(id, _, _) =>
      if id in st.sessions && st.sessions[id].state == Disconnected {
        RemovedGood(st, {id});
      }
  }

  lemma NonBindingWithin(st: Store, bound: set<ConnId>, op: Op)
    requires ConnsWithin(st, bound) && !Binds(st, op)
    ensures ConnsWithin(Apply(st, op), bound)
  {
  }

  /** Each connection id is bound at most once over the run. */
  ghost predicate BoundOnce(st: Store, bound: set<ConnId>, ops: seq<Op>)
    decreases |ops|
  {
    ops == [] ||
    if Binds(st, ops[0]) then ops[0].conn !in bound && BoundOnce(Apply(st, ops[0]), bound + {ops[0].conn}, ops[1..])
    else BoundOnce(Apply(st, ops[0]), bound, ops[1..])
  }

  ghost predicate ConnsWithin(st: Store, bound: set<ConnId>) {
    forall i :: i in st.sessions ==> st.sessions[i].conn in bound
  }

  lemma BoundStep(st: Store, bound: set<ConnId>, op: Op)
    requires Good(st) && ConnsWithin(st, bound) && Binds(st, op)
    ensures ConnsWithin(Apply(st, op), bound + {op.conn})
  {
    if op.DoLogin? {
      hide KickDuplicate, Mirrored, PlayersIndexed, ConnsIndexed, ConnsComplete;
      KickGood(st, op.who.player);
    }
  }

  /** If every connection id is bound at most once, connections and sessions are in full bijection throughout. */
  lemma {:induction false} ConnsBijective(st: Store, used: set<SessionId>, bound: set<ConnId>, ops: seq<Op>)
    requires Good(st) && ConnsComplete(st) && st.sessions.Keys <= used && FreshIds(used, ops)
    requires ConnsWithin(st, bound) && BoundOnce(st, bound, ops)
    ensures ConnsIndexed(Run(st, ops)) && ConnsComplete(Run(st, ops))
    decreases |ops|
  {
    hide PlayersIndexed, Mirrored, Apply;
    if ops != [] {
      var op, st' := ops[0], Apply(st, ops[0]);
      assert Issued(op) !! st.sessions.Keys;
      ApplyGood(st, op);
      ApplyKeys(st, op);
      if Binds(st, op) {
        BindCompleteIff(st, op);
        BoundStep(st, bound, op);
        ConnsBijective(st', used + Issued(op), bound + {op.conn}, ops[1..]);
      } else {
        NonBindingComplete(st, op);
        NonBindingWithin(st, bound, op);
        ConnsBijective(st', used + Issued(op), bound, ops[1..]);
      }
    }
  }

  // ---------------------------------------------------------------- match_mode

  /** The one field Redis may miss: setting the match mode is mirrored exactly if it is the mode already saved. */
  lemma ModeMirroredIff(st: Store, id: SessionId, mode: int)
    requires Good(st) && id in st.sessions
    ensures var st' := SetMatchMode(st, id, mode);
            st'.saved[id] == RecordOf(st'.sessions[id]) <==> mode == st.saved[id].mode
  {
  }

  lemma ModeExample()
    ensures var st := SetMatchMode(Login(EMPTY, 5, Verified(7, "seven"), 1, 0), 1, 3);
            1 in st.sessions && 1 in st.saved && st.sessions[1].mode == 3 && st.saved[1].mode == 0
  {
  }
}
