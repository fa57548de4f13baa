# MiniArena, verified

A Dafny model of MiniArena, a real-time battle server: the byte stream and its frames, the timing wheel, the
battle tick, the area-of-interest grid, sessions, matching and rooms, the hand-off between threads, and the
hand-written codec of the Go robot. `dafny verify dfyconfig.toml` checks everything.

Each stateful component is a class whose methods follow the source step by step and whose contracts say that the
object's denotation moves by a function on values; the theorems about whole runs are lemmas about those functions.

| file | component |
|---|---|
| `Bytes.dfy`, `GapBuffer.dfy`, `FrameCodec.dfy`, `Connection.dfy` | ids, sequences and big-endian numbers, the gap buffer, the codec, one connection |
| `ConnectionRuns.dfy`, `Link.dfy` | every run of one connection; two connections joined by a byte stream |
| `TimerWheel.dfy` | the wheel against a map from id to ticks left |
| `Battle.dfy`, `BattleRuns.dfy`, `TickEngine.dfy` | the rules of a battle, what holds over every battle, the tick loop |
| `AoiGrid.dfy`, `LogicWorker.dfy`, `WorkerRuns.dfy` | the nine-cell grid; a worker's rooms, queue and tick; every run of a worker |
| `PendingOps.dfy`, `BattleManager.dfy`, `ConnectionPool.dfy` | the protocols between threads |
| `Sessions.dfy`, `Rooms.dfy`, `Matching.dfy`, `MatchManager.dfy`, `GameServer.dfy` | sessions and their Redis mirror, rooms, matching, the handlers |
| `GoFrame.dfy` | the robot's frames, varints and field scanners |

## Conventions

- The socket is an argument of each call: a chunk of bytes, end of stream, would-block or fault on reading; a number
  of bytes accepted, refused or broken on writing. All chunkings are covered.
- Positions are reals. `std::sqrt` is a function parameter about which nothing is assumed, except in `AttackOutcome`,
  `SkillOutcome`, `CommandOutcome` and one clause of `MoveStep`, which ask that it is right at the one value used.
  Damage ratios are exact fractions, truncated.
- Clocks are arguments, in milliseconds. Hash-map iteration orders are arbitrary choices or quantified sequences.
- Integers are unbounded, except where width matters: header fields, wheel delays and varints are 16, 32 or 64 bits.
- Redis is a set of maps and queues without expiry or failure. The player database's answer is an argument of login.
- Session ids are never issued twice.

## Where the code departs from its description

- One malformed header uses up the whole ban allowance: the decode loop meets the same bytes again until the
  illegal count reaches ten (`MalformedBans`, `BannedIffMalformed`).
- `tryMatch` returns how many rooms it formed, not a room id: that is the documented value exactly if no room is formed
  or at least as many are formed as the next room id says (`ReturnIsRoomIff`, `ReturnExample`).
- A player who left the queue is not filtered out: it is matched exactly if it stands in a full batch, as if it had not
  left (`LeaverIsMatched`, `LeaverSits`, `LeaverExample`).
- No handler moves a room out of the waiting state, so battles are fought in rooms that still wait for players
  (`RoomsStayOpen`).
- Disconnecting and reconnecting overwrite the session's state before asking whether it was in a battle, so the battle
  is never told and no snapshot is ever sent (`BattleNeverHears`); a reconnected player cannot act in its battle
  (`ReconnectedCannotAct`).
- The numbers of handled commands outlive the battle: a client that counts anew in its next battle on the same worker is
  ignored until it passes its old numbers (`AcceptedIffNewest`, `RestartIgnored`).
- A timer for more than 60 seconds fires early: the wheel keeps its promise exactly up to 60000 ms (`LeftIsPromised`,
  `EarlyExample`).
- Adding a member that was already ready resets its flag but not the ready counter (`AddCountsIff`, `ReenterExample`);
  destroying a room clears the members but not the counter (`DestroyCountsIff`, `DestroyExample`).
- Setting the match mode is not written to Redis (`ModeMirroredIff`, `ModeExample`).
- A field scanner stops at the first fixed-width field (`FirstKnownIsFirst`, `HiddenExample`). On payloads that are no
  message it may also crash or run forever (`ScannerHalts`, `LoopAndCrash`).

## Model

| member | source | states |
|---|---|---|
| `GapBuffer.Buffer.constructor` | src/network/buffer.cpp:10-12 | an empty buffer of at least 64 bytes |
| `GapBuffer.Buffer.Compact` | src/network/buffer.cpp:78-87 | the unread bytes and the capacity stay; they now start at index zero |
| `GapBuffer.Buffer.Grow` | src/network/buffer.cpp:109-115 | the unread bytes stay; the capacity is doubled until it suffices |
| `GapBuffer.Doubled` | src/network/buffer.cpp:109-115 | the new capacity suffices and is unchanged or less than twice what was needed |
| `GapBuffer.GrowsIfNeeded` | src/network/buffer.cpp:89-115 | the capacity grows exactly if unread bytes and request exceed it, then at least to double; an emptied buffer starts over |
| `GapBuffer.Buffer.EnsureWrite` | src/network/buffer.cpp:89-94 | room for the request, the unread bytes unchanged; compaction is tried before growth |
| `GapBuffer.Buffer.Write` | src/network/buffer.cpp:14-21 | all bytes are appended behind the unread ones |
| `GapBuffer.Buffer.ReadFromFd` | src/network/buffer.cpp:23-32 | what the socket gives, up to the writable space of at least 4096 bytes, is appended |
| `GapBuffer.Buffer.Read` | src/network/buffer.cpp:34-44 | returns and drops the oldest unread bytes; an emptied buffer starts over |
| `GapBuffer.Buffer.WriteToFd` | src/network/buffer.cpp:46-56 | exactly the bytes the socket accepted leave, oldest first |
| `GapBuffer.Buffer.Skip` | src/network/buffer.cpp:96-102 | drops up to the given number of unread bytes |
| `FrameCodec.WriteHeader` | src/network/frame_codec.cpp:10-23 | eighteen big-endian header bytes, the rest of the buffer untouched |
| `FrameCodec.HeaderRoundTrip` | src/network/frame_codec.cpp:10-40 | parsing a written header gives back all four fields, whatever follows |
| `FrameCodec.WireLayout` | src/network/frame_codec.cpp:10-23 | the eighteen header bytes one by one |
| `FrameCodec.HeaderLimits` | src/network/frame_codec.cpp:63-105 | malformed exactly below 18 and above 65554; otherwise incomplete, or the frame with exactly its payload |
| `FrameCodec.Encode` | src/network/frame_codec.cpp:46-61 | fails exactly for payloads over 64 KiB; otherwise the frame's bytes |
| `FrameCodec.Decode` | src/network/frame_codec.cpp:63-105 | the verdict on the unread bytes; a complete frame is consumed exactly, otherwise nothing is |
| `FrameCodec.ParseEncoded` | src/network/frame_codec.cpp:46-105 | decoding inverts encoding for every frame, whatever follows on the stream |
| `FrameCodec.EncodeParsed` | src/network/frame_codec.cpp:46-105 | encoding inverts decoding: a decoded frame stands for exactly the bytes it was read from |
| `FrameCodec.ParseStable` | src/network/frame_codec.cpp:63-105 | more bytes never change a verdict once reached |
| `FrameCodec.DrainFactors` | src/network/connection.cpp:38-53 | decoding to the end splits any stream into encoded frames and a remainder holding no complete frame |
| `FrameCodec.DrainEncoded` | src/network/connection.cpp:38-53 | encoded frames come out first and in order; what follows decodes as if it stood alone |
| `FrameCodec.DrainInstalments` | src/network/connection.cpp:38-53 | decoding in two instalments gives the same frames and remainder as decoding once |
| `Connection.Connection.OnReadable` | src/network/connection.cpp:16-56 | frames, remaining bytes, illegal count and state after one read, for every outcome of the read |
| `Connection.Connection.DecodeLoop` | src/network/connection.cpp:38-53 | terminates (bytes left, then allowance left); returns all complete frames; a malformed header bans and closes |
| `Connection.Connection.SendFrame` | src/network/connection.cpp:67-85 | queues the encoding, closes when the queue would exceed 256 KiB, ignores oversized payloads and closed states |
| `Connection.Connection.SendRaw` | src/network/connection.cpp:87-98 | the same for bytes already encoded |
| `Connection.Connection.OnWritable` | src/network/connection.cpp:58-65 | the accepted bytes leave the queue in order; a broken socket closes |
| `Connection.Connection.CloseIt` | src/network/connection.cpp:139-144 | closing from outside, as on a heartbeat timeout; nothing but the state changes |
| `ConnectionRuns.SplitIndependence` | src/network/connection.cpp:16-56 | over every run the frames returned and the bytes left depend only on the bytes that arrived, not on their splitting |
| `ConnectionRuns.HangUpCloses` | src/network/connection.cpp:16-33 | end of stream, a read error, a broken write with bytes queued and an outside close leave the connection closed and its bytes untouched |
| `ConnectionRuns.BusySocketWaits` | src/network/connection.cpp:16-33 | a socket that would block changes no state and no bytes |
| `ConnectionRuns.ChunkTaken` | src/network/buffer.cpp:23-32 | up to 4096 bytes are taken whole, and at least 4096 of a longer chunk |
| `ConnectionRuns.BytesActivate` | src/network/connection.cpp:35-53 | a read with bytes makes any connection active, or closing if a header is malformed |
| `ConnectionRuns.SendOutcome` | src/network/connection.cpp:87-98 | a closed connection takes nothing; beyond 262144 bytes nothing is queued and it closes; otherwise the bytes are queued |
| `ConnectionRuns.SendFrameOutcome` | src/network/connection.cpp:67-85 | a frame is sent as its header and payload; one above 65536 bytes is dropped |
| `ConnectionRuns.WriteOutcome` | src/network/connection.cpp:58-65 | the oldest bytes leave, as many as the socket accepts |
| `ConnectionRuns.ClosedStaysQuiet` | src/network/connection.cpp:16-98 | over every run without new bytes a closed connection stays closed, queues nothing and returns no frames |
| `ConnectionRuns.MalformedBans` | src/network/connection.cpp:38-53 | the call that meets a malformed header returns exactly the frames before it and ends closing and banned |
| `ConnectionRuns.BannedIffMalformed` | src/network/connection.cpp:117-123 | over every run: banned if the stream that arrived is malformed, and otherwise no illegal packet is counted |
| `ConnectionRuns.BannedForever` | src/network/connection.cpp:16-56 | after that every call returns no frame and leaves the connection closing |
| `ConnectionRuns.MalformedIsFinal` | src/network/connection.cpp:38-53 | from a new connection: exactly the frames before the malformed header are ever returned |
| `ConnectionRuns.MemoryBound` | src/network/connection.cpp:76-97 | over every run at most 262144 bytes to send, and 131072 to receive while no malformed header has arrived |
| `ConnectionRuns.GrowsBehindMalformed` | src/network/buffer.cpp:23-32 | the condition is needed: behind a malformed header the receive buffer exceeds every bound |
| `Link.EndToEnd` | src/network/connection.cpp:16-98 | over every run of two connections the frames returned are a prefix of those accepted, all of them once nothing is queued or in flight, and nothing is counted illegal |
| `Link.StepKeeps` | src/network/connection.cpp:16-98 | every accepted byte is in exactly one place, in order: returned, buffered, in flight or queued |
| `Link.SendFrameIsSendRaw` | src/network/connection.cpp:67-98 | sending a frame is sending its encoding |
| `TimerWheel.LeftIsPromised` | src/network/timer_wheel.cpp:10-14 | a delay takes max(1, ceil(delay / 10)) ticks exactly if it is at most 60000 ms |
| `TimerWheel.LeftExactly` | src/network/timer_wheel.cpp:10-14 | what any other delay takes: its ticks modulo 6000, or one tick if the rounding overflows 64 bits |
| `TimerWheel.EarlyExample` | src/network/timer_wheel.cpp:10-14 | a timer for 60001 ms fires after one tick |
| `TimerWheel.TimerWheel.SlotOf` | src/network/timer_wheel.cpp:10-14 | the slot reached after that many ticks |
| `TimerWheel.TimerWheel.Add` | src/network/timer_wheel.cpp:16-23 | the map gains or replaces the id's timer; each id sits in one bucket once and the entry count is the map's size |
| `TimerWheel.TimerWheel.Remove` | src/network/timer_wheel.cpp:25-41 | the map loses the id, if it was there |
| `TimerWheel.TimerWheel.Refresh` | src/network/timer_wheel.cpp:43-68 | the ticks left start over, the callback stays; unknown ids are ignored |
| `TimerWheel.TimerWheel.Tick` | src/network/timer_wheel.cpp:70-89 | every timer loses a tick; exactly those with none left fire, once each, with the callback last given |
| `TimerWheel.InsertKeeps` | src/network/timer_wheel.cpp:16-23 | appending to the computed bucket keeps buckets, slot map and timer map in agreement |
| `TimerWheel.EraseKeeps` | src/network/timer_wheel.cpp:25-68 | erasing the found entry keeps them in agreement |
| `TimerWheel.TickKeeps` | src/network/timer_wheel.cpp:70-89 | moving the clock and clearing the bucket keeps them in agreement |
| `TimerWheel.Countdown` | src/network/timer_wheel.cpp:16-89 | through any run that does not name it, an id counts down by one per tick, is gone after its last tick and stays gone |
| `TimerWheel.FiresExactlyOnTime` | src/network/timer_wheel.cpp:10-89 | after its last add or refresh an id fires on exactly the promised tick and on no other |
| `TimerWheel.NeverAddedNeverFires` | src/network/timer_wheel.cpp:43-68 | refreshing never creates a timer |
| `TimerWheel.RemovedNeverFires` | src/network/timer_wheel.cpp:25-41 | a removed id never fires until it is added again |
| `Battle.HitOutcome` | src/game/tick_engine.cpp:62-71 | the bookings of a hit amount to one simultaneous change of attacker and target, also when they are the same player |
| `Battle.ExecuteShape` | src/game/tick_engine.cpp:180-205 | no command revives anyone; only an accepted cast changes a cooldown, and only the caster's for that skill |
| `Battle.MoveStep` | src/game/tick_engine.cpp:32-46 | a move goes speed times 50 ms along the given direction (10 units from a fresh player) and faces that way; a direction shorter than 0.0001 does nothing |
| `Battle.TickIsRun` | src/game/tick_engine.cpp:165-209 | a tick is its commands one by one, then the end of the tick |
| `Battle.HandledInOrder` | src/game/tick_engine.cpp:175-206 | a command list is handled front to back |
| `Battle.DamageExamples` | src/game/tick_engine.cpp:18-21 | attack minus half the defence, rounded toward zero, and at least one |
| `BattleRuns.AttackOutcome` | src/game/tick_engine.cpp:48-71 | 75 hit points if both live and are at most 60 apart; otherwise nothing |
| `BattleRuns.SkillOutcome` | src/game/tick_engine.cpp:86-149 | an accepted cast always starts its cooldown, and takes 112, 60 or 37 hit points from a living target in reach |
| `BattleRuns.CommandOutcome` | src/game/tick_engine.cpp:175-206 | what a command does to every player's fields, kind by kind; those of strangers, of the dead and with old numbers change nothing |
| `BattleRuns.HitBalanced` | src/game/tick_engine.cpp:62-71 | a hit keeps damage dealt minus taken and kills minus deaths, summed over the room |
| `BattleRuns.Conservation` | src/game/tick_engine.cpp:48-149 | from fresh players, over every run: damage dealt equals taken, kills equal deaths, nobody dies twice, the living have hp > 0 and hp + taken = 1000, taken at most 1111, dealt at most 1111 per player of the room |
| `BattleRuns.HistoryIsStale` | src/game/tick_engine.cpp:23-30 | every command of the history, accepted or not, would be ignored if it came again |
| `BattleRuns.ReplayIsNoOp` | src/game/tick_engine.cpp:175-206 | repeats of handled commands, in the same tick or later, leave players and sequence numbers as without them |
| `BattleRuns.AcceptedIncrease` | src/game/tick_engine.cpp:23-30 | over every run the sequence numbers accepted from each player strictly increase |
| `BattleRuns.CastsWait` | src/game/tick_engine.cpp:93-100 | no skill is cast before its remaining cooldown has run down |
| `BattleRuns.WaitStep` | src/game/tick_engine.cpp:151-163 | a cooldown loses 50 ms per tick and starts at 3000, 5000 or 8000 ms; nothing else changes it |
| `BattleRuns.AvailableAgain` | src/game/tick_engine.cpp:86-163 | over every run a skill is available again exactly from the 60th, 100th or 160th tick after its cast |
| `BattleRuns.CastThenTick` | src/game/tick_engine.cpp:93-163 | the tick of a cast already counts: 2950, 4950 or 7950 ms are left after it |
| `BattleRuns.CastSpacing` | src/game/tick_engine.cpp:12-16 | two accepted casts of one skill by one player are at least 60, 100 or 160 ticks apart |
| `BattleRuns.StoredCooldownsPositive` | src/game/tick_engine.cpp:151-163 | a stored cooldown is always positive |
| `TickEngine.TickEngine.IsDuplicate` | src/game/tick_engine.cpp:23-30 | old numbers are reported and leave the record; new ones are recorded |
| `TickEngine.TickEngine.RunCommands` | src/game/tick_engine.cpp:175-206 | the loop applies the commands in order |
| `TickEngine.TickEngine.UpdateCooldowns` | src/game/tick_engine.cpp:151-163 | every cooldown loses 50 ms and those at zero are erased, in any iteration order |
| `TickEngine.TickEngine.ProcessTick` | src/game/tick_engine.cpp:165-241 | one tick of the room; the grid learns every player's position |
| `AoiGrid.AoiGrid.Update` | src/game/aoi_grid.cpp:11-26 | the player is at its new place; grid and player map stay exact inverses without empty cells |
| `AoiGrid.AoiGrid.Remove` | src/game/aoi_grid.cpp:28-37 | the player is gone from both maps, which stay inverses |
| `AoiGrid.AoiGrid.GetNearby` | src/game/aoi_grid.cpp:39-59 | lists exactly the brute-force neighbours, each once |
| `AoiGrid.NearbyIsNear` | src/game/aoi_grid.cpp:6-9 | nearness is symmetric, holds for everyone within 200 on both axes and for nobody 400 or more away on either |
| `LogicWorker.LogicWorker.DrainPendingOps` | src/game/logic_worker.cpp:93-126 | everything queued is applied, oldest first |
| `LogicWorker.LogicWorker.ExpireRoom` | src/game/logic_worker.cpp:173-188 | exactly the players disconnected for at least 31 seconds (whole seconds, more than 30) are dead and forgotten |
| `LogicWorker.MarkDeadline` | src/game/logic_worker.cpp:116-188 | a marked player is left alone for less than 31 seconds and then dead and forgotten; nobody else is touched |
| `LogicWorker.FreshRoom` | src/game/logic_worker.cpp:93-126 | rooms start with their players and no marks; marks for rooms that are gone are dropped |
| `LogicWorker.LogicWorker.Tick` | src/game/logic_worker.cpp:136-190 | the rooms are ticked once each, in some order; with disjoint rooms the result is that of every order |
| `LogicWorker.TickRoomIsRun` | src/game/logic_worker.cpp:141-188 | to a room, a worker's tick is its commands, the end of the tick and a timeout |
| `LogicWorker.RoomFrame` | src/game/tick_engine.cpp:175-206 | a room reads and writes only its own players' sequence numbers |
| `LogicWorker.OwnCommandsSuffice` | src/game/tick_engine.cpp:175-178 | a room's result equals running only the commands of its own players |
| `LogicWorker.TickRoomsEffect` | src/game/logic_worker.cpp:136-190 | with disjoint rooms, each visited room ends as if it were alone; other rooms and players are untouched |
| `LogicWorker.RoomOrderIndependence` | src/game/logic_worker.cpp:136-190 | players, sequence numbers and grid contents after a tick are the same for every iteration order |
| `LogicWorker.GridIsCurrent` | src/game/tick_engine.cpp:212-238 | after a tick the grid has every room player at its current position |
| `WorkerRuns.RoomLife` | src/game/logic_worker.cpp:93-190 | to each of its rooms, everything a worker ever did is one battle run from the players the room was added with |
| `WorkerRuns.EveryBattle` | src/game/logic_worker.cpp:93-190 | over every worker run each battle in progress conserves damage and kills, spaces its casts, and ignores what it has handled |
| `WorkerRuns.AcrossBattles` | src/game/tick_engine.cpp:23-30 | the numbers accepted from a player rise across all its battles on a worker; the record holds their maximum and nothing else |
| `WorkerRuns.AcceptedIffNewest` | src/game/tick_engine.cpp:23-30 | a living player's command is accepted exactly if its number is above all those ever accepted from it on the worker |
| `WorkerRuns.RestartIgnored` | src/game/tick_engine.cpp:23-30 | a first command with the number of an earlier battle is ignored |
| `PendingOps.NothingLost` | src/game/logic_worker.cpp:66-126 | for every interleaving of enqueues, pops, applications and ticks: what a worker applied, then what is in flight and queued, is all that was enqueued, in order; and what it holds is the replay of its operations and ticks |
| `PendingOps.BattlesOverall` | src/game/battle_manager.cpp:33-51 | over every run of manager and workers, every battle conserves damage and kills, and each worker's accepted numbers rise |
| `PendingOps.OwnershipAgrees` | src/game/battle_manager.cpp:33-51 | over every run, ticks included, the rooms mapped to a worker are exactly those it will have, and a room belongs only to worker id mod n |
| `PendingOps.ManagerOutcome` | src/game/battle_manager.cpp:33-146 | once its queue is applied, worker id mod n has the room with its players, has lost it, or has the mark; other workers are untouched |
| `PendingOps.FaithfulStep` | src/game/logic_worker.cpp:93-126 | no enqueue, pop, application or tick loses, repeats or reorders an operation |
| `BattleManager.BuildPlayers` | src/game/battle_manager.cpp:36-46 | every member with the initial statistics, each on its own of the first places 50 apart |
| `BattleManager.BattleManager.StartRoom` | src/game/battle_manager.cpp:33-51 | the manager's step of the protocol: the room goes to its worker's queue and into the map |
| `BattleManager.BattleManager.EndRoom` | src/game/battle_manager.cpp:75-131 | the removal goes to the owner's queue and the room leaves the map; unknown rooms are ignored |
| `BattleManager.BattleManager.OnPlayerDisconnect` | src/game/battle_manager.cpp:141-146 | the mark goes to the owner's queue only |
| `ConnectionPool.PoolConservation` | src/storage/connection_pool.h:52-101 | over every run idle queue and live guards partition the connections: none lost, duplicated or held twice |
| `ConnectionPool.StepKeeps` | src/storage/connection_pool.h:52-101 | borrowing, moving, move-assigning (also onto itself) and destroying keep the partition |
| `ConnectionPool.LentInOrder` | src/storage/connection_pool.h:83-101 | the longest idle connection is lent, and returns go to the back |
| `ConnectionPool.FullPools` | src/storage/connection_pool.h:23-37 | freshly filled pools with no guards satisfy the partition |
| `ConnectionPool.Open` | src/storage/connection_pool.h:23-37 | if creation fails half way, exactly the connections made so far are destroyed |
| `ConnectionPool.Pool.Lend` | src/storage/connection_pool.h:83-89 | the oldest idle connection goes to a new guard |
| `ConnectionPool.GuardObject.From` | src/storage/connection_pool.h:58-62 | the pointers move and the source is emptied |
| `ConnectionPool.GuardObject.Assign` | src/storage/connection_pool.h:63-72 | the own connection is returned and the other's taken over; onto itself nothing changes |
| `Sessions.SessionManager.KickDup` | src/game/session_manager.cpp:20-41 | the player's old session leaves every map and Redis |
| `Sessions.SessionManager.DoLogin` | src/game/session_manager.cpp:43-115 | refused logins change nothing; verified ones kick, enter all maps and are saved |
| `Sessions.SessionManager.DoLogout` | src/game/session_manager.cpp:117-126 | the session leaves every map and Redis |
| `Sessions.SessionManager.DoCleanup` | src/game/session_manager.cpp:176-192 | exactly the sessions idle for at least 3601 seconds (whole seconds, more than 3600) are removed, in any iteration order |
| `Sessions.SessionManager.DoMarkDisconnected` | src/game/session_manager.cpp:194-200 | the session of the connection is disconnected, stamped and saved |
| `Sessions.SessionManager.DoReconnect` | src/game/session_manager.cpp:202-238 | error codes and effect of all four outcomes |
| `Sessions.SessionManager.DoSetState` | src/game/session_manager.cpp:153-159 | state set and saved, or false |
| `Sessions.SessionManager.DoSetCurrentRoom` | src/game/session_manager.cpp:168-174 | room set and saved, or false |
| `Sessions.SessionManager.DoSetMatchMode` | src/game/session_manager.cpp:161-166 | mode set in memory only, or false |
| `Sessions.ApplyGood` | src/game/session_manager.cpp:20-258 | every operation keeps players and sessions in bijection, no dangling connection, and Redis equal to memory except for match_mode |
| `Sessions.SessionIndexAgreement` | src/game/session_manager.cpp:20-258 | so does every run |
| `Sessions.LoginFinds` | src/game/session_manager.cpp:93-106 | a verified login is found by connection and by player, in no room, and saved field by field |
| `Sessions.LoginSpares` | src/game/session_manager.cpp:43-115 | a refused login changes nothing; a verified one removes nobody but the player's earlier session |
| `Sessions.ReconnectFinds` | src/game/session_manager.cpp:226-232 | a reconnected session is found under its new connection only, in the lobby, with its room kept |
| `Sessions.ReconnectWindow` | src/game/session_manager.cpp:194-238 | a dropped session reconnects with code 0 for less than 31 seconds, then the answer is 20002 and it is gone; before the drop it is 20003 |
| `Sessions.CleanupOutcome` | src/game/session_manager.cpp:176-192 | a session is removed exactly if it has been idle for 3601000 ms, and then from every map |
| `Sessions.HeartbeatPostpones` | src/game/session_manager.cpp:128-132 | a heartbeat starts that time anew, for its session only |
| `Sessions.LogoutOutcome` | src/game/session_manager.cpp:117-126 | nothing finds the session any more; all others are found as before |
| `Sessions.SetOutcome` | src/game/session_manager.cpp:153-174 | one field of one session changes, in memory and in Redis |
| `Sessions.GoneForever` | src/game/session_manager.cpp:141-144 | an issued id that is gone is never found or reconnectable again |
| `Sessions.SupersededForever` | src/game/session_manager.cpp:20-41 | a session superseded by a new login is never found or reconnectable again |
| `Sessions.BindCompleteIff` | src/game/session_manager.cpp:104-106 | binding a connection keeps every session reachable exactly if no other live session uses it |
| `Sessions.ConnsBijective` | src/game/session_manager.cpp:104-106 | if each connection id is bound at most once, connections and sessions stay in full bijection |
| `Sessions.ModeMirroredIff` | src/game/session_manager.cpp:161-166 | a new match mode agrees with Redis exactly if it is the one already saved |
| `Sessions.ModeExample` | src/game/session_manager.cpp:161-166 | a mode set after login is not saved |
| `Rooms.AllReadyMeans` | src/game/room.cpp:40-43 | while the counter is right, allReady means there are members and all of them are ready |
| `Rooms.ReadyCounts` | src/game/room.cpp:31-38 | readying sets the member's flag and keeps the counter right |
| `Rooms.RemoveCounts` | src/game/room.cpp:24-29 | removing drops the member and keeps it right |
| `Rooms.AddCountsIff` | src/game/room.cpp:8-22 | adding keeps it right exactly unless it resets a ready member |
| `Rooms.DestroyCountsIff` | src/game/room.cpp:63-66 | destroying empties the room; it keeps the counter right exactly if nobody was ready |
| `Rooms.ReenterExample` | src/game/room.cpp:8-22 | a ready member that enters and readies again leaves a room that is not all ready |
| `Rooms.DestroyExample` | src/game/room.cpp:63-66 | an empty destroyed room with a counter of one |
| `Rooms.FirstComeFirstServed` | src/game/room.cpp:8-22 | a new room takes its first different players up to its capacity, and answers 40002 to the rest |
| `Rooms.RoomOfTwo` | src/game/room.cpp:8-22 | the third into a room of two gets 40002, and 40003 once it is loading |
| `Rooms.MovesOn` | src/game/room.cpp:45-61 | while the counter is right: a full waiting room loads, a loading one with all members ready runs, a running one settles, and no other |
| `Rooms.Room.Add` | src/game/room.cpp:8-22 | error codes and effect, in the order the source tests them |
| `Rooms.Room.BeginBattle` | src/game/room.cpp:51-55 | only a loading room with everyone ready starts running |
| `Rooms.RoomManager.CreateRoom` | src/game/room_manager.cpp:5-9 | a new empty room under an id never used before; other rooms unchanged |
| `Matching.TryMatchEffect` | src/game/match_manager.cpp:36-72 | for any queue of n entries: n / size new rooms, the youngest n % size stay queued in order, sessions point at their seats, nothing else changes |
| `Matching.TryMatchRooms` | src/game/match_manager.cpp:43-57 | the k-th room holds exactly the k-th batch, as far as it has sessions, by name and not ready |
| `Matching.SeatOfIndex` | src/game/match_manager.cpp:36-72 | without repeats, the j-th oldest player's seat is room j / size, if that batch is full |
| `Matching.FifoMatching` | src/game/match_manager.cpp:36-72 | with distinct players who have sessions, the j-th oldest is a member of the (j / size)-th new room, that room holds exactly size players, and the session says so |
| `Matching.MatchedIff` | src/game/match_manager.cpp:25-57 | for any queue: a player enters a new room exactly if it has a session and stands in a full batch |
| `Matching.ReturnIsRoomIff` | src/game/match_manager.cpp:36-72 | the returned number is a new room's id, or 0 for none, exactly if no room is formed or the next id is at most their number |
| `Matching.ReturnExample` | src/game/match_manager.cpp:36-72 | room 5 is formed and 1 is returned |
| `MatchManager.MatchManager.TryMatchAll` | src/game/match_manager.cpp:36-72 | terminates, does the above, and returns the number of rooms formed |
| `MatchManager.MatchManager.Fill` | src/game/match_manager.cpp:47-68 | pops one batch and seats it in order |
| `GameServer.SameSession` | src/game/match_manager.cpp:16-23 | the session found by connection is the one found by its player, so joinQueue never dereferences a missing session |
| `GameServer.StepKeeps` | src/game/game_server.cpp:139-349 | every handler keeps seated sessions members of their rooms, and the session indexes in agreement |
| `GameServer.SeatedAreMembers` | src/game/game_server.cpp:139-349 | over every run a session with a current room names an existing room that lists its player |
| `GameServer.QueuesConserved` | src/game/match_manager.cpp:16-47 | over every run, those queued and then those who joined are those taken and then those still queued, in order |
| `GameServer.JoinOrderMatched` | src/game/match_manager.cpp:16-72 | after any run without a match, the j-th in the line of joins sits in new room j / size, which is exactly full; the youngest stay queued |
| `GameServer.QueueingOutcome` | src/game/match_manager.cpp:16-34 | joining makes the session matching in its mode, leaving puts it into the lobby; rooms are untouched |
| `GameServer.EnterOutcome` | src/game/game_server.cpp:214-243 | exactly a waiting room with a free place takes the player, not ready, and becomes its current room |
| `GameServer.ReadyOutcome` | src/game/game_server.cpp:245-273 | the flag is set; once all members are ready, exactly their sessions are in battle |
| `GameServer.EndOutcome` | src/game/battle_manager.cpp:75-131 | exactly the members' sessions are back in the lobby and in no room |
| `GameServer.BattleNeverHears` | src/game/game_server.cpp:115-126 | no disconnection reaches the battle and no reconnect sends a snapshot: the state is asked after it was overwritten |
| `GameServer.ReconnectedCannotAct` | src/game/game_server.cpp:275-327 | a reconnected session is in the lobby, so its commands are not passed on |
| `GameServer.RoomsStayOpen` | src/game/game_server.cpp:139-349 | over every run no room gets as far as loading, running or settling |
| `GameServer.LeaverIsMatched` | src/game/match_manager.cpp:25-34 | after leaving the queue a player enters a new room exactly if it stands in a full batch, as without leaving |
| `GameServer.LeaverSits` | src/game/match_manager.cpp:25-57 | in a queue without repeats the leaver's session ends up in room j / size of the new ones |
| `GameServer.LeaverExample` | src/game/match_manager.cpp:25-57 | a player logs in, joins, leaves and is matched |
| `GoFrame.EncodeFrame` | robot/frame.go:37-49 | the same bytes as the C++ encoder, panicking on exactly the payloads it rejects |
| `GoFrame.FrameReader.ReadFrame` | robot/frame.go:63-102 | agrees with the C++ decoder on everything read so far and reads no chunk it does not need |
| `GoFrame.EncodeVarint` | robot/frame.go:140-146 | appends the base-128 groups, least significant first |
| `GoFrame.ParseVarint` | robot/frame.go:124-137 | or-ing shifted groups gives the number they denote, cut to 64 bits, and the position after it |
| `GoFrame.OrIn` | robot/frame.go:130 | one round: or-ing in a group shifted past the bits read adds its weight, modulo 2^64 |
| `GoFrame.VarintRoundTrip` | robot/frame.go:122-146 | parsing inverts encoding for every 64-bit value, whatever surrounds it, in at most ten bytes |
| `GoFrame.VarintExample` | robot/frame.go:124-146 | 300 is 0xAC 0x02 |
| `GoFrame.Scan` | robot/frame.go:150-247 | the loop of the four scanners for any payload, until it returns, crashes or is known never to end |
| `GoFrame.JumpCases` | robot/frame.go:164-166 | a length leads ahead, back, or below zero, by its sum with the position |
| `GoFrame.ScannerHalts` | robot/frame.go:150-247 | for any payload: a scanner returns or crashes exactly if it does so within as many iterations as the payload has bytes, and one more, and otherwise revisits a position and runs forever |
| `GoFrame.LoopAndCrash` | robot/frame.go:164-166 | payloads on which it runs forever and crashes |
| `GoFrame.ScannerFindsField` | robot/frame.go:150-247 | on any well-formed message the scanner returns the first matching varint field before the first fixed-width field, or 0 |
| `GoFrame.FirstKnownIsFirst` | robot/frame.go:167-168 | that is the first match of the whole message exactly if no non-zero match lies behind a fixed-width field |
| `GoFrame.HiddenExample` | robot/frame.go:167-168 | a message where it is not |
| `GoFrame.ErrorCodeSurvives` | robot/frame.go:161-163 | an int32 sent sign-extended is recovered |

## Left out

- epoll, sockets, event loop, acceptor, threads, locks, logging, MySQL, the hiredis transport, protobuf messages and the message router: calls into foreign code.
- TimerWheel.TimerWheel.Tick: firing is reported, not executed, so a callback that removes its own timer during a tick is not modelled.
- Connection.Connection.OnReadable: `updateActive` and `isTimeout` appear only as the state they set; the time stamps, `rateLimitExceeded` (which the server never calls) and the 32-bit wrap of the illegal count are not modelled.
- GapBuffer.Doubled: size_t overflow of a doubled capacity.
- TickEngine.TickEngine.ProcessTick: the queued state notifications; like all broadcasting, snapshots and settlement records they are messages without effect on the state modelled here, as are the handlers' responses.
- LogicWorker.LogicWorker.Tick: the battle state broadcasts, for the same reason.
- BattleManager.BattleManager.StartRoom: starting worker threads; the session states of startBattle are set in `GameServer.MadeReady`.
- BattleManager.BattleManager.EndRoom: the room and session updates of endBattle are in `GameServer.Step`.
- IEEE rounding of positions and damage, and 32-bit overflow of grid cells.
- Draining a worker's queue from the manager's thread when a battle starts: the documented owner-only protocol is modelled.
- ConnectionPool.PoolConservation: pools, guards and connections are named by numbers there; the objects with pointers are `Pool` and `GuardObject`. Destroying a pool while guards are alive is not modelled.
- GoFrame.Scan: the endless loop is cut off after one iteration more than the payload has bytes, from where it is proved never to end.
- Sessions.SessionManager.DoLogin: the player cache, registration and login records of the databases; the text encoding of a saved session.
- A room size below one, for which the matching loop would not end.
- Time to live and failures of Redis; reuse of random session ids.
