/**
  The hand-off between the battle manager and its workers (src/game/battle_manager.cpp and the queue of
  src/game/logic_worker.cpp) as a step system: any thread enqueues, only a worker's own thread pops, applies and
  ticks.
 */
module PendingOps {
  import opened Bytes
  import opened Battle
  import opened LogicWorker
  import opened WorkerRuns
  import BattleRuns

  /** One worker: what it holds, the operation it has popped and not yet applied, and its queue. */
  datatype Mailbox = Mailbox(worker: Worker, inFlight: Option<PendingOp>, queue: seq<PendingOp>) {
    /** Everything still to be applied, oldest first. */
    function Todo(): seq<PendingOp> { (if inFlight.Some? then [inFlight.value] else []) + queue }
    /** The rooms once everything enqueued so far has been applied. */
    function Eventual(): Rooms { ApplyOps(worker.rooms, Todo()) }
  }

  /**
    `owner` is room_to_worker_; `history` records what was ever enqueued to each worker, and `logs` what each
    worker's thread has done.
   */
  datatype System = System(boxes: seq<Mailbox>, owner: map<RoomId, nat>,
                           history: seq<seq<PendingOp>>, logs: seq<seq<Entry>>)

  datatype Action =
    | StartBattle(room: RoomId, players: Players)
    | EndBattle(room: RoomId, known: bool)
    | PlayerGone(room: RoomId, player: PlayerId, stamp: int)
    | Pop(worker: nat)
    | Finish(worker: nat)
    | TickWorker(worker: nat, order: seq<RoomId>, cmds: seq<Command>, now: RoomId -> int)
  {
    predicate ByManager() { StartBattle? || EndBattle? || PlayerGone? }
  }

  function AssignWorker(room: RoomId, n: nat): (w: nat)
    requires n > 0
    ensures w < n
  {
    room % n
  }

  predicate Shaped(s: System) {
    && |s.boxes| == |s.history| == |s.logs| > 0
    && forall r :: r in s.owner ==> s.owner[r] < |s.boxes|
  }

  /**
    What each step needs: battles start with fresh players, a pop needs an idle worker, finishing a popped
    operation, and a tick visits each room once.
   */
  ghost predicate Enabled(s: System, a: Action)
    requires Shaped(s)
  {
    match a
    case StartBattle(_, players) => Fresh(players)
    case Pop(w) => w < |s.boxes| && s.boxes[w].inFlight.None? && s.boxes[w].queue != []
    case Finish(w) => w < |s.boxes| && s.boxes[w].inFlight.Some?
    case TickWorker(w, order, _, _) =>
      w < |s.boxes| && s.boxes[w].inFlight.None? && Enumerates(order, s.boxes[w].worker.rooms.Keys)
    case _ => true
  }

  function Enqueued(s: System, w: nat, op: PendingOp): (r: System)
    requires Shaped(s) && w < |s.boxes|
    ensures Shaped(r)
  {
    s.(boxes := s.boxes[w := s.boxes[w].(queue := s.boxes[w].queue + [op])],
       history := s.history[w := s.history[w] + [op]])
  }

  /** The steps of the manager. */
  function Managed(s: System, a: Action): (r: System)
    requires Shaped(s) && a.ByManager()
    ensures Shaped(r) && |r.boxes| == |s.boxes|
  {
    match a
    case StartBattle(room, players) =>
      var w := AssignWorker(room, |s.boxes|);
      Enqueued(s, w, AddRoom(room, players)).(owner := s.owner[room := w])
    case EndBattle(room, known) =>
      if room !in s.owner || !known then s
      else Enqueued(s, s.owner[room], RemoveRoom(room)).(owner := s.owner - {room})
    case PlayerGone(room, player, stamp) =>
      if room !in s.owner then s else Enqueued(s, s.owner[room], MarkDisconnected(room, player, stamp))
  }

  /** A worker's thread does something to what it holds. */
  function Performed(sqrt: real -> real, s: System, w: nat, e: Entry): (r: System)
    requires Shaped(s) && w < |s.boxes|
    ensures Shaped(r)
  {
    var b := s.boxes[w];
    s.(boxes := s.boxes[w := Mailbox(Perform(sqrt, b.worker, e), None, b.queue)],
       logs := s.logs[w := s.logs[w] + [e]])
  }

  function Step(sqrt: real -> real, s: System, a: Action): (r: System)
    requires Shaped(s) && Enabled(s, a)
    ensures Shaped(r) && |r.boxes| == |s.boxes|
  {
    match a
    case Pop(w) =>
      var b := s.boxes[w];
      s.(boxes := s.boxes[w := b.(inFlight := Some(b.queue[0]), queue := b.queue[1..])])
    case Finish(w) => Performed(sqrt, s, w, Applied(s.boxes[w].inFlight.value))
    case TickWorker(w, order, cmds, now) => Performed(sqrt, s, w, Ticked(order, cmds, now))
    case _ => Managed(s, a)
  }

  function Start(n: nat): (s: System)
    requires n > 0
    ensures Shaped(s)
  {
    System(seq(n, _ => Mailbox(IDLE, None, [])), map[], seq(n, _ => []), seq(n, _ => []))
  }

  /** A run: the states it goes through. */
  ghost predicate IsRun(sqrt: real -> real, trace: seq<System>, actions: seq<Action>) {
    && |trace| == |actions| + 1
    && (forall i :: 0 <= i < |trace| ==> Shaped(trace[i]))
    && (forall i :: 0 <= i < |actions| ==>
          Enabled(trace[i], actions[i]) && trace[i + 1] == Step(sqrt, trace[i], actions[i]))
  }

  // ---------------------------------------------------------------- nothing is lost

  /** The operations of a log. */
  function OpsOf(log: seq<Entry>): seq<PendingOp> {
    if log == [] then []
    else OpsOf(log[..|log| - 1]) + if log[|log| - 1].Applied? then [log[|log| - 1].op] else []
  }

  lemma OpsMore(log: seq<Entry>, e: Entry)
    ensures OpsOf(log + [e]) == OpsOf(log) + if e.Applied? then [e.op] else []
  {
    assert (log + [e])[..|log|] == log;
  }

  ghost predicate FreshAdds(ops: seq<PendingOp>) {
    forall op :: op in ops && op.AddRoom? ==> Fresh(op.players)
  }

  /**
    What a worker has applied, followed by what is in flight and queued, is everything ever enqueued to it, in
    order; and what it holds is what its operations and ticks have made of nothing.
   */
  ghost predicate Accounted(sqrt: real -> real, b: Mailbox, log: seq<Entry>, history: seq<PendingOp>) {
    && OpsOf(log) + b.Todo() == history
    && b.worker == Replay(sqrt, log)
    && FreshAdds(history)
  }

  ghost predicate Faithful(sqrt: real -> real, s: System)
    requires Shaped(s)
  {
    forall w :: 0 <= w < |s.boxes| ==> Accounted(sqrt, s.boxes[w], s.logs[w], s.history[w])
  }

  lemma AccountEnqueue(sqrt: real -> real, b: Mailbox, log: seq<Entry>, history: seq<PendingOp>, op: PendingOp)
    requires Accounted(sqrt, b, log, history) && (op.AddRoom? ==> Fresh(op.players))
    ensures Accounted(sqrt, b.(queue := b.queue + [op]), log, history + [op])
  {
    hide OpsOf, Replay, Fresh;
    assert b.(queue := b.queue + [op]).Todo() == b.Todo() + [op];
    Assoc(OpsOf(log), b.Todo(), [op]);
  }

  lemma AccountPop(sqrt: real -> real, b: Mailbox, log: seq<Entry>, history: seq<PendingOp>)
    requires Accounted(sqrt, b, log, history) && b.inFlight.None? && b.queue != []
    ensures Accounted(sqrt, b.(inFlight := Some(b.queue[0]), queue := b.queue[1..]), log, history)
  {
    hide OpsOf, Replay, FreshAdds;
    assert [b.queue[0]] + b.queue[1..] == [] + b.queue;
  }

  lemma AccountPerform(sqrt: real -> real, b: Mailbox, log: seq<Entry>, history: seq<PendingOp>, e: Entry)
    requires Accounted(sqrt, b, log, history)
    requires b.inFlight == if e.Applied? then Some(e.op) else None
    ensures Accounted(sqrt, Mailbox(Perform(sqrt, b.worker, e), None, b.queue), log + [e], history)
  {
    hide OpsOf, Replay, FreshAdds, Perform;
    OpsMore(log, e);
    ReplayMore(sqrt, log, e);
    var b' := Mailbox(Perform(sqrt, b.worker, e), None, b.queue);
    assert b'.Todo() == b.queue;
    assert OpsOf(log + [e]) + b.queue == OpsOf(log) + b.Todo();
  }

  lemma FaithfulStep(sqrt: real -> real, s: System, a: Action)
    requires Shaped(s) && Enabled(s, a) && Faithful(sqrt, s)
    ensures Faithful(sqrt, Step(sqrt, s, a))
  {
    hide Accounted, Perform, Mailbox.Todo, Enumerates, Fresh;
    match a
    case StartBattle(room, players) =>
      FaithfulEnqueue(sqrt, s, AssignWorker(room, |s.boxes|), AddRoom(room, players));
    case EndBattle(room, known) =>
      if room in s.owner && known {
        FaithfulEnqueue(sqrt, s, s.owner[room], RemoveRoom(room));
      }
    case PlayerGone(room, player, stamp) =>
      if room in s.owner {
        FaithfulEnqueue(sqrt, s, s.owner[room], MarkDisconnected(room, player, stamp));
      }
    case Pop(w) => AccountPop(sqrt, s.boxes[w], s.logs[w], s.history[w]);
    case Finish(w) => AccountPerform(sqrt, s.boxes[w], s.logs[w], s.history[w], Applied(s.boxes[w].inFlight.value));
    case TickWorker(w, order, cmds, now) =>
      AccountPerform(sqrt, s.boxes[w], s.logs[w], s.history[w], Ticked(order, cmds, now));
  }

  lemma FaithfulEnqueue(sqrt: real -> real, s: System, w: nat, op: PendingOp)
    requires Shaped(s) && w < |s.boxes| && Faithful(sqrt, s) && (op.AddRoom? ==> Fresh(op.players))
    ensures Faithful(sqrt, Enqueued(s, w, op))
  {
    hide Accounted, Fresh;
    AccountEnqueue(sqrt, s.boxes[w], s.logs[w], s.history[w], op);
  }

  /** For every interleaving of enqueues, pops, applications and ticks, no operation is lost, repeated or reordered. */
  lemma {:induction false} NothingLost(sqrt: real -> real, trace: seq<System>, actions: seq<Action>, n: nat)
    requires n > 0 && IsRun(sqrt, trace, actions) && trace[0] == Start(n)
    ensures Faithful(sqrt, trace[|actions|])
    decreases |actions|
  {
    hide Step, Enabled;
    var k := |actions|;
    if k > 0 {
      hide Faithful;
      NothingLost(sqrt, trace[..k], actions[..k - 1], n);
      FaithfulStep(sqrt, trace[k - 1], actions[k - 1]);
    }
  }

  lemma {:induction false} FreshHistory(log: seq<Entry>)
    requires FreshAdds(OpsOf(log))
    ensures FreshStarts(log)
    decreases |log|
  {
    hide Fresh;
    if log != [] {
      var before, e := log[..|log| - 1], log[|log| - 1];
      assert OpsOf(log) == OpsOf(before) + if e.Applied? then [e.op] else [];
      FreshHistory(before);
    }
  }

  /**
    Over every run of the manager and its workers, every battle in progress on any worker obeys the laws of a
    single battle, and the numbers a worker accepts from a player rise across all the battles it has run.
   */
  lemma BattlesOverall(sqrt: real -> real, trace: seq<System>, actions: seq<Action>, n: nat, w: nat, r: RoomId)
    requires n > 0 && IsRun(sqrt, trace, actions) && trace[0] == Start(n)
    requires w < |trace[|actions|].boxes|
    ensures var s := trace[|actions|];
            && (r in s.boxes[w].worker.rooms ==> BattleRuns.Conserved(s.boxes[w].worker.rooms[r].players))
            && BattleRuns.Increasing(AcceptedBy(sqrt, s.logs[w]))
  {
    hide Replay, OpsOf, FreshAdds, Step, Enabled, BattleRuns.Conserved, AcceptedBy, BattleRuns.Increasing;
    NothingLost(sqrt, trace, actions, n);
    var s := trace[|actions|];
    assert Accounted(sqrt, s.boxes[w], s.logs[w], s.history[w]);
    FreshPrefix(OpsOf(s.logs[w]), s.boxes[w].Todo());
    FreshHistory(s.logs[w]);
    if r in s.boxes[w].worker.rooms {
      EveryBattle(sqrt, s.logs[w], r);
    }
    AcrossBattles(sqrt, s.logs[w]);
  }

  lemma FreshPrefix(ops: seq<PendingOp>, more: seq<PendingOp>)
    requires FreshAdds(ops + more)
    ensures FreshAdds(ops)
  {
    assert forall op :: op in ops ==> op in ops + more;
  }

  // ---------------------------------------------------------------- who has which room

  lemma {:induction false} ApplyOpsAppend(rooms: Rooms, ops: seq<PendingOp>, op: PendingOp)
    ensures ApplyOps(rooms, ops + [op]) == ApplyOp(ApplyOps(rooms, ops), op)
    decreases |ops|
  {
    if ops == [] {
      assert ops + [op] == [op];
    } else {
      assert (ops + [op])[1..] == ops[1..] + [op];
      ApplyOpsAppend(ApplyOp(rooms, ops[0]), ops[1..], op);
    }
  }

  /** Operations act on the set of rooms without looking at their contents. */
  lemma {:induction false} ApplyOpsKeys(rooms: Rooms, rooms': Rooms, ops: seq<PendingOp>)
    requires rooms.Keys == rooms'.Keys
    ensures ApplyOps(rooms, ops).Keys == ApplyOps(rooms', ops).Keys
    decreases |ops|
  {
    if ops != [] {
      ApplyOpsKeys(ApplyOp(rooms, ops[0]), ApplyOp(rooms', ops[0]), ops[1..]);
    }
  }

  lemma EventualEnqueue(b: Mailbox, op: PendingOp)
    ensures b.(queue := b.queue + [op]).Eventual() == ApplyOp(b.Eventual(), op)
  {
    assert b.(queue := b.queue + [op]).Todo() == b.Todo() + [op];
    ApplyOpsAppend(b.worker.rooms, b.Todo(), op);
  }

  lemma EventualPop(b: Mailbox)
    requires b.inFlight.None? && b.queue != []
    ensures b.(inFlight := Some(b.queue[0]), queue := b.queue[1..]).Eventual() == b.Eventual()
  {
    assert [b.queue[0]] + b.queue[1..] == [] + b.queue;
  }

  lemma EventualFinish(sqrt: real -> real, b: Mailbox)
    requires b.inFlight.Some?
    ensures Mailbox(Perform(sqrt, b.worker, Applied(b.inFlight.value)), None, b.queue).Eventual() == b.Eventual()
  {
    assert b.Todo()[1..] == [] + b.queue;
  }

  lemma EventualTick(sqrt: real -> real, b: Mailbox, order: seq<RoomId>, cmds: seq<Command>, now: RoomId -> int)
    requires b.inFlight.None? && Enumerates(order, b.worker.rooms.Keys)
    ensures Mailbox(Perform(sqrt, b.worker, Ticked(order, cmds, now)), None, b.queue).Eventual().Keys
         == b.Eventual().Keys
  {
    hide TickRooms, ApplyOps;
    TickRoomsKeys(sqrt, b.worker, order, cmds, now);
    ApplyOpsKeys(b.worker.rooms, Perform(sqrt, b.worker, Ticked(order, cmds, now)).rooms, b.Todo());
  }

  /** The one worker a room may live on. */
  ghost function Home(r: RoomId, n: nat): (w: nat)
    requires n > 0
    ensures w < n
  {
    r % n
  }

  lemma AssignedHome(r: RoomId, n: nat)
    requires n > 0
    ensures AssignWorker(r, n) == Home(r, n)
  {
  }

  /** The rooms mapped to a worker are exactly the rooms it will have; a room belongs to worker id mod n only. */
  ghost predicate Owned(s: System)
    requires Shaped(s)
  {
    && (forall r :: r in s.owner ==> s.owner[r] == Home(r, |s.boxes|))
    && (forall w, r :: 0 <= w < |s.boxes| ==> (r in s.boxes[w].Eventual() <==> r in s.owner && s.owner[r] == w))
  }

  /** Steps of a worker's own thread. */
  lemma WorkerStepOwned(sqrt: real -> real, s: System, a: Action)
    requires Shaped(s) && Enabled(s, a) && Owned(s) && !a.ByManager()
    ensures Owned(Step(sqrt, s, a))
  {
    hide ApplyOps, ApplyOp, Mailbox.Eventual, Perform, Enumerates, AssignWorker, Home;
    match a
    case Pop(w) => EventualPop(s.boxes[w]);
    case Finish(w) => EventualFinish(sqrt, s.boxes[w]);
    case TickWorker(w, order, cmds, now) => EventualTick(sqrt, s.boxes[w], order, cmds, now);
  }

  /**
    What the manager's steps lead to: the room with its players on worker id mod n, the room gone, the player marked;
    and nothing changes on any other worker.
   */
  lemma ManagerOutcome(s: System, a: Action)
    requires Shaped(s) && a.ByManager()
    ensures var r, n := Managed(s, a), |s.boxes|;
            match a
            case StartBattle(room, players) =>
              && r.owner == s.owner[room := Home(room, n)]
              && r.boxes == s.boxes[Home(room, n) := r.boxes[Home(room, n)]]
              && r.boxes[Home(room, n)].Eventual()
              == s.boxes[Home(room, n)].Eventual()[room := RoomState(players, map[])]
            case EndBattle(room, known) =>
              if room in s.owner && known
              then && r.owner == s.owner - {room} && r.boxes == s.boxes[s.owner[room] := r.boxes[s.owner[room]]]
                   && r.boxes[s.owner[room]].Eventual() == s.boxes[s.owner[room]].Eventual() - {room}
              else r == s
            case PlayerGone(room, player, stamp) =>
              if room in s.owner
              then && r.owner == s.owner && r.boxes == s.boxes[s.owner[room] := r.boxes[s.owner[room]]]
                   && var old_, new_ := s.boxes[s.owner[room]].Eventual(), r.boxes[s.owner[room]].Eventual();
                      new_ == if room !in old_ then old_
                              else old_[room := RoomState(old_[room].players,
                                                          old_[room].disconnected[player := stamp])]
              else r == s
  {
    hide ApplyOps, Mailbox.Eventual, AssignWorker, Home;
    match a
    case StartBattle(room, players) =>
      AssignedHome(room, |s.boxes|);
      EventualEnqueue(s.boxes[Home(room, |s.boxes|)], AddRoom(room, players));
    case EndBattle(room, known) =>
      if room in s.owner && known {
        EventualEnqueue(s.boxes[s.owner[room]], RemoveRoom(room));
      }
    case PlayerGone(room, player, stamp) =>
      if room in s.owner {
        EventualEnqueue(s.boxes[s.owner[room]], MarkDisconnected(room, player, stamp));
      }
  }

  /** Steps of the manager. */
  lemma ManagerStepOwned(s: System, a: Action)
    requires Shaped(s) && Owned(s) && a.ByManager()
    ensures Owned(Managed(s, a))
  {
    hide Managed, Mailbox.Eventual, Home;
    ManagerOutcome(s, a);
  }

  lemma OwnedStep(sqrt: real -> real, s: System, a: Action)
    requires Shaped(s) && Enabled(s, a) && Owned(s)
    ensures Owned(Step(sqrt, s, a))
  {
    hide Owned, Managed;
    if a.ByManager() {
      ManagerStepOwned(s, a);
    } else {
      WorkerStepOwned(sqrt, s, a);
    }
  }

  /** Over every run, ticks included, the ownership map and the workers agree on who has which room. */
  lemma {:induction false} OwnershipAgrees(sqrt: real -> real, trace: seq<System>, actions: seq<Action>, n: nat)
    requires n > 0 && IsRun(sqrt, trace, actions) && trace[0] == Start(n)
    ensures Owned(trace[|actions|])
    decreases |actions|
  {
    hide Step, Enabled, AssignWorker;
    var k := |actions|;
    if k == 0 {
      assert forall b: Mailbox :: b == Mailbox(IDLE, None, []) ==> b.Todo() == [];
    } else {
      OwnershipAgrees(sqrt, trace[..k], actions[..k - 1], n);
      OwnedStep(sqrt, trace[k - 1], actions[k - 1]);
    }
  }
}
