/** The battle manager as an object, src/game/battle_manager.cpp, against the step system of module PendingOps. */
module BattleManager {
  import opened Bytes
  import opened Battle
  import opened LogicWorker
  import opened PendingOps
  import opened WorkerRuns

  /** The n-th player of a new battle: the initial statistics, n steps of 50 along the x axis. */
  function Newcomer(n: nat): (p: Player)
    ensures FreshPlayer(p)
  {
    Player(50.0 * n as real, 0.0, 0.0, 1.0, 200.0, 1000, 100, 50, true, map[], 0, 0, 0, 0)
  }

  /** One of the first `n` places, which are 50 apart. */
  ghost predicate OnPlace(x: real, n: nat) {
    exists k :: 0 <= k < n && IsPlace(x, k)
  }

  ghost predicate IsPlace(x: real, k: nat) { x == 50.0 * k as real }

  /** The players face up the y axis and stand on the first places of the x axis, no two on the same. */
  ghost predicate Spread(players: Players) {
    && (forall p :: p in players ==> players[p].y == 0.0 && OnPlace(players[p].x, |players|))
    && (forall p :: p in players ==> players[p].dirX == 0.0 && players[p].dirY == 1.0)
    && (forall p, q :: p in players && q in players && p != q ==> players[p].x != players[q].x)
  }

  lemma JoinKeeps(players: Players, p: PlayerId)
    requires Spread(players) && p !in players
    ensures Spread(players[p := Newcomer(|players|)])
  {
    hide OnPlace;
    var n := |players|;
    var more := players[p := Newcomer(n)];
    assert |more| == n + 1;
    NewPlace(more[p].x, n);
    forall q | q in players ensures OnPlace(players[q].x, n + 1) && players[q].x != more[p].x {
      OldPlace(players[q].x, more[p].x, n);
    }
  }

  lemma NewPlace(x: real, n: nat)
    requires x == 50.0 * n as real
    ensures OnPlace(x, n + 1)
  {
    assert IsPlace(x, n);
  }

  lemma OldPlace(x: real, x': real, n: nat)
    requires OnPlace(x, n) && x' == 50.0 * n as real
    ensures OnPlace(x, n + 1) && x != x'
  {
    var k: nat :| k < n && IsPlace(x, k);
    assert IsPlace(x, k);
  }

  method BuildPlayers(members: set<PlayerId>) returns (players: Players)
    ensures Fresh(players) && Spread(players) && players.Keys == members
  {
    hide Spread;
    players := map[];
    assert Spread(players) by { NobodySpread(); }
    var todo := members;
    while todo != {}
      invariant todo <= members && players.Keys == members - todo
      invariant Fresh(players) && Spread(players)
      decreases todo
    {
      var p :| p in todo;
      JoinKeeps(players, p);
      players := players[p := Newcomer(|players|)];
      todo := todo - {p};
    }
  }

  lemma NobodySpread()
    ensures Spread(map[])
  {
  }

  class BattleManager {
    const workers: seq<LogicWorker>
    var roomToWorker: map<RoomId, nat>  // the index of the worker pointed to
    ghost var history: seq<seq<PendingOp>>
    ghost var logs: seq<seq<Entry>>

    ghost predicate Valid()
      reads this
    {
      && |workers| == |history| == |logs| > 0
      && (forall i, j :: 0 <= i < j < |workers| ==> workers[i] != workers[j])
      && (forall r :: r in roomToWorker ==> roomToWorker[r] < |workers|)
    }

    /** The engines and grids of the workers. */
    ghost function Parts(): set<object> {
      (set w | w in workers :: w.engine as object) + (set w | w in workers :: w.aoi as object)
    }

    ghost function Boxes(): (s: seq<Mailbox>)
      reads workers, Parts()
      ensures |s| == |workers|
    {
      seq(|workers|, i requires 0 <= i < |workers| reads workers, Parts() =>
        Mailbox(workers[i].Model(), None, workers[i].pending))
    }

    ghost function Model(): (s: System)
      requires Valid()
      reads this, workers, Parts()
      ensures Shaped(s)
    {
      System(Boxes(), roomToWorker, history, logs)
    }

    /** assignWorker: rooms are spread by id. */
    function WorkerFor(room: RoomId): (w: nat)
      requires |workers| > 0
      ensures w < |workers|
    {
      AssignWorker(room, |workers|)
    }

    /** Hand an operation to a worker's queue; nothing else of any worker changes. */
    method Post(w: nat, op: PendingOp)
      requires Valid() && w < |workers|
      modifies this`history, workers[w]
      ensures Valid() && Model() == Enqueued(old(Model()), w, op)
    {
      workers[w].Enqueue(op);
      history := history[w := history[w] + [op]];
    }

    method StartRoom(room: RoomId, members: set<PlayerId>) returns (ghost players: Players)
      requires Valid()
      modifies this, workers
      ensures Valid() && Fresh(players) && Spread(players) && players.Keys == members
      ensures Model() == Managed(old(Model()), StartBattle(room, players))
    {
      hide Spread, Fresh, AssignWorker;
      var built := BuildPlayers(members);
      players := built;
      var w := WorkerFor(room);
      assert Model() == old(Model());
      Post(w, AddRoom(room, built));
      roomToWorker := roomToWorker[room := w];
    }

    /** `known` is whether the room manager still has the room. */
    method EndRoom(room: RoomId, known: bool)
      requires Valid()
      modifies this, workers
      ensures Valid() && Model() == Managed(old(Model()), EndBattle(room, known))
    {
      if room !in roomToWorker || !known {
        return;
      }
      Post(roomToWorker[room], RemoveRoom(room));
      roomToWorker := roomToWorker - {room};
    }

    method OnPlayerDisconnect(player: PlayerId, room: RoomId, stamp: int)
      requires Valid()
      modifies this, workers
      ensures Valid() && Model() == Managed(old(Model()), PlayerGone(room, player, stamp))
    {
      if room in roomToWorker {
        Post(roomToWorker[room], MarkDisconnected(room, player, stamp));
      }
    }
  }
}
