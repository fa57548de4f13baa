/**
  Borrowing from src/storage/connection_pool.h as a step system. A guard is a pair of pointers that moves
  hand over and null out; every acquisition and release holds the pool's mutex, so each is one step.
 */
module ConnectionPool {
  import opened Bytes

  type PoolId = nat
  type GuardId = nat
  type Conn = nat

  datatype Guard = Guard(pool: Option<PoolId>, conn: Option<Conn>) {
    predicate Holds(p: PoolId, c: Conn) { pool == Some(p) && conn == Some(c) }
  }

  const EMPTY := Guard(None, None)

  datatype System = System(idle: map<PoolId, seq<Conn>>, guards: map<GuardId, Guard>)

  datatype Action =
    | Borrow(pool: PoolId, guard: GuardId)
    | MoveConstruct(guard: GuardId, from: GuardId)
    | MoveAssign(guard: GuardId, from: GuardId)
    | Destroy(guard: GuardId)

  /** borrow waits for an idle connection; new guards get new names. */
  predicate Enabled(s: System, a: Action) {
    match a
    case Borrow(p, g) => p in s.idle && s.idle[p] != [] && g !in s.guards
    case MoveConstruct(g, from) => from in s.guards && g !in s.guards
    case MoveAssign(g, from) => g in s.guards && from in s.guards
    case Destroy(g) => g in s.guards
  }

  /** `if (pool_ && conn_) pool_->returnConn(conn_)` */
  function Released(s: System, g: Guard): (r: System)
    ensures r.guards == s.guards && r.idle.Keys >= s.idle.Keys
  {
    if g.pool.Some? && g.conn.Some? && g.pool.value in s.idle
    then s.(idle := s.idle[g.pool.value := s.idle[g.pool.value] + [g.conn.value]])
    else s
  }

  function Step(s: System, a: Action): System
    requires Enabled(s, a)
  {
    match a
    case Borrow(p, g) =>
      System(s.idle[p := s.idle[p][1..]], s.guards[g := Guard(Some(p), Some(s.idle[p][0]))])
    case MoveConstruct(g, from) => s.(guards := s.guards[g := s.guards[from]][from := EMPTY])
    case MoveAssign(g, from) =>
      if g == from then s
      else
        var r := Released(s, s.guards[g]);
        r.(guards := r.guards[g := r.guards[from]][from := EMPTY])
    case Destroy(g) =>
      var r := Released(s, s.guards[g]);
      r.(guards := r.guards - {g})
  }

  /** Connections are lent in the order in which they became idle: the front is lent, and returns go to the back. */
  lemma LentInOrder(s: System, p: PoolId, g: GuardId)
    requires p in s.idle
    ensures Enabled(s, Borrow(p, g)) ==>
              var r := Step(s, Borrow(p, g));
              && g in r.guards && r.guards[g].conn.Some? && r.guards[g].pool == Some(p)
              && s.idle[p] == [r.guards[g].conn.value] + r.idle[p]
    ensures g in s.guards && s.guards[g].pool == Some(p) && s.guards[g].conn.Some? ==>
              var r := Step(s, Destroy(g));
              r.idle == s.idle[p := s.idle[p] + [s.guards[g].conn.value]] && r.guards == s.guards - {g}
  {
  }

  /** Some live guard holds connection `c` of pool `p`. */
  ghost predicate Held(s: System, p: PoolId, c: Conn) {
    exists g :: g in s.guards && s.guards[g].Holds(p, c)
  }

  ghost predicate WellHeld(s: System) {
    forall g :: g in s.guards ==>
      s.guards[g] == EMPTY ||
      (s.guards[g].pool.Some? && s.guards[g].conn.Some? && s.guards[g].pool.value in s.idle)
  }

  /** No two live guards hold the same connection. */
  ghost predicate Exclusive(s: System) {
    forall g, h, p, c :: g in s.guards && h in s.guards && s.guards[g].Holds(p, c) && s.guards[h].Holds(p, c) ==> g == h
  }

  /** The idle queue and the live guards partition the connections created for each pool. */
  ghost predicate Partition(created: map<PoolId, set<Conn>>, s: System) {
    && created.Keys == s.idle.Keys && WellHeld(s) && Exclusive(s)
    && (forall p :: p in s.idle ==> Distinct(s.idle[p]))
    && (forall p, c :: p in s.idle ==> (c in created[p] <==> c in s.idle[p] || Held(s, p, c)))
    && (forall p, c :: p in s.idle && c in s.idle[p] ==> !Held(s, p, c))
  }

  lemma BorrowKeeps(created: map<PoolId, set<Conn>>, s: System, p: PoolId, g: GuardId)
    requires Partition(created, s) && Enabled(s, Borrow(p, g))
    ensures Partition(created, Step(s, Borrow(p, g)))
  {
    var r := Step(s, Borrow(p, g));
    var q := s.idle[p];
    assert forall h :: h in s.guards ==> h in r.guards && r.guards[h] == s.guards[h];
    assert r.guards[g].Holds(p, q[0]) && q[0] in q;
    forall p', c' ensures Held(r, p', c') <==> Held(s, p', c') || (p' == p && c' == q[0]) {
      if Held(r, p', c') {
        var h :| h in r.guards && r.guards[h].Holds(p', c');
        assert h != g ==> s.guards[h].Holds(p', c');
      }
      if Held(s, p', c') {
        var h :| h in s.guards && s.guards[h].Holds(p', c');
        assert r.guards[h].Holds(p', c');
      }
    }
    forall h, k, p', c' | h in r.guards && k in r.guards && r.guards[h].Holds(p', c') && r.guards[k].Holds(p', c')
      ensures h == k
    {
      if h != k && (h == g || k == g) {
        assert Held(s, p, q[0]);
      }
    }
    assert q == [q[0]] + q[1..];
  }

  /** Handing a guard's pointers to an empty or new guard changes no holding. */
  lemma MoveKeeps(created: map<PoolId, set<Conn>>, s: System, g: GuardId, from: GuardId)
    requires Partition(created, s) && from in s.guards && g != from
    requires g in s.guards ==> s.guards[g] == EMPTY
    ensures Partition(created, s.(guards := s.guards[g := s.guards[from]][from := EMPTY]))
  {
    var r := s.(guards := s.guards[g := s.guards[from]][from := EMPTY]);
    forall p, c ensures Held(r, p, c) <==> Held(s, p, c) {
      if Held(r, p, c) {
        var h :| h in r.guards && r.guards[h].Holds(p, c);
        assert s.guards[if h == g then from else h].Holds(p, c);
      }
      if Held(s, p, c) {
        var h :| h in s.guards && s.guards[h].Holds(p, c);
        assert r.guards[if h == from then g else h].Holds(p, c);
      }
    }
  }

  /** Releasing a guard's connection and emptying the guard puts the connection back, at the end of the queue. */
  lemma ReleaseKeeps(created: map<PoolId, set<Conn>>, s: System, g: GuardId)
    requires Partition(created, s) && g in s.guards
    ensures var r := Released(s, s.guards[g]);
            Partition(created, r.(guards := r.guards[g := EMPTY])) && Partition(created, r.(guards := r.guards - {g}))
  {
    var r := Released(s, s.guards[g]);
    DropKeeps(created, s, g, r.(guards := r.guards[g := EMPTY]));
    DropKeeps(created, s, g, r.(guards := r.guards - {g}));
  }

  lemma DropKeeps(created: map<PoolId, set<Conn>>, s: System, g: GuardId, r: System)
    requires Partition(created, s) && g in s.guards
    requires r.idle == Released(s, s.guards[g]).idle
    requires r.guards == s.guards[g := EMPTY] || r.guards == s.guards - {g}
    ensures Partition(created, r)
  {
    var gone := s.guards[g];
    forall p, c ensures Held(s, p, c) <==> Held(r, p, c) || gone.Holds(p, c) {
      if Held(r, p, c) {
        var h :| h in r.guards && r.guards[h].Holds(p, c);
        assert s.guards[h].Holds(p, c);
      }
      if Held(s, p, c) && !gone.Holds(p, c) {
        var h :| h in s.guards && s.guards[h].Holds(p, c);
        assert h in r.guards && r.guards[h].Holds(p, c);
      }
    }
    forall p, c | Held(r, p, c) ensures !gone.Holds(p, c) {
      var h :| h in r.guards && r.guards[h].Holds(p, c);
      assert h != g && s.guards[h].Holds(p, c);
    }
    if gone != EMPTY {
      var p, c := gone.pool.value, gone.conn.value;
      assert Held(s, p, c);
      assert r.idle[p] == s.idle[p] + [c];
    }
  }

  lemma StepKeeps(created: map<PoolId, set<Conn>>, s: System, a: Action)
    requires Partition(created, s) && Enabled(s, a)
    ensures Partition(created, Step(s, a))
  {
    hide Partition, Released;
    match a
    case Borrow(p, g) => BorrowKeeps(created, s, p, g);
    case MoveConstruct(g, from) => MoveKeeps(created, s, g, from);
    case MoveAssign(g, from) =>
      if g != from {
        var r := Released(s, s.guards[g]);
        ReleaseKeeps(created, s, g);
        MoveKeeps(created, r.(guards := r.guards[g := EMPTY]), g, from);
        assert r.guards[g := EMPTY][g := r.guards[from]][from := EMPTY] == r.guards[g := r.guards[from]][from := EMPTY];
      }
    case Destroy(g) => ReleaseKeeps(created, s, g);
  }

  /** A run goes through enabled steps only. */
  ghost predicate IsRun(trace: seq<System>, actions: seq<Action>) {
    && |trace| == |actions| + 1
    && forall i :: 0 <= i < |actions| ==> Enabled(trace[i], actions[i]) && trace[i + 1] == Step(trace[i], actions[i])
  }

  /** Over every run no connection is lost, duplicated or held by two guards. */
  lemma {:induction false} PoolConservation(created: map<PoolId, set<Conn>>, trace: seq<System>, actions: seq<Action>)
    requires IsRun(trace, actions) && Partition(created, trace[0])
    ensures Partition(created, trace[|actions|])
    decreases |actions|
  {
    hide Partition, Step, Enabled;
    var k := |actions|;
    if k > 0 {
      PoolConservation(created, trace[..k], actions[..k - 1]);
      StepKeeps(created, trace[k - 1], actions[k - 1]);
    }
  }

  /** Freshly filled pools satisfy the partition. */
  lemma FullPools(idle: map<PoolId, seq<Conn>>)
    requires forall p :: p in idle ==> Distinct(idle[p])
    ensures Partition(map p | p in idle :: (set c | c in idle[p]), System(idle, map[]))
  {
  }

  /** Filling the pool: if creation fails half way, exactly the connections made so far are destroyed. */
  method Open(made: seq<Option<Conn>>) returns (pool: Option<seq<Conn>>, destroyed: seq<Conn>)
    ensures pool.Some? <==> None !in made
    ensures pool.Some? ==> destroyed == [] && |pool.value| == |made|
    ensures pool.Some? ==> forall i :: 0 <= i < |made| ==> made[i] == Some(pool.value[i])
    ensures pool.None? ==> |destroyed| < |made| && made[|destroyed|] == None
    ensures pool.None? ==> forall i :: 0 <= i < |destroyed| ==> made[i] == Some(destroyed[i])
  {
    var queue := [];
    destroyed := [];
    for i := 0 to |made|
      invariant |queue| == i && destroyed == [] && forall j :: 0 <= j < i ==> made[j] == Some(queue[j])
    {
      if made[i].None? {
        ghost var all := queue;
        while queue != []
          invariant destroyed + queue == all
          decreases |queue|
        {
          destroyed, queue := destroyed + [queue[0]], queue[1..];
        }
        return None, destroyed;
      }
      queue := queue + [made[i].value];
    }
    return Some(queue), [];
  }

  // ---------------------------------------------------------------- the objects

  class Pool {
    var idle: seq<Conn>

    /** borrow, once the wait for an idle connection is over. */
    method Lend() returns (g: GuardObject)
      requires idle != []
      modifies this
      ensures fresh(g) && g.pool == this && g.conn == Some(old(idle)[0]) && idle == old(idle)[1..]
    {
      var c := idle[0];
      idle := idle[1..];
      g := new GuardObject(this, Some(c));
    }

    method ReturnConn(c: Conn)
      modifies this
      ensures idle == old(idle) + [c]
    {
      idle := idle + [c];
    }
  }

  class GuardObject {
    var pool: Pool?
    var conn: Option<Conn>

    constructor (pool: Pool?, conn: Option<Conn>)
      ensures this.pool == pool && this.conn == conn
    {
      this.pool, this.conn := pool, conn;
    }

    /** The move constructor. */
    constructor From(other: GuardObject)
      modifies other
      ensures pool == old(other.pool) && conn == old(other.conn)
      ensures other.pool == null && other.conn == None
    {
      pool, conn := other.pool, other.conn;
      new;
      other.pool, other.conn := null, None;
    }

    /** What the destructor does, and move assignment before it takes over the other guard's pointers. */
    method Release()
      modifies pool
      ensures pool != null && conn.Some? ==> pool.idle == old(pool.idle) + [conn.value]
      ensures pool != null && conn.None? ==> pool.idle == old(pool.idle)
    {
      if pool != null && conn.Some? {
        pool.ReturnConn(conn.value);
      }
    }

    /** Move assignment: its own connection goes back, the other guard's is taken over; onto itself, nothing. */
    method Assign(other: GuardObject)
      modifies this, other, pool
      ensures this == other ==> pool == old(pool) && conn == old(conn)
      ensures this != other ==> pool == old(other.pool) && conn == old(other.conn)
      ensures this != other ==> other.pool == null && other.conn == None
      ensures old(pool) != null ==>
                old(pool).idle == old(pool.idle) + (if this != other && old(conn).Some? then [old(conn).value] else [])
    {
      if this != other {
        Release();
        pool, conn := other.pool, other.conn;
        other.pool, other.conn := null, None;
      }
    }
  }
}
