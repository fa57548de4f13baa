/**
  The timing wheel of src/network/timer_wheel.cpp: 6000 buckets of 10 ms each, refining a plain
  map from id to the number of ticks left. Callbacks are labels; a tick reports the entries it fires.
 */
module TimerWheel {
  import opened Bytes

  const SLOTS: nat := 6000
  const TICK_MS: nat := 10

  type Id = u64
  datatype Entry = Entry(id: Id, callback: nat)

  // ---------------------------------------------------------------- the specification

  datatype Timer = Timer(left: nat, callback: nat)
  type Timers = map<Id, Timer>

  /** slotOf's rounding: 64-bit addition, ceiling division, at least one tick. */
  function Ticks(delay: u64): (t: nat)
    ensures t >= 1
  {
    var t := (delay + TICK_MS - 1) % 0x1_0000_0000_0000_0000 / TICK_MS;
    if t == 0 then 1 else t
  }

  /** How long a delay really takes on a wheel of 6000 slots. */
  function Left(delay: u64): (n: nat)
    ensures 1 <= n <= SLOTS
  {
    (Ticks(delay) - 1) % SLOTS + 1
  }

  /** The promised number of ticks: the ceiling of delay / 10, and at least one. */
  function Promised(delay: u64): nat {
    if delay == 0 then 1 else (delay + 9) / 10
  }

  /** The wheel keeps its promise exactly for delays it covers, up to 60 seconds. */
  lemma LeftIsPromised(delay: u64)
    ensures Left(delay) == Promised(delay) <==> delay <= SLOTS * TICK_MS
  {
  }

  /** Every delay takes its promised ticks modulo a turn of the wheel; the rounding of the last nine overflows. */
  lemma LeftExactly(delay: u64)
    ensures Left(delay) ==
              if delay < 0xFFFF_FFFF_FFFF_FFF7 then (Promised(delay) - 1) % 6000 + 1 else 1
  {
  }

  /** One millisecond more, and the timer fires on the next tick. */
  lemma EarlyExample()
    ensures Promised(60000) == 6000 == Left(60000)
    ensures Promised(60001) == 6001 && Left(60001) == 1
  {
  }

  function Added(m: Timers, id: Id, delay: u64, callback: nat): Timers {
    m[id := Timer(Left(delay), callback)]
  }

  function Refreshed(m: Timers, id: Id, delay: u64): Timers {
    if id in m then Added(m, id, delay, m[id].callback) else m
  }

  function Due(m: Timers): set<Id> {
    set id | id in m && m[id].left <= 1
  }

  function Ticked(m: Timers): Timers {
    map id | id in m && m[id].left > 1 :: Timer(m[id].left - 1, m[id].callback)
  }

  // ---------------------------------------------------------------- the wheel

  /** The slot reached `left` ticks after the current one. */
  function SlotAfter(current: nat, left: nat): (s: nat)
    requires current < SLOTS && left <= SLOTS
    ensures s < SLOTS
  {
    if current + left < SLOTS then current + left else current + left - SLOTS
  }

  ghost predicate Covers(m: Timers) {
    forall id :: id in m ==> 1 <= m[id].left <= SLOTS
  }

  /** An entry sits in a bucket exactly if it is the timer of its id and its time comes there. */
  ghost predicate Placed(buckets: seq<seq<Entry>>, current: nat, m: Timers)
    requires |buckets| == SLOTS && current < SLOTS && Covers(m)
  {
    && (forall s, j :: 0 <= s < SLOTS && 0 <= j < |buckets[s]| ==> Belongs(buckets[s][j], s, current, m))
    && (forall id :: id in m ==> Entry(id, m[id].callback) in buckets[SlotAfter(current, m[id].left)])
  }

  ghost predicate Belongs(e: Entry, s: nat, current: nat, m: Timers)
    requires current < SLOTS && Covers(m)
  {
    e.id in m && e.callback == m[e.id].callback && s == SlotAfter(current, m[e.id].left)
  }

  ghost predicate DistinctIds(bucket: seq<Entry>) {
    forall i, j :: 0 <= i < j < |bucket| ==> bucket[i].id != bucket[j].id
  }

  ghost predicate Refines(buckets: seq<seq<Entry>>, current: nat, where: map<Id, nat>, m: Timers) {
    && |buckets| == SLOTS && current < SLOTS && Covers(m)
    && Placed(buckets, current, m)
    && (forall s :: 0 <= s < SLOTS ==> DistinctIds(buckets[s]))
    && where.Keys == m.Keys
    && (forall id :: id in m ==> where[id] == SlotAfter(current, m[id].left))
  }

  lemma InsertKeeps(buckets: seq<seq<Entry>>, current: nat, where: map<Id, nat>, m: Timers, id: Id, t: Timer)
    requires Refines(buckets, current, where, m) && id !in m && 1 <= t.left <= SLOTS
    ensures var s := SlotAfter(current, t.left);
            Refines(buckets[s := buckets[s] + [Entry(id, t.callback)]], current, where[id := s], m[id := t])
  {
  }

  function Erased(bucket: seq<Entry>, i: nat): seq<Entry>
    requires i < |bucket|
  {
    bucket[..i] + bucket[i + 1..]
  }

  lemma HasEntry(buckets: seq<seq<Entry>>, current: nat, where: map<Id, nat>, m: Timers, id: Id)
    requires Refines(buckets, current, where, m) && id in m
    ensures id in where && where[id] < |buckets|
    ensures exists j :: 0 <= j < |buckets[where[id]]| && buckets[where[id]][j].id == id
  {
  }

  lemma EraseKeeps(buckets: seq<seq<Entry>>, current: nat, where: map<Id, nat>, m: Timers, id: Id, i: nat)
    requires Refines(buckets, current, where, m) && id in m
    requires var s := where[id]; i < |buckets[s]| && buckets[s][i].id == id
    ensures var s := where[id];
            Refines(buckets[s := Erased(buckets[s], i)], current, where - {id}, m - {id})
    ensures buckets[where[id]][i].callback == m[id].callback
  {
  }

  /** The bucket the clock moves to holds exactly the entries that are due. */
  lemma BucketIsDue(buckets: seq<seq<Entry>>, current: nat, where: map<Id, nat>, m: Timers)
    requires Refines(buckets, current, where, m)
    ensures var bucket := buckets[SlotAfter(current, 1)];
            && DistinctIds(bucket)
            && (forall e :: e in bucket <==> e.id in Due(m) && e.callback == m[e.id].callback)
            && where.Keys == m.Keys
  {
  }

  function IdsOf(bucket: seq<Entry>): set<Id> {
    set e | e in bucket :: e.id
  }

  lemma NoIds()
    ensures IdsOf([]) == {}
  {
  }

  lemma ForgetOne(where: map<Id, nat>, bucket: seq<Entry>, n: nat)
    requires DistinctIds(bucket) && n < |bucket| && forall e :: e in bucket ==> e.id in where
    ensures var w := where - IdsOf(bucket[..n]);
            && w - {bucket[n].id} == where - IdsOf(bucket[..n + 1])
            && |w - {bucket[n].id}| == |w| - 1
  {
  }

  lemma SameIds(bucket: seq<Entry>, m: Timers)
    requires forall e :: e in bucket <==> e.id in Due(m) && e.callback == m[e.id].callback
    ensures IdsOf(bucket) == Due(m)
  {
    forall id | id in Due(m) ensures id in IdsOf(bucket) {
      assert Entry(id, m[id].callback) in bucket;
    }
  }

  lemma KeysAfterTick(where: map<Id, nat>, m: Timers)
    requires where.Keys == m.Keys
    ensures (where - Due(m)).Keys == Ticked(m).Keys && |where - Due(m)| == |Ticked(m)|
    ensures forall id :: id in Due(m) ==> id in m
  {
  }

  lemma SlotsAfterTick(current: nat, left: nat)
    requires current < SLOTS && 1 <= left <= SLOTS
    ensures var c := SlotAfter(current, 1);
            if left == 1 then SlotAfter(current, left) == c
            else SlotAfter(current, left) == SlotAfter(c, left - 1) != c
  {
  }

  lemma TickKeeps(buckets: seq<seq<Entry>>, current: nat, where: map<Id, nat>, m: Timers)
    requires Refines(buckets, current, where, m)
    ensures var c := SlotAfter(current, 1); Refines(buckets[c := []], c, where - Due(m), Ticked(m))
  {
    var c := SlotAfter(current, 1);
    var bs, m' := buckets[c := []], Ticked(m);
    forall id | id in m
      ensures SlotAfter(current, m[id].left) == if m[id].left == 1 then c else SlotAfter(c, m[id].left - 1)
      ensures m[id].left != 1 ==> SlotAfter(current, m[id].left) != c
    {
      SlotsAfterTick(current, m[id].left);
    }
    hide SlotAfter;
    forall k, j | 0 <= k < SLOTS && 0 <= j < |bs[k]| ensures Belongs(bs[k][j], k, c, m') {
      assert Belongs(buckets[k][j], k, current, m);
    }
  }

  class TimerWheel {
    const slots: array<seq<Entry>>
    var current: nat
    var idToSlot: map<Id, nat>
    var entries: nat
    ghost var model: Timers

    ghost predicate Valid()
      reads this, slots
    {
      && slots.Length == SLOTS && current < SLOTS && idToSlot.Keys == model.Keys
      && Refines(slots[..], current, idToSlot, model)
      && entries == |idToSlot| == |model|
    }

    constructor ()
      ensures Valid() && fresh(slots) && model == map[]
    {
      slots := new seq<Entry>[SLOTS](_ => []);
      current, entries, idToSlot := 0, 0, map[];
      model := map[];
    }

    function SlotOf(delay: u64): (s: nat)
      requires current < SLOTS
      reads this
      ensures s == SlotAfter(current, Left(delay))
    {
      (current + Ticks(delay)) % SLOTS
    }

    method Insert(id: Id, delay: u64, callback: nat)
      requires Valid() && id !in model
      modifies this, slots
      ensures Valid() && model == Added(old(model), id, delay, callback)
    {
      var slot := SlotOf(delay);
      InsertKeeps(slots[..], current, idToSlot, model, id, Timer(Left(delay), callback));
      ghost var before := slots[..];
      slots[slot] := slots[slot] + [Entry(id, callback)];
      assert slots[..] == before[slot := before[slot] + [Entry(id, callback)]];
      idToSlot := idToSlot[id := slot];
      entries := entries + 1;
      model := Added(model, id, delay, callback);
    }

    method Add(id: Id, delay: u64, callback: nat)
      requires Valid()
      modifies this, slots
      ensures Valid() && model == Added(old(model), id, delay, callback)
    {
      hide Refines;
      Remove(id);
      Insert(id, delay, callback);
    }

    /** Search the id's bucket, erase its entry and forget the id. */
    method Extract(id: Id) returns (callback: nat)
      requires Valid() && id in model
      modifies this, slots
      ensures Valid() && model == old(model) - {id} && callback == old(model)[id].callback
    {
      hide Refines;
      HasEntry(slots[..], current, idToSlot, model, id);
      var slot := idToSlot[id];
      var bucket := slots[slot];
      var i := 0;
      while bucket[i].id != id
        invariant 0 <= i < |bucket|
        invariant exists j :: i <= j < |bucket| && bucket[j].id == id
        decreases |bucket| - i
      {
        i := i + 1;
      }
      EraseKeeps(slots[..], current, idToSlot, model, id, i);
      callback := bucket[i].callback;
      ghost var before := slots[..];
      slots[slot] := bucket[..i] + bucket[i + 1..];
      assert slots[..] == before[slot := Erased(before[slot], i)];
      idToSlot := idToSlot - {id};
      entries := entries - 1;
      model := model - {id};
    }

    method Remove(id: Id)
      requires Valid()
      modifies this, slots
      ensures Valid() && model == old(model) - {id}
    {
      if id !in idToSlot {
        return;
      }
      var _ := Extract(id);
    }

    method Refresh(id: Id, delay: u64)
      requires Valid()
      modifies this, slots
      ensures Valid() && model == Refreshed(old(model), id, delay)
    {
      hide Refines;
      if id !in idToSlot {
        return;
      }
      var callback := Extract(id);
      Insert(id, delay, callback);
    }

    /** The loop of tick: report every entry of the bucket and forget its id. */
    method Expire(bucket: seq<Entry>) returns (fired: seq<Entry>)
      requires DistinctIds(bucket) && forall e :: e in bucket ==> e.id in idToSlot
      modifies this`idToSlot
      ensures fired == bucket
      ensures idToSlot == old(idToSlot) - IdsOf(bucket)
      ensures |idToSlot| == |old(idToSlot)| - |bucket|
    {
      hide IdsOf, DistinctIds;
      NoIds();
      fired := [];
      var n := 0;
      while n < |bucket|
        invariant 0 <= n <= |bucket|
        invariant fired == bucket[..n]
        invariant idToSlot == old(idToSlot) - IdsOf(bucket[..n])
        invariant |idToSlot| == |old(idToSlot)| - n
      {
        ForgetOne(old(idToSlot), bucket, n);
        fired := fired + [bucket[n]];
        idToSlot := idToSlot - {bucket[n].id};
        n := n + 1;
      }
      assert bucket[..n] == bucket;
    }

    /** Advance one slot; the entries found there fire, each once, with the callback last given. */
    method Tick() returns (fired: seq<Entry>)
      requires Valid()
      modifies this, slots
      ensures Valid() && model == Ticked(old(model))
      ensures DistinctIds(fired)
      ensures forall e :: e in fired <==> e.id in Due(old(model)) && e.callback == old(model)[e.id].callback
    {
      hide Refines, Due, Ticked, IdsOf, DistinctIds;
      ghost var before := slots[..];
      KeysAfterTick(idToSlot, model);
      BucketIsDue(before, current, idToSlot, model);
      TickKeeps(before, current, idToSlot, model);
      SameIds(before[SlotAfter(current, 1)], model);
      current := (current + 1) % SLOTS;
      var bucket := slots[current];
      fired := Expire(bucket);
      entries := entries - |bucket|;
      slots[current] := [];
      assert slots[..] == before[current := []];
      model := Ticked(model);
    }
  }

  // ---------------------------------------------------------------- runs

  datatype Op = Add(id: Id, delay: u64, callback: nat) | Remove(id: Id) | Refresh(id: Id, delay: u64) | Tick

  function Apply(m: Timers, op: Op): Timers {
    match op
    case Add(id, delay, callback) => Added(m, id, delay, callback)
    case Remove(id) => m - {id}
    case Refresh(id, delay) => Refreshed(m, id, delay)
    case Tick => Ticked(m)
  }

  function Run(m: Timers, ops: seq<Op>): Timers
    decreases |ops|
  {
    if ops == [] then m else Run(Apply(m, ops[0]), ops[1..])
  }

  function TickCount(ops: seq<Op>): nat {
    if ops == [] then 0 else (if ops[0].Tick? then 1 else 0) + TickCount(ops[1..])
  }

  /** No operation of the run names `id`. */
  ghost predicate Leaves(ops: seq<Op>, id: Id) {
    forall op :: op in ops ==> op.Tick? || op.id != id
  }

  /**
    A timer with `left` ticks to go survives exactly until its last tick is the next one to come:
    then it is due, and it is gone after it and stays gone.
   */
  lemma {:induction false} Countdown(m: Timers, id: Id, ops: seq<Op>)
    requires Leaves(ops, id)
    requires id in m ==> m[id].left >= 1
    ensures id !in m ==> id !in Run(m, ops)
    ensures id in m && TickCount(ops) < m[id].left ==>
              id in Run(m, ops) && Run(m, ops)[id] == Timer(m[id].left - TickCount(ops), m[id].callback)
    ensures id in m && TickCount(ops) >= m[id].left ==> id !in Run(m, ops)
    decreases |ops|
  {
    if ops != [] {
      var op := ops[0];
      assert op in ops;
      assert Leaves(ops[1..], id);
      Countdown(Apply(m, op), id, ops[1..]);
    }
  }

  /** After an add or a refresh, an id left alone fires on the promised tick and on no other. */
  lemma FiresExactlyOnTime(m: Timers, arm: Op, ops: seq<Op>)
    requires arm.Add? || (arm.Refresh? && arm.id in m)
    requires Leaves(ops, arm.id) && arm.delay <= SLOTS * TICK_MS
    ensures var before := Run(Apply(m, arm), ops);
            && (arm.id in Due(before) <==> TickCount(ops) + 1 == Promised(arm.delay))
            && (arm.id in before <==> TickCount(ops) < Promised(arm.delay))
            && (arm.id in before ==>
                 before[arm.id].callback == if arm.Add? then arm.callback else m[arm.id].callback)
  {
    LeftIsPromised(arm.delay);
    Countdown(Apply(m, arm), arm.id, ops);
  }

  /** An id that is never added never fires: refreshing does not create a timer. */
  lemma {:induction false} NeverAddedNeverFires(m: Timers, id: Id, ops: seq<Op>)
    requires id !in m && forall op :: op in ops ==> !(op.Add? && op.id == id)
    ensures id !in Run(m, ops)
    decreases |ops|
  {
    if ops != [] {
      assert ops[0] in ops;
      NeverAddedNeverFires(Apply(m, ops[0]), id, ops[1..]);
    }
  }

  /** A removed id never fires until it is added again. */
  lemma RemovedNeverFires(m: Timers, id: Id, ops: seq<Op>)
    requires Leaves(ops, id)
    ensures id !in Run(Apply(m, Remove(id)), ops)
  {
    Countdown(Apply(m, Remove(id)), id, ops);
  }
}
