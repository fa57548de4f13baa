/**
  The gap buffer of src/network/buffer.cpp: a byte vector with a read and a write index,
  compacted and doubled on demand.
 */
module GapBuffer {
  import opened Bytes

  /** What the buffer denotes: its capacity, where the unread bytes start, and the unread bytes. */
  datatype Gap = Gap(cap: nat, start: nat, data: seq<byte>) {
    predicate Fits() { cap > 0 && start + |data| <= cap }
    function Writable(): int { cap - start - |data| }
  }

  /** The least `cap * 2^k` that is at least `need`. */
  function Doubled(cap: nat, need: nat): (r: nat)
    requires cap > 0
    ensures r >= need && r >= cap
    ensures r == cap || r < 2 * need
    decreases need - cap
  {
    if cap >= need then cap else Doubled(2 * cap, need)
  }

  function Compacted(g: Gap): Gap { g.(start := 0) }

  /** At least `len` bytes of room: for free, by compaction, or by compaction and growth. */
  function Roomy(g: Gap, len: nat): (r: Gap)
    requires g.Fits()
    ensures r.Fits() && r.data == g.data && r.cap >= g.cap && r.Writable() >= len
  {
    if g.Writable() >= len then g
    else if Compacted(g).Writable() >= len then Compacted(g)
    else Gap(Doubled(2 * g.cap, |g.data| + len), 0, g.data)
  }

  function Append(g: Gap, bytes: seq<byte>): (r: Gap)
    requires g.Fits()
    ensures r.Fits() && r.data == g.data + bytes
  {
    if bytes == [] then g else var r := Roomy(g, |bytes|); r.(data := r.data + bytes)
  }

  /** Discard up to `n` unread bytes; an emptied buffer starts over at index zero. */
  function Drop(g: Gap, n: nat): (r: Gap)
    requires g.Fits()
    ensures r.Fits() && r.cap == g.cap && r.data == g.data[Min(n, |g.data|)..]
  {
    var k := Min(n, |g.data|);
    Gap(g.cap, if k == |g.data| then 0 else g.start + k, g.data[k..])
  }

  /** A buffer grows exactly if its unread bytes and the request exceed it, and then at least to double. */
  lemma GrowsIfNeeded(g: Gap, len: nat)
    requires g.Fits()
    ensures var r := Roomy(g, len);
            && (r.cap == g.cap <==> |g.data| + len <= g.cap)
            && (r.cap > g.cap ==> r.start == 0 && r.cap >= 2 * g.cap)
            && (r.cap > 2 * g.cap ==> r.cap < 2 * (|g.data| + len))
    ensures forall n :: n >= |g.data| ==> Drop(g, n) == Gap(g.cap, 0, [])
  {
  }

  lemma DropTwice(g: Gap, a: nat, b: nat)
    requires g.Fits() && 0 < a && 0 < b && a + b <= |g.data|
    ensures Drop(Drop(g, a), b) == Drop(g, a + b)
  {
  }

  /** What a read from the socket delivers. */
  datatype Input = Chunk(bytes: seq<byte>) | Eof | WouldBlock | Fault

  /** What a write to the socket achieves. */
  datatype Output = Accepts(count: nat) | Refused | Broken

  /** The bytes of an input that one read into `space` bytes of room takes. */
  function Taken(input: Input, space: nat): (s: seq<byte>)
    ensures |s| <= space
  {
    if input.Chunk? then input.bytes[..Min(|input.bytes|, space)] else []
  }

  /** A new array that begins with `s`. */
  method Extended(s: seq<byte>, length: nat) returns (a: array<byte>)
    requires |s| <= length
    ensures fresh(a) && a.Length == length && forall i :: 0 <= i < |s| ==> a[i] == s[i]
  {
    a := new byte[length](_ => 0);
    CopyInto(a, 0, s);
    assert forall i :: 0 <= i < |s| ==> a[0 + i] == s[i];
  }

  class Buffer {
    var store: array<byte>
    var readIdx: nat
    var writeIdx: nat
    ghost var model: Gap

    ghost predicate Valid()
      reads this, store
    {
      && 0 < store.Length == model.cap
      && readIdx == model.start
      && readIdx + |model.data| == writeIdx <= store.Length
      && forall i {:trigger model.data[i]} :: 0 <= i < |model.data| ==> model.data[i] == store[readIdx + i]
    }

    constructor (initial: nat)
      ensures Valid() && fresh(store)
      ensures model == Gap(Max(initial, 64), 0, [])
    {
      store := new byte[Max(initial, 64)](_ => 0);
      readIdx, writeIdx := 0, 0;
      model := Gap(Max(initial, 64), 0, []);
    }

    function Readable(): (n: nat)
      requires Valid()
      reads this, store
      ensures n == |model.data|
    {
      writeIdx - readIdx
    }

    function Writable(): (n: nat)
      requires Valid()
      reads this, store
      ensures n == model.Writable()
    {
      store.Length - writeIdx
    }

    /** The first `n` unread bytes, from the read index on. */
    function Peek(n: nat): (s: seq<byte>)
      requires Valid() && n <= Readable()
      reads this, store
      ensures s == model.data[..n]
    {
      store[readIdx..readIdx + n]
    }

    method Reset()
      requires Valid()
      modifies this
      ensures Valid() && store == old(store) && model == Gap(old(model).cap, 0, [])
    {
      readIdx, writeIdx := 0, 0;
      model := Gap(model.cap, 0, []);
    }

    method Compact()
      requires Valid()
      modifies this, store
      ensures Valid() && store == old(store) && model == Compacted(old(model))
    {
      hide Pasted;
      if readIdx > 0 && Readable() > 0 {
        var n := Readable();
        var unread := Peek(n);
        assert unread == model.data;
        CopyInto(store, 0, unread);
        assert forall i :: 0 <= i < n ==> store[0 + i] == unread[i];
        readIdx, writeIdx := 0, n;
        model := Compacted(model);
      } else if readIdx > 0 {
        Reset();
      }
    }

    method Grow(minCapacity: nat)
      requires Valid()
      modifies this
      ensures Valid() && fresh(store)
      ensures model == old(model).(cap := Doubled(2 * old(model).cap, minCapacity))
    {
      var newCap := store.Length * 2;
      while newCap < minCapacity
        invariant newCap >= store.Length * 2
        invariant Doubled(newCap, minCapacity) == Doubled(store.Length * 2, minCapacity)
      {
        newCap := newCap * 2;
      }
      store := Extended(store[..], newCap);
      model := model.(cap := newCap);
    }

    method EnsureWrite(len: nat)
      requires Valid()
      modifies this, store
      ensures Valid() && (store == old(store) || fresh(store))
      ensures model == Roomy(old(model), len)
    {
      if Writable() >= len {
        return;
      }
      Compact();
      if Writable() >= len {
        return;
      }
      Grow(writeIdx + len);
    }

    /** Copy behind the unread bytes, where there is room. */
    method Put(bytes: seq<byte>)
      requires Valid() && |bytes| <= Writable()
      modifies this, store
      ensures Valid() && store == old(store)
      ensures model == old(model).(data := old(model).data + bytes)
    {
      hide Pasted;
      CopyInto(store, writeIdx, bytes);
      writeIdx := writeIdx + |bytes|;
      model := model.(data := model.data + bytes);
    }

    method Write(bytes: seq<byte>) returns (n: nat)
      requires Valid()
      modifies this, store
      ensures Valid() && (store == old(store) || fresh(store))
      ensures n == |bytes| && model == Append(old(model), bytes)
    {
      hide Roomy;
      if |bytes| == 0 {
        return 0;
      }
      EnsureWrite(|bytes|);
      n := Min(|bytes|, Writable());
      Put(bytes);
    }

    /** read(2) into the writable space, after making room for 4096 bytes. */
    method ReadFromFd(input: Input) returns (n: nat)
      requires Valid()
      modifies this, store
      ensures Valid() && (store == old(store) || fresh(store))
      ensures var room := Roomy(old(model), 4096);
              var s := Taken(input, room.Writable());
              n == |s| && model == room.(data := room.data + s)
    {
      hide Roomy;
      EnsureWrite(4096);
      var s := Taken(input, Writable());
      n := |s|;
      Put(s);
    }

    /** Move the read index past `n` unread bytes, starting over when nothing is left. */
    method Advance(n: nat)
      requires Valid() && n <= Readable()
      modifies this
      ensures Valid() && store == old(store) && model == Drop(old(model), n)
    {
      readIdx := readIdx + n;
      model := Gap(model.cap, readIdx, model.data[n..]);
      if readIdx == writeIdx {
        Reset();
      }
    }

    method Read(len: nat) returns (bytes: seq<byte>)
      requires Valid()
      modifies this
      ensures Valid() && store == old(store)
      ensures bytes == old(model).data[..Min(len, |old(model).data|)]
      ensures model == Drop(old(model), len)
    {
      var n := Min(len, Readable());
      bytes := Peek(n);
      Advance(n);
    }

    /** write(2) of the readable bytes; returns the bytes that left. */
    method WriteToFd(output: Output) returns (sent: seq<byte>)
      requires Valid()
      modifies this
      ensures Valid() && store == old(store)
      ensures sent == if output.Accepts? then old(model).data[..Min(output.count, |old(model).data|)] else []
      ensures model == if sent == [] then old(model) else Drop(old(model), |sent|)
    {
      if Readable() == 0 || !output.Accepts? {
        return [];
      }
      var n := Min(output.count, Readable());
      sent := Peek(n);
      if n > 0 {
        Advance(n);
      }
    }

    method Skip(len: nat)
      requires Valid()
      modifies this
      ensures Valid() && store == old(store)
      ensures model == Drop(old(model), len)
    {
      Advance(Min(len, Readable()));
    }
  }
}
