/**
  One TCP connection, src/network/connection.cpp: the receive loop that turns byte chunks into
  frames, and the bounded send queue. The socket is the `Input` / `Output` given to each call.
 */
module Connection {
  import opened Bytes
  import opened GapBuffer
  import opened FrameCodec

  const SEND_QUEUE_MAX: nat := 262144
  const MAX_ILLEGAL: nat := 10

  datatype State = Connected | Active | Closing | Closed

  /** The denotation of a connection. */
  datatype Conn = Conn(state: State, recv: Gap, send: Gap, illegal: nat) {
    predicate Fits() { recv.Fits() && send.Fits() }
  }

  const FRESH_GAP := Gap(4096, 0, [])
  const FRESH := Conn(Connected, FRESH_GAP, FRESH_GAP, 0)

  function Close(s: State): State { if s == Closed || s == Closing then s else Closing }

  function Consumed(g: Gap, n: nat): (r: Gap)
    requires g.Fits() && n <= |g.data|
    ensures r.Fits() && r.cap == g.cap && r.data == g.data[n..]
  {
    if n == 0 then g else Drop(g, n)
  }

  /** The bytes one onReadable call takes off the socket. */
  function Delivered(c: Conn, input: Input): seq<byte>
    requires c.Fits()
  {
    Taken(input, Roomy(c.recv, 4096).Writable())
  }

  /** Decoding everything that is complete; a malformed header uses up the whole ban allowance at once. */
  function AfterDecode(c: Conn): (r: Conn)
    requires c.Fits()
    ensures r.Fits() && r.send == c.send
  {
    var d := Drain(c.recv.data);
    c.(recv := Consumed(c.recv, |c.recv.data| - |d.rest|),
       illegal := if d.malformed then Max(c.illegal + 1, MAX_ILLEGAL) else c.illegal,
       state := if d.malformed then Close(c.state) else c.state)
  }

  function AfterRead(c: Conn, input: Input): (r: Conn)
    requires c.Fits()
    ensures r.Fits() && r.send == c.send
  {
    var room := Roomy(c.recv, 4096);
    var s := Delivered(c, input);
    if s == [] then
      c.(recv := room, state := if input.WouldBlock? then c.state else Close(c.state))
    else
      AfterDecode(c.(recv := room.(data := room.data + s), state := Active))
  }

  /** The frames one onReadable call returns. */
  function FramesRead(c: Conn, input: Input): seq<Frame>
    requires c.Fits()
  {
    var s := Delivered(c, input);
    if s == [] then [] else Drain(c.recv.data + s).frames
  }

  function AfterSendRaw(c: Conn, bytes: seq<byte>): (r: Conn)
    requires c.Fits()
    ensures r.Fits()
  {
    if c.state != Connected && c.state != Active then c
    else if |c.send.data| + |bytes| > SEND_QUEUE_MAX then c.(state := Close(c.state))
    else c.(send := Append(c.send, bytes))
  }

  function AfterSendFrame(c: Conn, id: u32, flags: u16, sequence: u64, payload: seq<byte>): (r: Conn)
    requires c.Fits()
    ensures r.Fits()
  {
    if |payload| > MAX_PAYLOAD then c else AfterSendRaw(c, FrameBytes(FrameOf(id, flags, sequence, payload)))
  }

  /** The bytes one onWritable call puts on the wire. */
  function Sent(c: Conn, output: Output): seq<byte> {
    if output.Accepts? then c.send.data[..Min(output.count, |c.send.data|)] else []
  }

  function AfterWrite(c: Conn, output: Output): (r: Conn)
    requires c.Fits()
    ensures r.Fits()
  {
    if c.send.data == [] then c
    else if output.Broken? then c.(state := Close(c.state))
    else if Sent(c, output) == [] then c
    else c.(send := Drop(c.send, |Sent(c, output)|))
  }

  /** close(), called from outside: the event loop does so on a heartbeat timeout. */
  function AfterClose(c: Conn): (r: Conn)
    requires c.Fits()
    ensures r.Fits()
  {
    c.(state := Close(c.state))
  }

  /** `frames` have been decoded off the front of `full`, leaving `now`. */
  ghost predicate Progress(full: Gap, frames: seq<Frame>, now: Gap) {
    && full.Fits() && now.Fits()
    && |now.data| <= |full.data|
    && now == Consumed(full, |full.data| - |now.data|)
    && Drain(full.data) == After(frames, Drain(now.data))
  }

  lemma ProgressStart(full: Gap)
    requires full.Fits()
    ensures Progress(full, [], full)
  {
  }

  lemma ProgressStep(full: Gap, frames: seq<Frame>, now: Gap)
    requires Progress(full, frames, now) && Parse(now.data).Complete?
    ensures var f := Parse(now.data).frame; Progress(full, frames + [f], Drop(now, f.totalLength))
  {
    var f := Parse(now.data).frame;
    var done := |full.data| - |now.data|;
    if done > 0 {
      DropTwice(full, done, f.totalLength);
    }
    Assoc(frames, [f], Drain(now.data[f.totalLength..]).frames);
  }

  lemma ProgressEnd(full: Gap, frames: seq<Frame>, now: Gap)
    requires Progress(full, frames, now) && !Parse(now.data).Complete?
    ensures var d := Drain(full.data);
            && frames == d.frames && now == Consumed(full, |full.data| - |d.rest|)
            && d.malformed == Parse(now.data).Malformed?
  {
    hide ParseHeader, Consumed;
    assert frames + [] == frames;
  }

  class Connection {
    var state: State
    const recv: Buffer
    const send: Buffer
    var illegal: nat

    ghost predicate Valid()
      reads this, recv, send, recv.store, send.store
    {
      recv != send && recv.Valid() && send.Valid() && recv.store != send.store
    }

    ghost function Model(): (c: Conn)
      requires Valid()
      reads this, recv, send, recv.store, send.store
      ensures c.Fits()
    {
      Conn(state, recv.model, send.model, illegal)
    }

    constructor ()
      ensures Valid() && fresh(recv) && fresh(send) && fresh(recv.store) && fresh(send.store)
      ensures Model() == FRESH
    {
      state, illegal := Connected, 0;
      recv := new Buffer(4096);
      send := new Buffer(4096);
    }

    method CloseIt()
      requires Valid()
      modifies this
      ensures Valid() && Model() == AfterClose(old(Model()))
    {
      if state == Closed || state == Closing {
        return;
      }
      state := Closing;
    }

    /** Read once, then decode until no complete frame is left or the peer is banned. */
    method OnReadable(input: Input) returns (frames: seq<Frame>)
      requires Valid()
      modifies this, recv, recv.store
      ensures Valid() && (recv.store == old(recv.store) || fresh(recv.store))
      ensures Model() == AfterRead(old(Model()), input)
      ensures frames == FramesRead(old(Model()), input)
    {
      hide Drain, Consumed, Roomy, Drop;
      frames := [];
      var n := recv.ReadFromFd(input);
      if n == 0 {
        if !input.WouldBlock? {
          CloseIt();
        }
        return;
      }
      state := Active;
      frames := DecodeLoop();
    }

    /** The loop of onReadable: at least one step of (bytes left, allowance left) per iteration. */
    method DecodeLoop() returns (frames: seq<Frame>)
      requires Valid()
      modifies this, recv
      ensures Valid() && recv.store == old(recv.store)
      ensures var full := old(recv.model);
              var d := Drain(full.data);
              && frames == d.frames
              && recv.model == Consumed(full, |full.data| - |d.rest|)
              && illegal == (if d.malformed then Max(old(illegal) + 1, MAX_ILLEGAL) else old(illegal))
              && state == (if d.malformed then Close(old(state)) else old(state))
    {
      hide Drain, Consumed, Progress, ParseHeader;
      frames := [];
      ghost var full := recv.model;
      ProgressStart(full);
      while recv.Readable() >= HEADER_SIZE
        invariant Valid() && recv.store == old(recv.store) && state == old(state)
        invariant Progress(full, frames, recv.model)
        invariant illegal == old(illegal) ||
                  (old(illegal) < illegal < MAX_ILLEGAL && Parse(recv.model.data) == Malformed)
        decreases recv.Readable(), MAX_ILLEGAL - illegal
      {
        ghost var now := recv.model;
        var r := Decode(recv);
        match r {
          case NeedMore =>
            break;
          case Complete(f) =>
            ProgressStep(full, frames, now);
            frames := frames + [f];
          case Malformed =>
            illegal := illegal + 1;
            if illegal >= MAX_ILLEGAL {
              CloseIt();
              break;
            }
        }
      }
      ProgressEnd(full, frames, recv.model);
    }

    method SendFrame(id: u32, flags: u16, sequence: u64, payload: seq<byte>)
      requires Valid()
      modifies this, send, send.store
      ensures Valid() && (send.store == old(send.store) || fresh(send.store))
      ensures Model() == AfterSendFrame(old(Model()), id, flags, sequence, payload)
    {
      if state != Connected && state != Active {
        return;
      }
      var data := Encode(id, flags, sequence, payload);
      if data.Some? {
        if send.Readable() + |data.value| > SEND_QUEUE_MAX {
          CloseIt();
          return;
        }
        var _ := send.Write(data.value);
      }
    }

    method SendRaw(bytes: seq<byte>)
      requires Valid()
      modifies this, send, send.store
      ensures Valid() && (send.store == old(send.store) || fresh(send.store))
      ensures Model() == AfterSendRaw(old(Model()), bytes)
    {
      if state != Connected && state != Active {
        return;
      }
      if send.Readable() + |bytes| > SEND_QUEUE_MAX {
        CloseIt();
        return;
      }
      var _ := send.Write(bytes);
    }

    method OnWritable(output: Output) returns (sent: seq<byte>)
      requires Valid()
      modifies this, send
      ensures Valid() && send.store == old(send.store)
      ensures Model() == AfterWrite(old(Model()), output) && sent == Sent(old(Model()), output)
    {
      if send.Readable() == 0 {
        return [];
      }
      sent := send.WriteToFd(output);
      if output.Broken? {
        CloseIt();
      }
    }
  }
}
