/** What holds over every run of one connection. */
module ConnectionRuns {
  import opened Bytes
  import opened GapBuffer
  import opened FrameCodec
  import opened Connection

  /** `Shut` is the close from outside, as on a heartbeat timeout. */
  datatype Event =
    | Readable(input: Input)
    | Writable(output: Output)
    | Send(id: u32, flags: u16, sequence: u64, payload: seq<byte>)
    | Raw(bytes: seq<byte>)
    | Shut

  function Step(c: Conn, e: Event): (r: Conn)
    requires c.Fits()
    ensures r.Fits()
  {
    match e
    case Readable(input) => AfterRead(c, input)
    case Writable(output) => AfterWrite(c, output)
    case Send(id, flags, sequence, payload) => AfterSendFrame(c, id, flags, sequence, payload)
    case Raw(bytes) => AfterSendRaw(c, bytes)
    case Shut => AfterClose(c)
  }

  function Run(c: Conn, es: seq<Event>): (r: Conn)
    requires c.Fits()
    ensures r.Fits()
    decreases |es|
  {
    if es == [] then c else Run(Step(c, es[0]), es[1..])
  }

  /** Everything that arrived over the run, and every frame handed to the application. */
  function Arrived(c: Conn, es: seq<Event>): seq<byte>
    requires c.Fits()
    decreases |es|
  {
    if es == [] then []
    else (if es[0].Readable? then Delivered(c, es[0].input) else []) + Arrived(Step(c, es[0]), es[1..])
  }

  function Returned(c: Conn, es: seq<Event>): seq<Frame>
    requires c.Fits()
    decreases |es|
  {
    if es == [] then []
    else (if es[0].Readable? then FramesRead(c, es[0].input) else []) + Returned(Step(c, es[0]), es[1..])
  }

  // ---------------------------------------------------------------- independence of how the bytes are split

  /** Nothing decodable is waiting in the receive buffer. */
  ghost predicate Idle(c: Conn) { c.Fits() && !Parse(c.recv.data).Complete? }

  lemma DrainIdle(s: seq<byte>)
    requires !Parse(s).Complete?
    ensures Drain(s) == Drained([], s, Parse(s).Malformed?)
  {
  }

  lemma ReadOnce(c: Conn, input: Input)
    requires Idle(c)
    ensures var d := Drain(c.recv.data + Delivered(c, input));
            && FramesRead(c, input) == d.frames
            && AfterRead(c, input).recv.data == d.rest
            && Idle(AfterRead(c, input))
            && Parse(d.rest) == if d.malformed then Malformed else NeedMore
  {
    hide Parse, Roomy, Drop;
    var s := Delivered(c, input);
    var all := c.recv.data + s;
    DrainFactors(all);
    if s == [] {
      assert all == c.recv.data;
      DrainIdle(all);
    } else {
      DropPrefix(EncodeAll(Drain(all).frames), Drain(all).rest);
    }
  }

  lemma IdleStep(c: Conn, e: Event)
    requires Idle(c)
    ensures Idle(Step(c, e))
    ensures !e.Readable? ==> Step(c, e).recv == c.recv && Step(c, e).illegal == c.illegal
  {
    hide Parse, Roomy, Drop, Append, FrameBytes, Drain;
    if e.Readable? {
      ReadOnce(c, e.input);
    }
  }

  /** However the bytes were split into reads and interleaved with writes, the frames are those of the whole stream. */
  lemma {:induction false} SplitIndependence(c: Conn, es: seq<Event>)
    requires Idle(c)
    ensures var d := Drain(c.recv.data + Arrived(c, es));
            Returned(c, es) == d.frames && Run(c, es).recv.data == d.rest
    ensures Idle(Run(c, es))
    decreases |es|
  {
    hide Parse, Drain, Step, AfterRead, FramesRead, Delivered;
    var data := c.recv.data;
    if es == [] {
      assert data + [] == data;
      DrainIdle(data);
    } else {
      var e, c' := es[0], Step(c, es[0]);
      IdleStep(c, e);
      SplitIndependence(c', es[1..]);
      var more := Arrived(c', es[1..]);
      if e.Readable? {
        StepReads(c, e.input);
        ReadOnce(c, e.input);
        DrainInstalments(data + Delivered(c, e.input), more);
        Assoc(data, Delivered(c, e.input), more);
      } else {
        assert [] + more == more;
        assert [] + Returned(c', es[1..]) == Returned(c', es[1..]);
      }
    }
  }

  lemma StepReads(c: Conn, input: Input)
    requires c.Fits()
    ensures Step(c, Readable(input)) == AfterRead(c, input)
  {
  }

  // ---------------------------------------------------------------- a malformed header is final

  ghost predicate Banned(c: Conn) {
    c.Fits() && Parse(c.recv.data) == Malformed && c.state == Closing && c.illegal >= 10
  }

  lemma BannedStep(c: Conn, e: Event)
    requires Banned(c)
    ensures Banned(Step(c, e))
    ensures e.Readable? ==> FramesRead(c, e.input) == []
  {
    hide ParseHeader, Roomy, Drop, Append, FrameBytes;
    if e.Readable? {
      ParseStable(c.recv.data, Delivered(c, e.input));
    }
  }

  /** After the ban every call returns no frame and leaves the connection closing. */
  lemma {:induction false} BannedForever(c: Conn, es: seq<Event>)
    requires Banned(c)
    ensures Banned(Run(c, es)) && Returned(c, es) == []
    decreases |es|
  {
    hide Step, Banned, FramesRead;
    BannedFits(c);
    if es != [] {
      BannedStep(c, es[0]);
      BannedFits(Step(c, es[0]));
      BannedForever(Step(c, es[0]), es[1..]);
    }
  }

  lemma BannedFits(c: Conn)
    requires Banned(c)
    ensures c.Fits()
  {
  }

  /** The call that meets a malformed header returns exactly the frames before it and bans the peer. */
  lemma MalformedBans(c: Conn, input: Input)
    requires Idle(c) && Parse(c.recv.data) == NeedMore
    requires Drain(c.recv.data + Delivered(c, input)).malformed
    ensures Banned(AfterRead(c, input)) && (c.illegal < 10 ==> AfterRead(c, input).illegal == 10)
    ensures c.recv.data + Delivered(c, input) == EncodeAll(FramesRead(c, input)) + AfterRead(c, input).recv.data
  {
    hide ParseHeader, Roomy, Drop;
    ReadOnce(c, input);
    DrainFactors(c.recv.data + Delivered(c, input));
  }

  /** A run is banned exactly when the stream that arrived is malformed; illegal packets are counted only then. */
  lemma {:induction false} BannedIffMalformed(c: Conn, es: seq<Event>)
    requires Idle(c) && Parse(c.recv.data) == NeedMore
    ensures var d := Drain(c.recv.data + Arrived(c, es));
            if d.malformed then Banned(Run(c, es)) else Run(c, es).illegal == c.illegal && Parse(d.rest) == NeedMore
    decreases |es|
  {
    hide Parse, Drain, Step, FramesRead, Delivered, Banned, Run, AfterRead;
    var data := c.recv.data;
    if es == [] {
      assert data + [] == data;
      DrainIdle(data);
      RunNil(c);
    } else {
      var e, c' := es[0], Step(c, es[0]);
      RunCons(c, es);
      IdleStep(c, e);
      var more := Arrived(c', es[1..]);
      if e.Readable? {
        var s := Delivered(c, e.input);
        StepReads(c, e.input);
        ReadOnce(c, e.input);
        DrainInstalments(data + s, more);
        Assoc(data, s, more);
        if Drain(data + s).malformed {
          MalformedBans(c, e.input);
          BannedForever(c', es[1..]);
          DrainMalformed(Drain(data + s).rest, more);
        } else {
          CleanRead(c, e.input);
          BannedIffMalformed(c', es[1..]);
        }
      } else {
        assert [] + more == more;
        BannedIffMalformed(c', es[1..]);
      }
    }
  }

  lemma RunNil(c: Conn)
    requires c.Fits()
    ensures Run(c, []) == c
  {
  }

  lemma RunCons(c: Conn, es: seq<Event>)
    requires c.Fits() && es != []
    ensures Run(c, es) == Run(Step(c, es[0]), es[1..])
  {
  }

  lemma DrainMalformed(s: seq<byte>, t: seq<byte>)
    requires Parse(s) == Malformed
    ensures Drain(s + t).malformed
  {
    ParseStable(s, t);
  }

  lemma CleanRead(c: Conn, input: Input)
    requires Idle(c) && !Drain(c.recv.data + Delivered(c, input)).malformed
    ensures AfterRead(c, input).illegal == c.illegal
  {
  }

  /** Once a malformed header has arrived, the application has seen exactly the frames before it, for good. */
  lemma MalformedIsFinal(es: seq<Event>, later: seq<Event>)
    requires Drain(Arrived(FRESH, es)).malformed
    ensures Banned(Run(FRESH, es))
    ensures Returned(FRESH, es) == Drain(Arrived(FRESH, es)).frames
    ensures Banned(Run(Run(FRESH, es), later)) && Returned(Run(FRESH, es), later) == []
  {
    hide Drain, Run, Returned, Arrived, Banned;
    var s := Arrived(FRESH, es);
    assert [] + s == s;
    SplitIndependence(FRESH, es);
    BannedIffMalformed(FRESH, es);
    BannedForever(Run(FRESH, es), later);
  }

  // ---------------------------------------------------------------- states

  /** sendFrame and sendRaw still take bytes. */
  predicate Open(c: Conn) { c.state == Connected || c.state == Active }

  /** Events after which nothing more can come from or go to the peer: a hang-up, a socket error, or a close. */
  predicate Ends(c: Conn, e: Event) {
    match e
    case Readable(input) => input.Eof? || input.Fault? || (input.Chunk? && input.bytes == [])
    case Writable(output) => output.Broken? && c.send.data != []
    case Shut => true
    case _ => false
  }

  /** Such an event closes the connection and touches neither the unread nor the queued bytes. */
  lemma HangUpCloses(c: Conn, e: Event)
    requires c.Fits() && Ends(c, e)
    ensures var c' := Step(c, e);
            && !Open(c') && (Open(c) ==> c'.state == Closing)
            && c'.recv.data == c.recv.data && c'.send == c.send && c'.illegal == c.illegal
  {
    hide Roomy, Drain;
  }

  /** A read that finds nothing yet, or a write the socket does not take, changes no state and no bytes. */
  lemma BusySocketWaits(c: Conn)
    requires c.Fits()
    ensures var c' := Step(c, Readable(WouldBlock));
            c'.state == c.state && c'.recv.data == c.recv.data && c'.send == c.send && c'.illegal == c.illegal
    ensures Step(c, Writable(Refused)) == c
  {
    hide Roomy, Drain;
  }

  /** One read takes a chunk of up to 4096 bytes whole, and at least 4096 bytes of a longer one. */
  lemma ChunkTaken(c: Conn, bytes: seq<byte>)
    requires c.Fits()
    ensures var s := Delivered(c, Chunk(bytes));
            s <= bytes && (|bytes| <= 4096 ==> s == bytes) && (|bytes| > 4096 ==> |s| >= 4096)
  {
    hide Doubled;
  }

  /** A read that brings bytes makes any connection active, unless a malformed header then closes it. */
  lemma BytesActivate(c: Conn, bytes: seq<byte>)
    requires c.Fits() && bytes != []
    ensures var s := Delivered(c, Chunk(bytes));
            Step(c, Readable(Chunk(bytes))).state == if Drain(c.recv.data + s).malformed then Closing else Active
  {
    hide Drain, Roomy, Consumed;
    ChunkTaken(c, bytes);
  }

  /** What a send does, by state and by the 256 KiB limit. */
  lemma SendOutcome(c: Conn, bytes: seq<byte>)
    requires c.Fits()
    ensures var c' := Step(c, Raw(bytes));
            && (!Open(c) ==> c' == c)
            && (Open(c) && |c.send.data| + |bytes| > 262144 ==> c' == c.(state := Closing))
            && (Open(c) && |c.send.data| + |bytes| <= 262144 ==>
                 c'.send.data == c.send.data + bytes && c'.state == c.state && c'.recv == c.recv)
  {
    hide Roomy;
  }

  /** A frame is sent as its bytes; one with more than 64 KiB of payload is dropped without a trace. */
  lemma SendFrameOutcome(c: Conn, id: u32, flags: u16, sequence: u64, payload: seq<byte>)
    requires c.Fits()
    ensures var total := 18 + |payload|;
            Step(c, Send(id, flags, sequence, payload)) ==
              if |payload| > 65536 then c
              else Step(c, Raw(HeaderBytes(total, id, flags, sequence) + payload))
  {
    hide Roomy, HeaderBytes;
  }

  /** A write puts the oldest queued bytes on the wire, as many as the socket accepts. */
  lemma WriteOutcome(c: Conn, count: nat)
    requires c.Fits()
    ensures var sent, c' := Sent(c, Accepts(count)), Step(c, Writable(Accepts(count)));
            && |sent| == Min(count, |c.send.data|) && sent + c'.send.data == c.send.data
            && c'.state == c.state && c'.recv == c.recv
  {
  }

  predicate BringsBytes(e: Event) { e.Readable? && e.input.Chunk? && e.input.bytes != [] }

  /** `b` is what is left of `a` after its front has gone. */
  ghost predicate LeftOf(a: seq<byte>, b: seq<byte>) {
    |b| <= |a| && b == a[|a| - |b|..]
  }

  /** A closed connection: what later sends, writes and empty reads leave it as. */
  ghost predicate StillClosed(c: Conn, c': Conn) {
    !Open(c) && c'.state == c.state && c'.recv.data == c.recv.data && LeftOf(c.send.data, c'.send.data)
  }

  /** Once closed, for as long as no bytes arrive, a connection stays closed, takes no sends and returns no frames. */
  lemma {:induction false} ClosedStaysQuiet(c: Conn, es: seq<Event>)
    requires c.Fits() && !Open(c) && forall e :: e in es ==> !BringsBytes(e)
    ensures StillClosed(c, Run(c, es)) && Returned(c, es) == []
    decreases |es|
  {
    hide Step, FramesRead, LeftOf, BringsBytes;
    if es == [] {
      LeftOfItself(c.send.data);
    } else {
      assert es[0] in es;
      var c' := Step(c, es[0]);
      QuietStep(c, es[0]);
      ClosedStaysQuiet(c', es[1..]);
      LeftOfLeft(c.send.data, c'.send.data, Run(c', es[1..]).send.data);
    }
  }

  lemma QuietStep(c: Conn, e: Event)
    requires c.Fits() && !Open(c) && !BringsBytes(e)
    ensures StillClosed(c, Step(c, e))
    ensures e.Send? || e.Raw? ==> Step(c, e) == c
    ensures e.Readable? ==> FramesRead(c, e.input) == []
  {
    hide Roomy, Drain;
  }

  lemma LeftOfItself(a: seq<byte>)
    ensures LeftOf(a, a)
  {
  }

  lemma LeftOfLeft(a: seq<byte>, b: seq<byte>, c: seq<byte>)
    requires LeftOf(a, b) && LeftOf(b, c)
    ensures LeftOf(a, c)
  {
  }

  // ---------------------------------------------------------------- memory

  /** `top` is reached from `cap` by doubling. */
  ghost predicate Halves(cap: nat, top: nat)
    decreases top - cap
  {
    0 < cap && (cap == top || (cap < top && Halves(2 * cap, top)))
  }

  lemma {:induction false} DoubledHalves(cap: nat, need: nat, top: nat)
    requires Halves(cap, top) && need <= top
    ensures Halves(Doubled(cap, need), top)
    decreases need - cap
  {
    if cap < need {
      DoubledHalves(2 * cap, need, top);
    }
  }

  lemma RoomyHalves(g: Gap, len: nat, top: nat)
    requires g.Fits() && Halves(g.cap, top) && |g.data| + len <= top
    ensures Halves(Roomy(g, len).cap, top)
  {
    if Compacted(g).Writable() < len {
      DoubledHalves(2 * g.cap, |g.data| + len, top);
    }
  }

  const RECV_MAX: nat := 131072

  ghost predicate Bounded(c: Conn) {
    && Idle(c)
    && Halves(c.send.cap, SEND_QUEUE_MAX)
    && (Parse(c.recv.data) == NeedMore ==> Halves(c.recv.cap, RECV_MAX))
  }

  lemma NeedMoreIsShort(s: seq<byte>)
    requires Parse(s) == NeedMore
    ensures |s| < HEADER_SIZE + MAX_PAYLOAD
  {
  }

  lemma MalformedStays(c: Conn, input: Input)
    requires Idle(c) && Parse(c.recv.data) == Malformed
    ensures Parse(AfterRead(c, input).recv.data) == Malformed
  {
    hide ParseHeader, Roomy, Drop;
    ParseStable(c.recv.data, Delivered(c, input));
    assert c.recv.data + [] == c.recv.data;
  }

  lemma BoundedStep(c: Conn, e: Event)
    requires Bounded(c)
    ensures Bounded(Step(c, e))
  {
    hide Parse, Roomy, Drain, Halves, FrameBytes, Consumed;
    IdleStep(c, e);
    match e
    case Readable(input) =>
      if Parse(c.recv.data) == NeedMore {
        NeedMoreIsShort(c.recv.data);
        RoomyHalves(c.recv, 4096, RECV_MAX);
      } else {
        MalformedStays(c, input);
      }
    case Writable(output) =>
    case Send(id, flags, sequence, payload) =>
      if |payload| <= MAX_PAYLOAD {
        SendBounded(c, FrameBytes(FrameOf(id, flags, sequence, payload)));
      }
    case Raw(bytes) =>
      SendBounded(c, bytes);
    case Shut =>
  }

  lemma SendBounded(c: Conn, bytes: seq<byte>)
    requires c.Fits() && Halves(c.send.cap, SEND_QUEUE_MAX)
    ensures Halves(AfterSendRaw(c, bytes).send.cap, SEND_QUEUE_MAX)
  {
    hide Halves, Roomy;
    if |c.send.data| + |bytes| <= SEND_QUEUE_MAX {
      RoomyHalves(c.send, |bytes|, SEND_QUEUE_MAX);
    }
  }

  lemma {:induction false} HalvesIsBelow(cap: nat, top: nat)
    requires Halves(cap, top)
    ensures cap <= top
  {
  }

  lemma {:induction false} BoundedRun(c: Conn, es: seq<Event>)
    requires Bounded(c)
    ensures Bounded(Run(c, es))
    decreases |es|
  {
    hide Step, Halves, Parse;
    if es != [] {
      BoundedStep(c, es[0]);
      BoundedRun(Step(c, es[0]), es[1..]);
    }
  }

  lemma FreshHalves()
    ensures Halves(4096, SEND_QUEUE_MAX) && Halves(4096, RECV_MAX)
  {
  }

  /** Memory per connection: 256 KiB to send, and 128 KiB to receive for as long as headers are well formed. */
  lemma MemoryBound(es: seq<Event>)
    ensures var c := Run(FRESH, es);
            && |c.send.data| <= c.send.cap <= 262144
            && (!Drain(Arrived(FRESH, es)).malformed ==> |c.recv.data| <= c.recv.cap <= 131072)
  {
    hide Run, Halves, Drain, ParseHeader, Arrived;
    FreshHalves();
    BoundedRun(FRESH, es);
    var c := Run(FRESH, es);
    HalvesIsBelow(c.send.cap, SEND_QUEUE_MAX);
    var s := Arrived(FRESH, es);
    assert [] + s == s;
    SplitIndependence(FRESH, es);
    BannedIffMalformed(FRESH, es);
    if !Drain(s).malformed {
      HalvesIsBelow(c.recv.cap, RECV_MAX);
    }
  }

  /** The condition is needed: behind a malformed header the receive buffer grows with every chunk. */
  lemma {:induction false} GrowsBehindMalformed(c: Conn, n: nat)
    requires Idle(c) && Parse(c.recv.data) == Malformed
    ensures var chunk := Readable(Chunk(seq(4096, _ => 0)));
            Run(c, seq(n, _ => chunk)).recv.cap >= 4096 * n
  {
    GrowsBy(c, n);
  }

  lemma {:induction false} GrowsBy(c: Conn, n: nat)
    requires Idle(c) && Parse(c.recv.data) == Malformed
    ensures var chunk := Readable(Chunk(seq(4096, _ => 0)));
            |Run(c, seq(n, _ => chunk)).recv.data| == |c.recv.data| + 4096 * n
    decreases n
  {
    hide Parse;
    var input := Chunk(seq(4096, _ => 0));
    var es := seq(n, _ => Readable(input));
    if n > 0 {
      assert es[1..] == seq(n - 1, _ => Readable(input));
      IdleStep(c, Readable(input));
      MalformedStays(c, input);
      GrowsOnce(c, input);
      GrowsBy(AfterRead(c, input), n - 1);
    }
  }

  lemma GrowsOnce(c: Conn, input: Input)
    requires Idle(c) && Parse(c.recv.data) == Malformed && input.Chunk? && |input.bytes| == 4096
    ensures |AfterRead(c, input).recv.data| == |c.recv.data| + 4096
  {
    hide ParseHeader;
    ParseStable(c.recv.data, Delivered(c, input));
  }
}
