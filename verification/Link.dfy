/**
  Two connections joined by a byte stream. The network may deliver any number of bytes at a time;
  each side may do anything else in between, including reading arbitrary bytes in the other direction.
 */
module Link {
  import opened Bytes
  import opened GapBuffer
  import opened FrameCodec
  import opened Connection
  import ConnectionRuns

  /** `accepted` and `received` record the frames queued by the sender and returned by the receiver. */
  datatype Link = Link(sender: Conn, wire: seq<byte>, receiver: Conn,
                       accepted: seq<Frame>, received: seq<Frame>) {
    predicate Fits() { sender.Fits() && receiver.Fits() }
  }

  const START := Link(FRESH, [], FRESH, [], [])

  datatype Action =
    | SenderSends(id: u32, flags: u16, sequence: u64, payload: seq<byte>)
    | SenderForwards(frame: Frame)
    | SenderWrites(output: Output)
    | SenderReads(input: Input)
    | SenderCloses
    | ReceiverReads(offered: nat)
    | ReceiverSeesNothing(outcome: Input)
    | ReceiverActs(event: ConnectionRuns.Event)

  /** Whether the send queue takes these bytes. */
  predicate Queues(c: Conn, bytes: seq<byte>) {
    (c.state == Connected || c.state == Active) && |c.send.data| + |bytes| <= SEND_QUEUE_MAX
  }

  function Queue(l: Link, f: Frame): (r: Link)
    requires l.Fits()
    ensures r.Fits()
  {
    var bytes := FrameBytes(f);
    l.(sender := AfterSendRaw(l.sender, bytes),
       accepted := if Queues(l.sender, bytes) then l.accepted + [f] else l.accepted)
  }

  function Deliver(l: Link, offered: nat): (r: Link)
    requires l.Fits()
    ensures r.Fits()
  {
    var input := Chunk(l.wire[..Min(offered, |l.wire|)]);
    var s := Delivered(l.receiver, input);
    l.(receiver := AfterRead(l.receiver, input), wire := l.wire[|s|..],
       received := l.received + FramesRead(l.receiver, input))
  }

  /** Raw sends are of encoded frames, as in the server's sendResponse; the receiver's reads are the other actions. */
  predicate Enabled(a: Action) {
    match a
    case SenderForwards(frame) => Honest(frame)
    case ReceiverSeesNothing(outcome) => !outcome.Chunk?
    case ReceiverActs(event) => !event.Readable?
    case _ => true
  }

  function Step(l: Link, a: Action): (r: Link)
    requires l.Fits() && Enabled(a)
    ensures r.Fits()
  {
    match a
    case SenderSends(id, flags, sequence, payload) =>
      if |payload| > MAX_PAYLOAD then l else Queue(l, FrameOf(id, flags, sequence, payload))
    case SenderForwards(frame) => Queue(l, frame)
    case SenderWrites(output) =>
      l.(sender := AfterWrite(l.sender, output), wire := l.wire + Sent(l.sender, output))
    case SenderReads(input) => l.(sender := AfterRead(l.sender, input))
    case SenderCloses => l.(sender := AfterClose(l.sender))
    case ReceiverReads(offered) => Deliver(l, offered)
    case ReceiverSeesNothing(outcome) => l.(receiver := AfterRead(l.receiver, outcome))
    case ReceiverActs(event) => l.(receiver := ConnectionRuns.Step(l.receiver, event))
  }

  function Run(l: Link, actions: seq<Action>): (r: Link)
    requires l.Fits() && forall a :: a in actions ==> Enabled(a)
    ensures r.Fits()
    decreases |actions|
  {
    if actions == [] then l else Run(Step(l, actions[0]), actions[1..])
  }

  /** Sending a frame is sending its encoding. */
  lemma SendFrameIsSendRaw(c: Conn, f: Frame)
    requires c.Fits() && Honest(f)
    ensures AfterSendFrame(c, f.messageId, f.flags, f.sequence, f.payload) == AfterSendRaw(c, FrameBytes(f))
  {
  }

  /** Every accepted byte is in exactly one place: returned, buffered, in flight or queued, in that order. */
  ghost predicate Inv(l: Link) {
    && l.Fits() && AllHonest(l.accepted) && AllHonest(l.received)
    && EncodeAll(l.accepted) == EncodeAll(l.received) + (l.receiver.recv.data + (l.wire + l.sender.send.data))
    && Parse(l.receiver.recv.data) == NeedMore
    && l.receiver.illegal == 0
  }

  lemma {:induction false} HonestConcat(a: seq<Frame>, b: seq<Frame>)
    requires AllHonest(a) && AllHonest(b)
    ensures AllHonest(a + b)
  {
    if a == [] {
      assert a + b == b;
    } else {
      HonestConcat(a[1..], b);
      assert (a + b)[1..] == a[1..] + b;
    }
  }

  lemma QueueKeeps(l: Link, f: Frame)
    requires Inv(l) && Honest(f)
    ensures Inv(Queue(l, f))
  {
    hide Parse, FrameBytes, Roomy, EncodeAll;
    var bytes := FrameBytes(f);
    if Queues(l.sender, bytes) {
      EncodeOne(f);
      EncodeAllConcat(l.accepted, [f]);
      HonestConcat(l.accepted, [f]);
      Assoc5(EncodeAll(l.received), l.receiver.recv.data, l.wire, l.sender.send.data, bytes);
    }
  }

  lemma EncodeOne(f: Frame)
    ensures EncodeAll([f]) == FrameBytes(f)
  {
  }

  lemma Assoc5(a: seq<byte>, b: seq<byte>, c: seq<byte>, d: seq<byte>, e: seq<byte>)
    ensures a + (b + (c + d)) + e == a + (b + (c + (d + e)))
  {
  }

  lemma WriteKeeps(l: Link, output: Output)
    requires Inv(l)
    ensures Inv(Step(l, SenderWrites(output)))
  {
    hide Parse, EncodeAll, AllHonest;
    var q, s := l.sender.send.data, Sent(l.sender, output);
    Rejoin(q, |s|);
    Assoc(l.wire, s, q[|s|..]);
  }

  /** Bytes cut out of a sound stream never contain a malformed header. */
  lemma SoundCut(fs: seq<Frame>, before: seq<Frame>, s: seq<byte>, t: seq<byte>)
    requires AllHonest(fs) && AllHonest(before) && EncodeAll(fs) == EncodeAll(before) + (s + t)
    ensures !Drain(s).malformed
  {
    hide Parse, EncodeAll, AllHonest;
    assert EncodeAll(fs) + [] == EncodeAll(fs);
    DrainEncoded(fs, []);
    NeedMoreEmpty();
    ConnectionRuns.DrainIdle([]);
    DrainEncoded(before, s + t);
    DrainInstalments(s, t);
    DrainFactors(s);
    if Drain(s).malformed {
      ConnectionRuns.DrainMalformed(Drain(s).rest, t);
    }
  }

  lemma NeedMoreEmpty()
    ensures Parse([]) == NeedMore
  {
  }

  lemma DeliverKeeps(l: Link, offered: nat)
    requires Inv(l)
    ensures Inv(Deliver(l, offered))
  {
    hide Parse, EncodeAll, AllHonest, Drain, AfterRead, FramesRead, Roomy;
    var input := Chunk(l.wire[..Min(offered, |l.wire|)]);
    var s := Delivered(l.receiver, input);
    var data, rest, queued := l.receiver.recv.data, l.wire[|s|..], l.sender.send.data;
    assert s == l.wire[..|s|];
    Rejoin(l.wire, |s|);
    Assoc4(data, s, rest, queued);
    SoundCut(l.accepted, l.received, data + s, rest + queued);
    ConnectionRuns.ReadOnce(l.receiver, input);
    ConnectionRuns.CleanRead(l.receiver, input);
    var d := Drain(data + s);
    DrainFactors(data + s);
    HonestConcat(l.received, d.frames);
    EncodeAllConcat(l.received, d.frames);
    Assoc4(EncodeAll(l.received), EncodeAll(d.frames), d.rest, rest + queued);
  }

  lemma Assoc4(a: seq<byte>, b: seq<byte>, c: seq<byte>, d: seq<byte>)
    ensures a + (b + c + d) == a + b + (c + d)
  {
  }

  lemma StepKeeps(l: Link, a: Action)
    requires Inv(l) && Enabled(a)
    ensures Inv(Step(l, a))
  {
    hide Parse, EncodeAll, AllHonest, Drain, Deliver, Queue, Roomy;
    match a
    case SenderSends(id, flags, sequence, payload) =>
      if |payload| <= MAX_PAYLOAD {
        QueueKeeps(l, FrameOf(id, flags, sequence, payload));
      }
    case SenderForwards(frame) => QueueKeeps(l, frame);
    case SenderWrites(output) => WriteKeeps(l, output);
    case SenderReads(input) =>
    case SenderCloses =>
    case ReceiverReads(offered) => DeliverKeeps(l, offered);
    case ReceiverSeesNothing(outcome) =>
    case ReceiverActs(event) => ConnectionRuns.IdleStep(l.receiver, event);
  }

  lemma {:induction false} RunKeeps(l: Link, actions: seq<Action>)
    requires Inv(l) && forall a :: a in actions ==> Enabled(a)
    ensures Inv(Run(l, actions))
    decreases |actions|
  {
    hide Step, Parse, EncodeAll, AllHonest;
    if actions != [] {
      StepKeeps(l, actions[0]);
      RunKeeps(Step(l, actions[0]), actions[1..]);
    }
  }

  lemma PrefixByEncoding(all: seq<Frame>, some: seq<Frame>, rest: seq<byte>)
    requires AllHonest(all) && AllHonest(some) && EncodeAll(all) == EncodeAll(some) + rest
    ensures all == some + Drain(rest).frames
  {
    hide Parse, EncodeAll, AllHonest;
    assert EncodeAll(all) + [] == EncodeAll(all);
    DrainEncoded(all, []);
    NeedMoreEmpty();
    ConnectionRuns.DrainIdle([]);
    DrainEncoded(some, rest);
    assert all + [] == all;
  }

  /**
    End to end: over every run, the frames returned are a prefix of the frames accepted, in order and field
    for field; they are all of them once nothing is queued or in flight; no packet is ever counted as illegal.
   */
  lemma EndToEnd(actions: seq<Action>)
    requires forall a :: a in actions ==> Enabled(a)
    ensures var l := Run(START, actions);
            && l.received <= l.accepted
            && (l.wire == [] && l.sender.send.data == [] ==> l.received == l.accepted)
            && l.receiver.illegal == 0
  {
    hide Parse, EncodeAll, Drain, Run;
    StartHolds();
    RunKeeps(START, actions);
    var l := Run(START, actions);
    var rest := l.receiver.recv.data + (l.wire + l.sender.send.data);
    PrefixByEncoding(l.accepted, l.received, rest);
    if l.wire == [] && l.sender.send.data == [] {
      assert rest == l.receiver.recv.data;
      ConnectionRuns.DrainIdle(rest);
    }
  }

  lemma StartHolds()
    ensures Inv(START)
  {
  }
}
