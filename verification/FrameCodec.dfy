/**
  The wire format of src/network/frame_codec.cpp:
  `[total_length:4][message_id:4][flags:2][sequence:8][payload:N]`, all big-endian.
 */
module FrameCodec {
  import opened Bytes
  import opened GapBuffer

  const HEADER_SIZE: nat := 18
  const MAX_PAYLOAD: nat := 65536

  datatype Frame = Frame(totalLength: u32, messageId: u32, flags: u16, sequence: u64, payload: seq<byte>)

  /** Frames whose length field tells the truth and fits the packet limit. */
  predicate Honest(f: Frame) {
    |f.payload| <= MAX_PAYLOAD && f.totalLength == HEADER_SIZE + |f.payload|
  }

  function FrameOf(id: u32, flags: u16, sequence: u64, payload: seq<byte>): (f: Frame)
    requires |payload| <= MAX_PAYLOAD
    ensures Honest(f)
  {
    Frame(HEADER_SIZE + |payload|, id, flags, sequence, payload)
  }

  function HeaderBytes(total: u32, id: u32, flags: u16, sequence: u64): (s: seq<byte>)
    ensures |s| == HEADER_SIZE
  {
    BigEndian(total, 4) + BigEndian(id, 4) + BigEndian(flags, 2)
    + BigEndian(sequence / 0x1_0000_0000, 4) + BigEndian(sequence % 0x1_0000_0000, 4)
  }

  function FrameBytes(f: Frame): (s: seq<byte>)
    ensures |s| == HEADER_SIZE + |f.payload|
  {
    HeaderBytes(f.totalLength, f.messageId, f.flags, f.sequence) + f.payload
  }

  function EncodeAll(fs: seq<Frame>): seq<byte> {
    if fs == [] then [] else FrameBytes(fs[0]) + EncodeAll(fs[1..])
  }

  datatype Header = Header(total: u32, id: u32, flags: u16, sequence: u64)

  /** The four header fields; only the first eighteen bytes matter. */
  function ParseHeader(s: seq<byte>): (h: Header)
    requires |s| >= HEADER_SIZE
  {
    Widths();
    BigEndianOfNumber(s, 0, 4);
    BigEndianOfNumber(s, 4, 4);
    BigEndianOfNumber(s, 8, 2);
    BigEndianOfNumber(s, 10, 4);
    BigEndianOfNumber(s, 14, 4);
    Header(NumberAt(s, 0, 4), NumberAt(s, 4, 4), NumberAt(s, 8, 2),
           NumberAt(s, 10, 4) * 0x1_0000_0000 + NumberAt(s, 14, 4))
  }

  datatype Parsed = NeedMore | Malformed | Complete(frame: Frame)

  /** What the bytes at the front of a stream amount to. */
  function Parse(s: seq<byte>): (r: Parsed)
    ensures r.Complete? ==> Honest(r.frame) && r.frame.totalLength <= |s|
  {
    if |s| < HEADER_SIZE then NeedMore
    else
      var h := ParseHeader(s);
      if h.total < HEADER_SIZE || h.total > HEADER_SIZE + MAX_PAYLOAD then Malformed
      else if |s| < h.total then NeedMore
      else Complete(Frame(h.total, h.id, h.flags, h.sequence, s[HEADER_SIZE..h.total]))
  }

  lemma HeaderRoundTrip(total: u32, id: u32, flags: u16, sequence: u64, rest: seq<byte>)
    ensures ParseHeader(HeaderBytes(total, id, flags, sequence) + rest) == Header(total, id, flags, sequence)
  {
    var s := HeaderBytes(total, id, flags, sequence) + rest;
    var hi, lo := sequence / 0x1_0000_0000, sequence % 0x1_0000_0000;
    Widths();
    NumberOfBigEndian(s, 0, total, 4);
    NumberOfBigEndian(s, 4, id, 4);
    NumberOfBigEndian(s, 8, flags, 2);
    NumberOfBigEndian(s, 10, hi, 4);
    NumberOfBigEndian(s, 14, lo, 4);
  }

  function ByteOf(n: nat, place: nat): byte
    requires place > 0
  {
    (n / place % 256) as byte
  }

  lemma TwoBytes(n: nat)
    ensures BigEndian(n, 2) == [ByteOf(n, 0x100), ByteOf(n, 1)]
  {
    assert BigEndian(n / 256, 1) == [] + [(n / 256 % 256) as byte];
  }

  lemma FourBytes(n: nat)
    ensures BigEndian(n, 4) == [ByteOf(n, 0x100_0000), ByteOf(n, 0x1_0000), ByteOf(n, 0x100), ByteOf(n, 1)]
  {
    hide BigEndian;
    LastByte(n, 4);
    LastByte(n / 0x100, 3);
    DivTwice(n);
    TwoBytes(n / 0x1_0000);
  }

  lemma LastByte(n: nat, width: nat)
    requires width >= 1
    ensures BigEndian(n, width) == BigEndian(n / 0x100, width - 1) + [(n % 0x100) as byte]
  {
  }

  lemma DivTwice(n: nat)
    ensures n / 0x100 / 0x100 == n / 0x1_0000 && n / 0x1_0000 / 0x100 == n / 0x100_0000
  {
  }

  /** The wire format byte by byte: length, id, flags and sequence number, each highest byte first. */
  lemma WireLayout(total: u32, id: u32, flags: u16, sequence: u64)
    ensures var hi, lo := sequence / 0x1_0000_0000, sequence % 0x1_0000_0000;
            HeaderBytes(total, id, flags, sequence) ==
              [ByteOf(total, 0x100_0000), ByteOf(total, 0x1_0000), ByteOf(total, 0x100), ByteOf(total, 1),
               ByteOf(id, 0x100_0000), ByteOf(id, 0x1_0000), ByteOf(id, 0x100), ByteOf(id, 1),
               ByteOf(flags, 0x100), ByteOf(flags, 1),
               ByteOf(hi, 0x100_0000), ByteOf(hi, 0x1_0000), ByteOf(hi, 0x100), ByteOf(hi, 1),
               ByteOf(lo, 0x100_0000), ByteOf(lo, 0x1_0000), ByteOf(lo, 0x100), ByteOf(lo, 1)]
  {
    hide BigEndian, ByteOf;
    FourBytes(total);
    FourBytes(id);
    TwoBytes(flags);
    FourBytes(sequence / 0x1_0000_0000);
    FourBytes(sequence % 0x1_0000_0000);
  }

  /** What a header and the bytes behind it amount to, by the length it announces. */
  lemma HeaderLimits(total: u32, id: u32, flags: u16, sequence: u64, rest: seq<byte>)
    ensures Parse(HeaderBytes(total, id, flags, sequence) + rest) ==
              if total < 18 || total > 65554 then Malformed
              else if |rest| < total - 18 then NeedMore
              else Complete(Frame(total, id, flags, sequence, rest[..total - 18]))
    ensures |rest| < 18 ==> Parse(rest) == NeedMore
  {
    hide HeaderBytes, ParseHeader;
    HeaderRoundTrip(total, id, flags, sequence, rest);
    if 18 <= total && total - 18 <= |rest| {
      assert (HeaderBytes(total, id, flags, sequence) + rest)[18..total] == rest[..total - 18];
    }
  }

  /** Decoding inverts encoding, whatever follows on the stream. */
  lemma ParseEncoded(f: Frame, rest: seq<byte>)
    requires Honest(f)
    ensures Parse(FrameBytes(f) + rest) == Complete(f)
  {
    var h := HeaderBytes(f.totalLength, f.messageId, f.flags, f.sequence);
    assert FrameBytes(f) + rest == h + (f.payload + rest);
    HeaderRoundTrip(f.totalLength, f.messageId, f.flags, f.sequence, f.payload + rest);
    assert (FrameBytes(f) + rest)[HEADER_SIZE..f.totalLength] == f.payload;
  }

  lemma HeaderPieces(s: seq<byte>)
    requires HEADER_SIZE <= |s|
    ensures s[0..4] + s[4..8] + s[8..10] + s[10..14] + s[14..18] == s[..18]
  {
  }

  lemma HeaderOfParsed(s: seq<byte>)
    requires HEADER_SIZE <= |s|
    ensures var h := ParseHeader(s); HeaderBytes(h.total, h.id, h.flags, h.sequence) == s[..18]
  {
    hide NumberAt, BigEndian;
    Widths();
    BigEndianOfNumber(s, 0, 4);
    BigEndianOfNumber(s, 4, 4);
    BigEndianOfNumber(s, 8, 2);
    BigEndianOfNumber(s, 10, 4);
    BigEndianOfNumber(s, 14, 4);
    HeaderPieces(s);
  }

  /** Encoding inverts decoding: a decoded frame stands for exactly the bytes it was read from. */
  lemma EncodeParsed(s: seq<byte>)
    requires Parse(s).Complete?
    ensures FrameBytes(Parse(s).frame) == s[..Parse(s).frame.totalLength]
  {
    hide ParseHeader, HeaderBytes;
    HeaderOfParsed(s);
    Splice(s, HEADER_SIZE, Parse(s).frame.totalLength);
  }

  /** More bytes never change a header. */
  lemma HeaderStable(s: seq<byte>, t: seq<byte>)
    requires |s| >= HEADER_SIZE
    ensures ParseHeader(s + t) == ParseHeader(s)
  {
    NumberInPrefix(s, t, 0, 4);
    NumberInPrefix(s, t, 4, 4);
    NumberInPrefix(s, t, 8, 2);
    NumberInPrefix(s, t, 10, 4);
    NumberInPrefix(s, t, 14, 4);
  }

  /** More bytes never change a verdict that has been reached. */
  lemma ParseStable(s: seq<byte>, t: seq<byte>)
    requires !Parse(s).NeedMore?
    ensures Parse(s + t) == Parse(s)
  {
    hide ParseHeader;
    HeaderStable(s, t);
    if Parse(s).Complete? {
      var n := ParseHeader(s).total;
      assert (s + t)[HEADER_SIZE..n] == s[HEADER_SIZE..n];
    }
  }

  /** The frames at the front of a stream, the bytes left over, and whether a bad header stopped decoding. */
  datatype Drained = Drained(frames: seq<Frame>, rest: seq<byte>, malformed: bool)

  function Drain(s: seq<byte>): (d: Drained)
    ensures |d.rest| <= |s|
    decreases |s|
  {
    match Parse(s)
    case NeedMore => Drained([], s, false)
    case Malformed => Drained([], s, true)
    case Complete(f) =>
      var d := Drain(s[f.totalLength..]);
      Drained([f] + d.frames, d.rest, d.malformed)
  }

  function After(fs: seq<Frame>, d: Drained): Drained {
    Drained(fs + d.frames, d.rest, d.malformed)
  }

  ghost predicate AllHonest(fs: seq<Frame>) {
    fs == [] || (Honest(fs[0]) && AllHonest(fs[1..]))
  }

  lemma EncodeHead(fs: seq<Frame>, t: seq<byte>)
    requires fs != []
    ensures EncodeAll(fs) + t == FrameBytes(fs[0]) + (EncodeAll(fs[1..]) + t)
  {
  }

  /** Draining splits a stream into encoded frames followed by bytes that hold no complete frame. */
  lemma {:induction false} DrainFactors(s: seq<byte>)
    ensures AllHonest(Drain(s).frames)
    ensures s == EncodeAll(Drain(s).frames) + Drain(s).rest
    ensures Parse(Drain(s).rest) == if Drain(s).malformed then Malformed else NeedMore
    decreases |s|
  {
    var p := Parse(s);
    if p.Complete? {
      var t := s[p.frame.totalLength..];
      DrainFactors(t);
      EncodeParsed(s);
      ConsTail(p.frame, Drain(t).frames);
      EncodeHead(Drain(s).frames, Drain(t).rest);
      Rejoin(s, p.frame.totalLength);
    } else {
      assert EncodeAll([]) + s == s;
    }
  }

  lemma DrainStep(f: Frame, t: seq<byte>)
    requires Honest(f)
    ensures Drain(FrameBytes(f) + t) == After([f], Drain(t))
  {
    ParseEncoded(f, t);
    DropPrefix(FrameBytes(f), t);
  }

  /** Encoded frames at the front come out first, in order; what follows is drained as if it stood alone. */
  lemma {:induction false} DrainEncoded(fs: seq<Frame>, t: seq<byte>)
    requires AllHonest(fs)
    ensures Drain(EncodeAll(fs) + t) == After(fs, Drain(t))
  {
    if fs == [] {
      assert EncodeAll(fs) + t == t;
      assert fs + Drain(t).frames == Drain(t).frames;
    } else {
      EncodeHead(fs, t);
      DrainStep(fs[0], EncodeAll(fs[1..]) + t);
      DrainEncoded(fs[1..], t);
      Uncons(fs, Drain(t).frames);
    }
  }

  /** Draining in two instalments gives the same frames and the same remainder as draining once. */
  lemma DrainInstalments(s: seq<byte>, t: seq<byte>)
    ensures Drain(s + t) == After(Drain(s).frames, Drain(Drain(s).rest + t))
  {
    DrainFactors(s);
    Assoc(EncodeAll(Drain(s).frames), Drain(s).rest, t);
    DrainEncoded(Drain(s).frames, Drain(s).rest + t);
  }

  lemma {:induction false} EncodeAllConcat(a: seq<Frame>, b: seq<Frame>)
    ensures EncodeAll(a + b) == EncodeAll(a) + EncodeAll(b)
  {
    if a == [] {
      assert a + b == b;
    } else {
      assert (a + b)[1..] == a[1..] + b;
      EncodeAllConcat(a[1..], b);
    }
  }

  lemma SliceAfter(s: seq<byte>, i: nat, j: nat, p: seq<byte>)
    requires i <= j <= |s| && p == s[i..][..j - i]
    ensures p == s[i..j]
  {
  }

  // ---------------------------------------------------------------- the codec's operations

  method WriteHeader(dst: array<byte>, total: u32, id: u32, flags: u16, sequence: u64)
    requires dst.Length >= HEADER_SIZE
    modifies dst
    ensures dst[..] == HeaderBytes(total, id, flags, sequence) + old(dst[..])[HEADER_SIZE..]
  {
    hide BigEndian;
    var hi, lo := sequence / 0x1_0000_0000, sequence % 0x1_0000_0000;
    var a, b, c, d, e := BigEndian(total, 4), BigEndian(id, 4), BigEndian(flags, 2), BigEndian(hi, 4), BigEndian(lo, 4);
    ghost var s := dst[..];
    assert s == [] + s[0..];
    CopyNext(dst, 0, a, s, []);
    assert [] + a == a;
    CopyNext(dst, 4, b, s, a);
    CopyNext(dst, 8, c, s, a + b);
    CopyNext(dst, 10, d, s, a + b + c);
    CopyNext(dst, 14, e, s, a + b + c + d);
  }

  /** memcpy right behind what has been written over `s` so far. */
  method CopyNext(dst: array<byte>, offset: nat, src: seq<byte>, ghost s: seq<byte>, ghost done: seq<byte>)
    requires offset == |done| && offset + |src| <= |s| && dst[..] == done + s[offset..]
    modifies dst
    ensures dst[..] == done + src + s[offset + |src|..]
  {
    hide Pasted;
    CopyInto(dst, offset, src);
    Overlay(s, done, src);
  }

  /** encode: `None` is the exception for an oversized payload. */
  method Encode(id: u32, flags: u16, sequence: u64, payload: seq<byte>) returns (r: Option<seq<byte>>)
    ensures r.Some? <==> |payload| <= 65536
    ensures r.Some? ==> r.value == FrameBytes(FrameOf(id, flags, sequence, payload))
  {
    if |payload| > MAX_PAYLOAD {
      return None;
    }
    var total: u32 := HEADER_SIZE + |payload|;
    var result := new byte[total](_ => 0);
    WriteHeader(result, total, id, flags, sequence);
    if payload != [] {
      CopyInto(result, HEADER_SIZE, payload);
    }
    return Some(result[..]);
  }

  /** Skip the header already peeked at, then read the payload. */
  method TakeFrame(buf: Buffer, total: nat) returns (payload: seq<byte>)
    requires buf.Valid() && HEADER_SIZE <= total <= buf.Readable()
    modifies buf
    ensures buf.Valid() && buf.store == old(buf.store)
    ensures payload == old(buf.model).data[HEADER_SIZE..total]
    ensures buf.model == Drop(old(buf.model), total)
  {
    ghost var g := buf.model;
    buf.Skip(HEADER_SIZE);
    payload := [];
    if total > HEADER_SIZE {
      payload := buf.Read(total - HEADER_SIZE);
      DropTwice(g, HEADER_SIZE, total - HEADER_SIZE);
    }
    SliceAfter(g.data, HEADER_SIZE, total, payload);
  }

  /** decode: a complete frame is consumed; otherwise the buffer is left exactly as it was. */
  method Decode(buf: Buffer) returns (r: Parsed)
    requires buf.Valid()
    modifies buf
    ensures buf.Valid() && buf.store == old(buf.store)
    ensures r == old(Parse(buf.model.data))
    ensures r.Complete? ==> buf.model == Drop(old(buf.model), r.frame.totalLength)
    ensures !r.Complete? ==> buf.model == old(buf.model)
  {
    if buf.Readable() < HEADER_SIZE {
      return NeedMore;
    }
    var front := buf.Peek(buf.Readable());
    assert front == buf.model.data;
    var h := ParseHeader(front);
    if h.total < HEADER_SIZE {
      return Malformed;
    }
    if h.total > HEADER_SIZE + MAX_PAYLOAD {
      return Malformed;
    }
    if buf.Readable() < h.total {
      return NeedMore;
    }
    var payload := TakeFrame(buf, h.total);
    return Complete(Frame(h.total, h.id, h.flags, h.sequence, payload));
  }
}
