/** The robot's hand-written codec, robot/frame.go: frames, base-128 varints and the protobuf field scanners. */
module GoFrame {
  import opened Bytes
  import opened FrameCodec

  // ---------------------------------------------------------------- frames

  lemma HeaderInOneWord(total: u32, id: u32, flags: u16, sequence: u64)
    ensures HeaderBytes(total, id, flags, sequence)
         == BigEndian(total, 4) + BigEndian(id, 4) + BigEndian(flags, 2) + BigEndian(sequence, 8)
  {
    hide BigEndian;
    SplitWords(sequence);
    Assoc(BigEndian(total, 4) + BigEndian(id, 4) + BigEndian(flags, 2),
          BigEndian(sequence / 0x1_0000_0000, 4), BigEndian(sequence % 0x1_0000_0000, 4));
  }

  /** EncodeFrame yields the bytes of the C++ encoder; `None` is the panic on an oversized payload. */
  method EncodeFrame(id: u32, flags: u16, sequence: u64, payload: seq<byte>) returns (r: Option<seq<byte>>)
    ensures r.Some? <==> |payload| <= MAX_PAYLOAD
    ensures r.Some? ==> r.value == FrameBytes(FrameOf(id, flags, sequence, payload))
  {
    hide BigEndian, HeaderBytes;
    if |payload| > MAX_PAYLOAD {
      return None;
    }
    var total: u32 := HEADER_SIZE + |payload|;
    var buf := new byte[total](_ => 0);
    PutHeader(buf, total, id, flags, sequence);
    HeaderInOneWord(total, id, flags, sequence);
    CopyInto(buf, HEADER_SIZE, payload);
    return Some(buf[..]);
  }

  method PutHeader(buf: array<byte>, total: u32, id: u32, flags: u16, sequence: u64)
    requires buf.Length >= HEADER_SIZE
    modifies buf
    ensures buf[..] == BigEndian(total, 4) + BigEndian(id, 4) + BigEndian(flags, 2) + BigEndian(sequence, 8)
                       + old(buf[..])[HEADER_SIZE..]
  {
    hide BigEndian;
    var a, b, c, d := BigEndian(total, 4), BigEndian(id, 4), BigEndian(flags, 2), BigEndian(sequence, 8);
    ghost var s := buf[..];
    assert s == [] + s[0..];
    CopyNext(buf, 0, a, s, []);
    assert [] + a == a;
    CopyNext(buf, 4, b, s, a);
    CopyNext(buf, 8, c, s, a + b);
    CopyNext(buf, 10, d, s, a + b + c);
  }

  function Flat(chunks: seq<seq<byte>>): seq<byte> {
    if chunks == [] then [] else Flat(chunks[..|chunks| - 1]) + chunks[|chunks| - 1]
  }

  datatype ReadResult = Read(frame: Frame) | Invalid | ConnError

  class FrameReader {
    var buf: seq<byte>

    /** One conn.Read: the next chunk, or an error once the stream has ended. */
    method Fill(chunks: seq<seq<byte>>, used: nat) returns (ok: bool, used': nat)
      requires used <= |chunks|
      modifies this
      ensures ok == (used < |chunks|)
      ensures if ok then used' == used + 1 && buf == old(buf) + chunks[used] else used' == used && buf == old(buf)
    {
      if used == |chunks| {
        return false, used;
      }
      buf := buf + chunks[used];
      return true, used + 1;
    }

    /** The read loop: fetch chunks until `need` bytes are there or the stream ends. */
    method FillTo(need: nat, chunks: seq<seq<byte>>, from: nat, ghost start: seq<byte>) returns (ok: bool, used: nat)
      requires from <= |chunks| && buf == start + Flat(chunks[..from])
      modifies this
      ensures from <= used <= |chunks| && buf == start + Flat(chunks[..used])
      ensures if ok then |buf| >= need else |buf| < need && used == |chunks|
      ensures used > from ==> |start + Flat(chunks[..used - 1])| < need && old(buf) <= start + Flat(chunks[..used - 1])
      ensures old(buf) <= buf
    {
      used := from;
      while |buf| < need
        invariant from <= used <= |chunks| && buf == start + Flat(chunks[..used]) && old(buf) <= buf
        invariant used > from ==>
                    |start + Flat(chunks[..used - 1])| < need && old(buf) <= start + Flat(chunks[..used - 1])
        decreases |chunks| - used
      {
        FlatMore(start, chunks, used);
        ok, used := Fill(chunks, used);
        if !ok {
          return;
        }
      }
      ok := true;
    }

    /** ReadFrame agrees with the C++ decoder on everything read so far, and reads no chunk it does not need. */
    method ReadFrame(chunks: seq<seq<byte>>) returns (r: ReadResult, used: nat)
      modifies this
      ensures used <= |chunks|
      ensures var all := old(buf) + Flat(chunks[..used]);
              match r
              case Read(f) => Parse(all) == Complete(f) && buf == all[f.totalLength..]
              case Invalid => Parse(all) == Malformed && buf == all
              case ConnError => Parse(all) == NeedMore && buf == all && used == |chunks|
      ensures used > 0 ==> Parse(old(buf) + Flat(chunks[..used - 1])) == NeedMore
    {
      hide ParseHeader, Flat;
      ghost var start := buf;
      var ok;
      NoChunks(start, chunks);
      ok, used := FillTo(HEADER_SIZE, chunks, 0, start);
      if !ok {
        return ConnError, used;
      }
      var h := ParseHeader(buf);
      ghost var head := buf;
      if h.total < HEADER_SIZE || h.total > HEADER_SIZE + MAX_PAYLOAD {
        return Invalid, used;
      }
      ghost var before := used;
      ok, used := FillTo(h.total, chunks, used, start);
      HeaderOfExtension(head, buf);
      if used > before {
        HeaderOfExtension(head, start + Flat(chunks[..used - 1]));
      }
      if !ok {
        return ConnError, used;
      }
      var payload := buf[HEADER_SIZE..h.total];
      buf := buf[h.total..];
      return Read(Frame(h.total, h.id, h.flags, h.sequence, payload)), used;
    }
  }

  lemma NoChunks(start: seq<byte>, chunks: seq<seq<byte>>)
    ensures start == start + Flat(chunks[..0])
  {
  }

  lemma HeaderOfExtension(s: seq<byte>, t: seq<byte>)
    requires |s| >= HEADER_SIZE && s <= t
    ensures ParseHeader(t) == ParseHeader(s)
  {
    assert t == s + t[|s|..];
    HeaderStable(s, t[|s|..]);
  }

  lemma FlatMore(start: seq<byte>, chunks: seq<seq<byte>>, used: nat)
    requires used <= |chunks|
    ensures used < |chunks| ==> start + Flat(chunks[..used]) + chunks[used] == start + Flat(chunks[..used + 1])
  {
    if used < |chunks| {
      assert chunks[..used + 1][..used] == chunks[..used];
      Assoc(start, Flat(chunks[..used]), chunks[used]);
    }
  }

  // ---------------------------------------------------------------- varints

  const TWO64: nat := 0x1_0000_0000_0000_0000

  /** Base 128, least significant group first, the high bit meaning "more follows". */
  function Varint(v: nat): (s: seq<byte>)
    ensures |s| >= 1
  {
    if v < 128 then [v as byte] else [(v % 128 + 128) as byte] + Varint(v / 128)
  }

  method EncodeVarint(buf: seq<byte>, value: u64) returns (r: seq<byte>)
    ensures r == buf + Varint(value)
  {
    r := buf;
    var v: nat := value;
    while v >= 128
      invariant r + Varint(v) == buf + Varint(value)
      decreases v
    {
      Assoc(r, [(v % 128 + 128) as byte], Varint(v / 128));
      r := r + [(v % 128 + 128) as byte];
      v := v / 128;
    }
    r := r + [v as byte];
  }

  datatype Number = Number(value: nat, next: nat)

  /** The number whose groups start at `pos`, before it is cut to 64 bits, and the position after it. */
  function NumberFrom(s: seq<byte>, pos: nat): (r: Number)
    ensures pos <= r.next && (pos < |s| ==> pos < r.next <= |s|)
    decreases |s| - pos
  {
    if pos >= |s| then Number(0, pos)
    else if s[pos] < 128 then Number(s[pos] as nat, pos + 1)
    else
      var rest := NumberFrom(s, pos + 1);
      Number(s[pos] as nat - 128 + 128 * rest.value, rest.next)
  }

  function Pow128(k: nat): (r: nat)
    ensures r >= 1
  {
    if k == 0 then 1 else 128 * Pow128(k - 1)
  }

  function ParsedVarint(s: seq<byte>, pos: nat): (r: Number)
    ensures r.value < TWO64 && pos <= r.next && (pos < |s| ==> pos < r.next <= |s|)
  {
    var r := NumberFrom(s, pos);
    Number(r.value % TWO64, r.next)
  }

  function Pow2(n: nat): (r: nat)
    ensures r >= 1
  {
    if n == 0 then 1 else 2 * Pow2(n - 1)
  }

  /** Bitwise or. */
  function Or(x: nat, y: nat): nat
    decreases x + y
  {
    if x == 0 && y == 0 then 0
    else (if x % 2 == 1 || y % 2 == 1 then 1 else 0) + 2 * Or(x / 2, y / 2)
  }

  /** `x << shift` on 64 bits; a shift of 64 or more gives zero. */
  function ShiftLeft(x: nat, shift: nat): nat { Weighed(x, Pow2(shift)) % TWO64 }

  function Weighed(x: nat, weight: nat): nat { x * weight }

  method ParseVarint(s: seq<byte>, start: nat) returns (v: u64, pos: nat)
    ensures Number(v, pos) == ParsedVarint(s, start)
  {
    hide Parsing, ParsedVarint, Or, ShiftLeft;
    v, pos := 0, start;
    var shift: nat := 0;
    ghost var acc: nat := 0;
    ParsingStart(s, start);
    while pos < |s|
      invariant Parsing(s, start, pos, shift, acc, v)
      decreases |s| - pos
    {
      var b := s[pos];
      var digit := b as nat % 128;
      ParsingRound(s, start, pos, shift, acc, v);
      pos := pos + 1;
      v := Or(v, ShiftLeft(digit, shift));
      if b < 128 {
        return;
      }
      acc := acc + Weighed(digit, Pow2(shift));
      shift := shift + 7;
    }
    ParsingEnd(s, start, pos, shift, acc, v);
  }

  /** The groups from `start` to `pos` make `acc`, of which `v` is the low 64 bits. */
  ghost predicate Parsing(s: seq<byte>, start: nat, pos: nat, shift: nat, acc: nat, v: nat) {
    && v == acc % TWO64 && acc < Pow2(shift)
    && Compose(acc, Pow2(shift), NumberFrom(s, pos).value) == NumberFrom(s, start).value
    && NumberFrom(s, pos).next == NumberFrom(s, start).next
  }

  lemma ParsingStart(s: seq<byte>, start: nat)
    ensures Parsing(s, start, start, 0, 0, 0)
  {
    NoShift(NumberFrom(s, start).value);
  }

  lemma ParsingRound(s: seq<byte>, start: nat, pos: nat, shift: nat, acc: nat, v: nat)
    requires Parsing(s, start, pos, shift, acc, v) && pos < |s|
    ensures var digit := s[pos] as nat % 128;
            var v' := Or(v, ShiftLeft(digit, shift));
            && v' < TWO64
            && (if s[pos] < 128 then Number(v', pos + 1) == ParsedVarint(s, start)
                else Parsing(s, start, pos + 1, shift + 7, acc + Weighed(digit, Pow2(shift)), v'))
  {
    hide Compose, Weighed, Pow2, Or, ShiftLeft;
    var digit := s[pos] as nat % 128;
    OrIn(acc, digit, shift);
    ComposeFacts(acc, Pow2(shift), digit, NumberFrom(s, pos + 1).value);
    SevenMore(acc, digit, shift);
  }

  lemma ParsingEnd(s: seq<byte>, start: nat, pos: nat, shift: nat, acc: nat, v: nat)
    requires Parsing(s, start, pos, shift, acc, v) && pos >= |s|
    ensures Number(v, pos) == ParsedVarint(s, start)
  {
    ComposeFacts(acc, Pow2(shift), 0, 0);
  }

  /** What has been read, plus the weight of the next group times the number still to be read. */
  ghost function Compose(acc: nat, weight: nat, rest: nat): nat { acc + weight * rest }

  lemma ComposeFacts(acc: nat, weight: nat, digit: nat, rest: nat)
    ensures Compose(acc, weight, 0) == acc
    ensures Compose(acc, weight, digit) == acc + Weighed(digit, weight)
    ensures Compose(acc, weight, digit + 128 * rest) == Compose(acc + Weighed(digit, weight), 128 * weight, rest)
  {
  }

  lemma NoShift(n: nat)
    ensures Pow2(0) == 1 && Compose(0, Pow2(0), n) == n
  {
  }

  lemma SevenMore(acc: nat, digit: nat, shift: nat)
    requires acc < Pow2(shift) && digit < 128
    ensures Pow2(shift + 7) == 128 * Pow2(shift) && acc + Weighed(digit, Pow2(shift)) < Pow2(shift + 7)
  {
    assert Pow2(7) == 128;
    PowAdd(shift, 7);
    AtMost127(digit, Pow2(shift));
  }

  lemma AtMost127(digit: nat, weight: nat)
    requires digit < 128
    ensures Weighed(digit, weight) <= 127 * weight
  {
  }

  lemma {:induction false} PowAdd(a: nat, b: nat)
    ensures Pow2(a + b) == Weighed(Pow2(b), Pow2(a))
    decreases b
  {
    if b == 0 {
      WeighFacts(0, Pow2(a));
    } else {
      hide Weighed;
      PowAdd(a, b - 1);
      WeighFacts(Pow2(b - 1), Pow2(a));
      assert Pow2(a + b) == 2 * Pow2(a + (b - 1));
    }
  }

  lemma WeighFacts(x: nat, weight: nat)
    ensures Weighed(1, weight) == weight && Weighed(0, weight) == 0 && Weighed(2 * x, weight) == 2 * Weighed(x, weight)
    ensures Weighed(x, 2 * weight) == 2 * Weighed(x, weight) && Weighed(x, 1) == x
  {
  }

  lemma {:induction false} OrZero(x: nat)
    ensures Or(x, 0) == x && Or(0, x) == x
    decreases x
  {
    if x > 0 {
      OrZero(x / 2);
    }
  }

  /** Or-ing in a number whose bits all lie above those of the other is adding it. */
  lemma {:induction false} OrIsAddition(x: nat, y: nat, k: nat)
    requires x < Pow2(k)
    ensures Or(x, Weighed(y, Pow2(k))) == x + Weighed(y, Pow2(k))
    decreases k
  {
    hide Weighed;
    if k == 0 {
      WeighFacts(y, 1);
      OrZero(y);
    } else {
      OrIsAddition(x / 2, y, k - 1);
      WeighFacts(y, Pow2(k - 1));
    }
  }

  lemma ModUnique(n: nat, d: nat, q: nat, r: nat)
    requires r < d && n == d * q + r
    ensures n % d == r
  {
    var q' := n / d;
    assert n == d * q' + n % d;
    assert d * (q' - q) == r - n % d by { assert d * (q' - q) == d * q' - d * q; }
    NoMultiple(d, q' - q);
  }

  lemma NoMultiple(d: nat, gap: int)
    requires -(d as int) < d * gap < d
    ensures d * gap == 0
  {
    Grows(d, gap);
  }

  lemma Grows(d: nat, gap: int)
    ensures gap >= 1 ==> d * gap >= d
    ensures gap <= -1 ==> d * gap + d <= 0
  {
  }

  /** Cutting a shifted number to its width cuts the number by the shift. */
  lemma ModOfWeighed(x: nat, m: nat, n: nat)
    requires m >= 1 && n >= 1
    ensures Weighed(n, m) >= 1 && Weighed(x, m) % Weighed(n, m) == Weighed(x % n, m)
    ensures Weighed(x % n, m) + m <= Weighed(n, m)
  {
    var q, r := x / n, x % n;
    assert x == n * q + r;
    assert x * m == (n * m) * q + r * m by { Distribute(n, q, r, m); }
    Within(r, n, m);
    ModUnique(x * m, n * m, q, r * m);
  }

  lemma Distribute(n: nat, q: nat, r: nat, m: nat)
    ensures (n * q + r) * m == (n * m) * q + r * m
  {
  }

  lemma Within(r: nat, n: nat, m: nat)
    requires r < n
    ensures r * m + m <= n * m
  {
    Grows(m, n - r);
    assert m * (n - r) == n * m - r * m;
  }

  /** One round of parseVarint: or-ing in the shifted group adds its weight, modulo 2^64. */
  lemma OrIn(acc: nat, digit: nat, shift: nat)
    requires acc < Pow2(shift)
    ensures Or(acc % TWO64, ShiftLeft(digit, shift)) == (acc + Weighed(digit, Pow2(shift))) % TWO64
  {
    hide Or, Pow2, Weighed;
    SixtyFour();
    if shift <= 64 {
      OrInBelow(acc, digit, shift);
    } else {
      OrInAbove(acc, digit, shift);
    }
  }

  lemma SixtyFour()
    ensures Pow2(64) == TWO64
  {
    hide Pow2;
    EightBits();
    Doubled(8, 0x100);
    Doubled(16, 0x1_0000);
    Doubled(32, 0x1_0000_0000);
  }

  lemma EightBits()
    ensures Pow2(8) == 0x100
  {
  }

  lemma Doubled(n: nat, v: nat)
    requires Pow2(n) == v
    ensures Pow2(2 * n) == v * v
  {
    hide Pow2;
    PowAdd(n, n);
  }

  lemma OrInBelow(acc: nat, digit: nat, shift: nat)
    requires acc < Pow2(shift) && shift <= 64
    ensures Or(acc % TWO64, ShiftLeft(digit, shift)) == (acc + Weighed(digit, Pow2(shift))) % TWO64
  {
    hide Or, Pow2, Weighed;
    SixtyFour();
    PowAdd(shift, 64 - shift);
    var m, n := Pow2(shift), Pow2(64 - shift);
    ModOfWeighed(digit, m, n);
    OrIsAddition(acc, digit % n, shift);
    Small(acc, Weighed(digit, m));
  }

  lemma Small(acc: nat, x: nat)
    requires acc + x % TWO64 < TWO64
    ensures acc % TWO64 == acc && (acc + x) % TWO64 == acc + x % TWO64
  {
  }

  lemma OrInAbove(acc: nat, digit: nat, shift: nat)
    requires shift > 64
    ensures Or(acc % TWO64, ShiftLeft(digit, shift)) == (acc + Weighed(digit, Pow2(shift))) % TWO64
  {
    hide Or, Pow2;
    SixtyFour();
    PowAdd(64, shift - 64);
    var k := digit * Pow2(shift - 64);
    assert Weighed(digit, Pow2(shift)) == k * TWO64;
    OrZero(acc % TWO64);
    Wraps(acc, k);
  }

  lemma Wraps(acc: nat, k: nat)
    ensures (k * TWO64) % TWO64 == 0 && (acc + k * TWO64) % TWO64 == acc % TWO64
  {
  }

  lemma {:induction false} NumberOfVarint(v: nat, pre: seq<byte>, post: seq<byte>)
    ensures NumberFrom(pre + Varint(v) + post, |pre|) == Number(v, |pre| + |Varint(v)|)
    decreases v
  {
    var s := pre + Varint(v) + post;
    if v >= 128 {
      var b := (v % 128 + 128) as byte;
      NumberOfVarint(v / 128, pre + [b], post);
      assert s == pre + [b] + Varint(v / 128) + post;
    }
  }

  lemma {:induction false} VarintLength(v: nat, k: nat)
    requires v < Pow128(k) && k >= 1
    ensures |Varint(v)| <= k
    decreases k
  {
    if v >= 128 {
      VarintLength(v / 128, k - 1);
    }
  }

  lemma TenGroups()
    ensures TWO64 <= Pow128(10)
  {
  }

  /** parseVarint inverts encodeVarint for every 64-bit value, whatever surrounds it, in at most ten bytes. */
  lemma VarintRoundTrip(v: u64, pre: seq<byte>, post: seq<byte>)
    ensures ParsedVarint(pre + Varint(v) + post, |pre|) == Number(v, |pre| + |Varint(v)|)
    ensures |Varint(v)| <= 10
  {
    NumberOfVarint(v, pre, post);
    TenGroups();
    VarintLength(v, 10);
  }

  /** 300 is 2 * 128 + 44, low group first. */
  lemma VarintExample()
    ensures Varint(300) == [0xAC, 0x02] && Varint(127) == [0x7F] && Varint(128) == [0x80, 0x01]
    ensures ParsedVarint([0xAC, 0x02, 0xFF], 0) == Number(300, 2)
  {
    assert NumberFrom([0xAC, 0x02, 0xFF], 1) == Number(2, 2);
  }

  // ---------------------------------------------------------------- field scanners

  /** Protobuf fields: the two wire types the scanners know, and the fixed-width ones they do not. */
  datatype Field =
    | VarintField(num: nat, value: u64)
    | BytesField(num: nat, data: seq<byte>)
    | FixedField(num: nat, wide: bool, data: seq<byte>)

  const TWO63: nat := 0x8000_0000_0000_0000
  const TWO61: nat := 0x2000_0000_0000_0000

  function Tag(f: Field): nat {
    f.num * 8 + match f
                case VarintField(_, _) => 0
                case BytesField(_, _) => 2
                case FixedField(_, wide, _) => if wide then 1 else 5
  }

  function FieldBytes(f: Field): (s: seq<byte>)
    ensures |s| >= 1
  {
    Varint(Tag(f)) +
    match f
    case VarintField(_, value) => Varint(value)
    case BytesField(_, data) => Varint(|data|) + data
    case FixedField(_, _, data) => data
  }

  function Message(fs: seq<Field>): seq<byte> {
    if fs == [] then [] else FieldBytes(fs[0]) + Message(fs[1..])
  }

  ghost predicate WellFormed(fs: seq<Field>) {
    forall f :: f in fs ==> f.num < TWO61
  }

  /** int64(n): the low 64 bits as a signed number. */
  function ToInt64(n: nat): int {
    var low := n % TWO64;
    if low >= TWO63 then low - TWO64 else low
  }

  /** Where the loop of a scanner stands: at a position, returned, or stopped by an index below zero. */
  datatype Outcome = At(pos: nat) | Returned(value: u64) | Crashed

  /**
    One iteration of the loop shared by GetErrorCode, GetSessionID, GetPlayerID and GetRoomID, which differ in the
    field number. A length is added to the position as a signed number, so it may lead backwards.
   */
  function Iterate(s: seq<byte>, pos: nat, want: nat): Outcome {
    if pos >= |s| then Returned(0)
    else
      var tag := ParsedVarint(s, pos);
      if tag.value % 8 == 0 then
        var val := ParsedVarint(s, tag.next);
        if tag.value / 8 == want then Returned(val.value) else At(val.next)
      else if tag.value % 8 == 2 then
        var len := ParsedVarint(s, tag.next);
        var next := ToInt64(len.next + len.value);
        if next < 0 then Crashed else At(next)
      else Returned(0)
  }

  function Steps(s: seq<byte>, pos: nat, want: nat, n: nat): Outcome
    decreases n
  {
    if n == 0 then At(pos)
    else
      match Iterate(s, pos, want)
      case At(next) => Steps(s, next, want, n - 1)
      case o => o
  }

  /** A scanner, run until it ends or is known never to. */
  method Scan(s: seq<byte>, want: nat) returns (r: Outcome)
    ensures r == Steps(s, 0, want, |s| + 1)
  {
    hide ParsedVarint, ToInt64;
    var pos: nat := 0;
    for n := 0 to |s| + 1
      invariant Steps(s, pos, want, |s| + 1 - n) == Steps(s, 0, want, |s| + 1)
    {
      if pos >= |s| {
        return Returned(0);
      }
      var tag, next := ParseVarint(s, pos);
      if tag % 8 == 0 {
        var val, after := ParseVarint(s, next);
        if tag / 8 == want {
          return Returned(val);
        }
        pos := after;
      } else if tag % 8 == 2 {
        var len, after := ParseVarint(s, next);
        var jump := ToInt64(after + len);
        if jump < 0 {
          return Crashed;
        }
        pos := jump;
      } else {
        return Returned(0);
      }
    }
    return At(pos);
  }

  /** Where a length leads: ahead, back by what it lacks to 2^64, or below zero. */
  lemma JumpCases(next: nat, len: u64)
    requires next < TWO63
    ensures ToInt64(next + len) ==
              if next + len < TWO63 then next + len else next + len - TWO64
    ensures ToInt64(next + len) < 0 <==> TWO63 <= next + len < TWO64
    ensures next + len >= TWO64 ==> 0 <= ToInt64(next + len) < next
  {
  }

  lemma {:induction false} StepsOn(s: seq<byte>, pos: nat, want: nat, n: nat, m: nat)
    ensures Steps(s, pos, want, n + m) ==
              match Steps(s, pos, want, n) case At(p) => Steps(s, p, want, m) case o => o
    decreases n
  {
    hide Iterate;
    if n > 0 {
      var o := Iterate(s, pos, want);
      if o.At? {
        StepsOn(s, o.pos, want, n - 1, m);
      }
    }
  }

  /** The positions the loop goes through in its first `n` iterations. */
  ghost function Trail(s: seq<byte>, want: nat, n: nat): (t: seq<nat>)
    requires Steps(s, 0, want, n).At?
    ensures |t| == n && forall i :: 0 <= i < n ==> Steps(s, 0, want, i) == At(t[i]) && t[i] < |s|
  {
    if n == 0 then []
    else
      StepsOn(s, 0, want, n - 1, 1);
      StepAhead(s, 0, want, n - 1);
      Trail(s, want, n - 1) + [Steps(s, 0, want, n - 1).pos]
  }

  lemma StepAhead(s: seq<byte>, pos: nat, want: nat, n: nat)
    requires Steps(s, pos, want, n + 1).At?
    ensures Steps(s, pos, want, n).At? && Steps(s, pos, want, n).pos < |s|
  {
    hide Iterate;
    StepsOn(s, pos, want, n, 1);
    var p := Steps(s, pos, want, n).pos;
    OneStep(s, p, want);
    hide Steps;
    EndIsReturn(s, p, want);
  }

  lemma OneStep(s: seq<byte>, pos: nat, want: nat)
    ensures Steps(s, pos, want, 1) == Iterate(s, pos, want)
  {
    var o := Iterate(s, pos, want);
    assert o.At? ==> Steps(s, o.pos, want, 0) == o;
  }

  lemma EndIsReturn(s: seq<byte>, pos: nat, want: nat)
    ensures pos >= |s| ==> Iterate(s, pos, want) == Returned(0)
  {
  }

  /** The loop comes back to a position it has been at. */
  ghost predicate Revisits(s: seq<byte>, want: nat, i: nat, j: nat) {
    i < j && Steps(s, 0, want, i).At? && Steps(s, 0, want, j) == Steps(s, 0, want, i)
  }

  /** Then it never ends. */
  lemma {:induction false} RevisitsForever(s: seq<byte>, want: nat, i: nat, j: nat, n: nat)
    requires Revisits(s, want, i, j)
    ensures Steps(s, 0, want, n).At?
    decreases n
  {
    hide Steps;
    if n <= j {
      StepsOn(s, 0, want, n, j - n);
    } else {
      RevisitsForever(s, want, i, j, n - (j - i));
      StepsOn(s, 0, want, j, n - j);
      StepsOn(s, 0, want, i, n - j);
    }
  }

  lemma LongTrailRevisits(s: seq<byte>, want: nat)
    requires Steps(s, 0, want, |s| + 1).At?
    ensures exists i, j :: Revisits(s, want, i, j)
  {
    hide Steps;
    var t := Trail(s, want, |s| + 1);
    if Distinct(t) {
      TooMany(t, |s|);
    }
    var i, j :| 0 <= i < j < |t| && t[i] == t[j];
    assert Revisits(s, want, i, j);
  }

  /** There are no more than `m` different numbers below `m`. */
  lemma {:induction false} TooMany(t: seq<nat>, m: nat)
    requires Distinct(t) && forall x :: x in t ==> x < m
    ensures |t| <= m
    decreases m
  {
    if t != [] {
      assert t[0] in t;
      if i :| 0 <= i < |t| && t[i] == m - 1 {
        var rest := t[..i] + t[i + 1..];
        assert forall x :: x in rest ==> x in t && x != m - 1;
        TooMany(rest, m - 1);
      } else {
        assert forall x :: x in t ==> x < m - 1;
        TooMany(t, m - 1);
      }
    }
  }

  /**
    Which payloads make a scanner return, for any payload: exactly those on which it does so within |s| + 1
    iterations; on those that crash it, it does so by then; on all others it comes back to a position it has been at
    and runs forever.
   */
  lemma ScannerHalts(s: seq<byte>, want: nat)
    ensures var o := Steps(s, 0, want, |s| + 1);
            && (o.At? <==> exists i, j :: Revisits(s, want, i, j))
            && (o.At? ==> forall n: nat :: Steps(s, 0, want, n).At?)
            && (!o.At? ==> forall n: nat :: Steps(s, 0, want, n) == o || Steps(s, 0, want, n).At?)
  {
    hide Steps;
    var o := Steps(s, 0, want, |s| + 1);
    if o.At? {
      LongTrailRevisits(s, want);
      var i, j :| Revisits(s, want, i, j);
      forall n: nat ensures Steps(s, 0, want, n).At? {
        RevisitsForever(s, want, i, j, n);
      }
    } else {
      if i, j :| Revisits(s, want, i, j) {
        RevisitsForever(s, want, i, j, |s| + 1);
      }
      forall n: nat ensures Steps(s, 0, want, n) == o || Steps(s, 0, want, n).At? {
        if n <= |s| + 1 {
          StepsOn(s, 0, want, n, |s| + 1 - n);
        } else {
          StepsOn(s, 0, want, |s| + 1, n - (|s| + 1));
        }
      }
    }
  }

  /** Field 1 of a length that leads back to the start, and one byte less. */
  lemma LoopAndCrash(want: nat)
    ensures var s := [10] + Varint(TWO64 - 11); forall n: nat :: Steps(s, 0, want, n).At?
    ensures Steps([10] + Varint(TWO64 - 12), 0, want, 1) == Crashed
  {
    TenBytes(TWO64 - 11);
    TenBytes(TWO64 - 12);
    OneLength(TWO64 - 11, want);
    OneLength(TWO64 - 12, want);
    var s := [10] + Varint(TWO64 - 11);
    OneStep(s, 0, want);
    OneStep([10] + Varint(TWO64 - 12), 0, want);
    hide Iterate, Varint;
    assert Steps(s, 0, want, 0) == At(0);
    assert Revisits(s, want, 0, 1);
    forall n: nat ensures Steps(s, 0, want, n).At? {
      RevisitsForever(s, want, 0, 1, n);
    }
  }

  /** A number with all 64 bits takes ten bytes. */
  lemma TenBytes(v: u64)
    requires v >= TWO63
    ensures |Varint(v)| == 10
  {
    NineGroups();
    VarintRoundTrip(v, [], []);
    VarintLonger(v, 9);
  }

  lemma {:induction false} VarintLonger(v: nat, k: nat)
    requires v >= Pow128(k)
    ensures |Varint(v)| > k
    decreases k
  {
    if k > 0 {
      VarintLonger(v / 128, k - 1);
    }
  }

  lemma NineGroups()
    ensures Pow128(9) <= TWO63
  {
  }

  lemma OneLength(len: u64, want: nat)
    requires |Varint(len)| == 10
    ensures var next := ToInt64(11 + len);
            Iterate([10] + Varint(len), 0, want) == if next < 0 then Crashed else At(next)
  {
    hide ParsedVarint, Varint, ToInt64;
    var s := [10] + Varint(len);
    TagTen();
    ParsedAt(s, [], 10, Varint(len));
    assert s == [10] + Varint(len) + [];
    ParsedAt(s, [10], len, []);
  }

  lemma TagTen()
    ensures Varint(10) == [10]
  {
  }

  /** The answer of a scan that never goes back; `None` if a length overflows the position. */
  function ScanFrom(s: seq<byte>, pos: nat, want: nat): Option<u64>
    decreases |s| - pos
  {
    if pos >= |s| then Some(0)
    else
      var tag := ParsedVarint(s, pos);
      if tag.value % 8 == 0 then
        var val := ParsedVarint(s, tag.next);
        if tag.value / 8 == want then Some(val.value) else ScanFrom(s, val.next, want)
      else if tag.value % 8 == 2 then
        var len := ParsedVarint(s, tag.next);
        if len.next + len.value >= TWO63 then None else ScanFrom(s, len.next + len.value, want)
      else Some(0)
  }

  lemma {:induction false} ForwardScan(s: seq<byte>, pos: nat, want: nat, n: nat)
    requires ScanFrom(s, pos, want).Some? && n >= 1 && pos + n > |s|
    ensures Steps(s, pos, want, n) == Returned(ScanFrom(s, pos, want).value)
    decreases |s| - pos
  {
    hide ParsedVarint;
    var o := Iterate(s, pos, want);
    if o.At? {
      assert pos < o.pos && ScanFrom(s, pos, want) == ScanFrom(s, o.pos, want);
      ForwardScan(s, o.pos, want, n - 1);
    }
  }

  /** The first varint field with this number, looking no further than the first fixed-width field; else zero. */
  function FirstKnown(fs: seq<Field>, want: nat): u64 {
    if fs == [] || fs[0].FixedField? then 0
    else if fs[0].VarintField? && fs[0].num == want then fs[0].value
    else FirstKnown(fs[1..], want)
  }

  /** The first varint field with this number anywhere; zero if there is none. */
  function First(fs: seq<Field>, want: nat): u64 {
    if fs == [] then 0
    else if fs[0].VarintField? && fs[0].num == want then fs[0].value
    else First(fs[1..], want)
  }

  lemma ParsedAt(s: seq<byte>, pre: seq<byte>, v: u64, post: seq<byte>)
    requires s == pre + Varint(v) + post
    ensures ParsedVarint(s, |pre|) == Number(v, |pre| + |Varint(v)|)
  {
    VarintRoundTrip(v, pre, post);
  }

  lemma SplitField(pre: seq<byte>, a: seq<byte>, b: seq<byte>, rest: seq<byte>)
    ensures pre + (a + b + rest) == pre + a + (b + rest)
    ensures pre + (a + b + rest) == (pre + a) + b + rest
    ensures pre + (a + b + rest) == pre + (a + b) + rest
  {
  }

  lemma ScanVarintField(pre: seq<byte>, f: Field, rest: seq<byte>, want: nat)
    requires f.VarintField? && f.num < TWO61
    ensures var s := pre + (FieldBytes(f) + rest);
            ScanFrom(s, |pre|, want) ==
              if f.num == want then Some(f.value) else ScanFrom(s, |pre + FieldBytes(f)|, want)
  {
    hide Varint, ParsedVarint;
    var s := pre + (FieldBytes(f) + rest);
    SplitField(pre, Varint(Tag(f)), Varint(f.value), rest);
    ParsedAt(s, pre, Tag(f), Varint(f.value) + rest);
    ParsedAt(s, pre + Varint(Tag(f)), f.value, rest);
  }

  lemma ScanBytesField(pre: seq<byte>, f: Field, rest: seq<byte>, want: nat)
    requires f.BytesField? && f.num < TWO61 && |pre + (FieldBytes(f) + rest)| < TWO63
    ensures var s := pre + (FieldBytes(f) + rest);
            ScanFrom(s, |pre|, want) == ScanFrom(s, |pre + FieldBytes(f)|, want)
  {
    hide Varint, ParsedVarint;
    var s := pre + (FieldBytes(f) + rest);
    var a, b := Varint(Tag(f)), Varint(|f.data|);
    SplitField(pre, a, b + f.data, rest);
    ParsedAt(s, pre, Tag(f), b + f.data + rest);
    Assoc(b, f.data, rest);
    Assoc(pre + a, b, f.data + rest);
    ParsedAt(s, pre + a, |f.data|, f.data + rest);
  }

  lemma ScanFixedField(pre: seq<byte>, f: Field, rest: seq<byte>, want: nat)
    requires f.FixedField? && f.num < TWO61
    ensures ScanFrom(pre + (FieldBytes(f) + rest), |pre|, want) == Some(0)
  {
    hide Varint, ParsedVarint;
    var s := pre + (FieldBytes(f) + rest);
    SplitField(pre, Varint(Tag(f)), f.data, rest);
    ParsedAt(s, pre, Tag(f), f.data + rest);
  }

  lemma {:induction false} ScanMessage(pre: seq<byte>, fs: seq<Field>, want: nat)
    requires WellFormed(fs) && |pre + Message(fs)| < TWO63
    ensures ScanFrom(pre + Message(fs), |pre|, want) == Some(FirstKnown(fs, want))
    decreases |fs|
  {
    hide FieldBytes, ParsedVarint;
    if fs != [] {
      var f, rest := fs[0], Message(fs[1..]);
      assert f in fs;
      Assoc(pre, FieldBytes(f), rest);
      if f.FixedField? {
        ScanFixedField(pre, f, rest, want);
      } else {
        if f.VarintField? {
          ScanVarintField(pre, f, rest, want);
        } else {
          ScanBytesField(pre, f, rest, want);
        }
        ScanMessage(pre + FieldBytes(f), fs[1..], want);
        if f.VarintField? && f.num == want {
          assert FirstKnown(fs, want) == f.value;
        } else {
          assert FirstKnown(fs, want) == FirstKnown(fs[1..], want);
        }
      }
    }
  }

  /** A scanner returns the first matching varint field, or zero, as far as it can read the message. */
  lemma ScannerFindsField(fs: seq<Field>, want: nat)
    requires WellFormed(fs) && |Message(fs)| < TWO63
    ensures Steps(Message(fs), 0, want, |Message(fs)| + 1) == Returned(FirstKnown(fs, want))
  {
    hide Steps, ScanFrom;
    assert [] + Message(fs) == Message(fs);
    ScanMessage([], fs, want);
    ForwardScan(Message(fs), 0, want, |Message(fs)| + 1);
  }

  /** A fixed-width field hides the match behind it. */
  ghost predicate Hidden(fs: seq<Field>, want: nat) {
    fs != [] &&
    if fs[0].FixedField? then First(fs, want) != 0
    else !(fs[0].VarintField? && fs[0].num == want) && Hidden(fs[1..], want)
  }

  /** The scanner's answer is the message's answer exactly when no non-zero match lies behind a fixed-width field. */
  lemma {:induction false} FirstKnownIsFirst(fs: seq<Field>, want: nat)
    ensures FirstKnown(fs, want) == First(fs, want) <==> !Hidden(fs, want)
    decreases |fs|
  {
    if fs != [] && !fs[0].FixedField? {
      FirstKnownIsFirst(fs[1..], want);
    }
  }

  lemma HiddenExample()
    ensures var fs := [FixedField(9, false, [0, 0, 0, 0]), VarintField(1, 7)];
            FirstKnown(fs, 1) == 0 && First(fs, 1) == 7
  {
  }

  /** int32(val): the low 32 bits as a signed number. */
  function ToInt32(v: u64): int {
    var low := v % 0x1_0000_0000;
    if low >= 0x8000_0000 then low - 0x1_0000_0000 else low
  }

  /** An int32 field is sent sign-extended to 64 bits; the scanner's conversion recovers it. */
  lemma ErrorCodeSurvives(code: int)
    requires -0x8000_0000 <= code < 0x8000_0000
    ensures ToInt32(if code < 0 then code + TWO64 else code) == code
  {
  }
}
