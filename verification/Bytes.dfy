/** What all components share: ids, fixed-width integers, sequences and the big-endian notation of both codecs. */
module Bytes {

  newtype byte = x: int | 0 <= x < 256

  type u16 = n: nat | n < 0x1_0000
  type u32 = n: nat | n < 0x1_0000_0000
  type u64 = n: nat | n < 0x1_0000_0000_0000_0000

  type PlayerId = u64
  type RoomId = nat

  datatype Option<+T> = None | Some(value: T)

  /** No element occurs twice. */
  ghost predicate Distinct<T>(s: seq<T>) {
    forall i, j :: 0 <= i < j < |s| ==> s[i] != s[j]
  }

  function Min(a: nat, b: nat): nat { if a <= b then a else b }
  function Max(a: int, b: int): int { if a >= b then a else b }

  lemma Assoc<T>(a: seq<T>, b: seq<T>, c: seq<T>)
    ensures a + b + c == a + (b + c)
  {
  }

  lemma Uncons<T>(s: seq<T>, t: seq<T>)
    requires s != []
    ensures s + t == [s[0]] + (s[1..] + t)
  {
  }

  lemma Rejoin<T>(s: seq<T>, i: nat)
    requires i <= |s|
    ensures s[..i] + s[i..] == s
  {
  }

  lemma Splice<T>(s: seq<T>, i: nat, j: nat)
    requires i <= j <= |s|
    ensures s[..i] + s[i..j] == s[..j]
  {
  }

  lemma ConsTail<T>(x: T, s: seq<T>)
    ensures ([x] + s)[1..] == s
  {
  }

  lemma DropPrefix<T>(s: seq<T>, t: seq<T>)
    ensures (s + t)[|s|..] == t
  {
  }

  function Pow256(n: nat): (r: nat)
    ensures r >= 1
  {
    if n == 0 then 1 else 256 * Pow256(n - 1)
  }

  /** The `width` low-order bytes of `n`, most significant first. */
  function BigEndian(n: nat, width: nat): (s: seq<byte>)
    ensures |s| == width
  {
    if width == 0 then [] else BigEndian(n / 256, width - 1) + [(n % 256) as byte]
  }

  /** The number that the `width` bytes of `s` from index `i` denote in big-endian notation. */
  function NumberAt(s: seq<byte>, i: nat, width: nat): nat
    requires i + width <= |s|
  {
    if width == 0 then 0 else 256 * NumberAt(s, i, width - 1) + s[i + width - 1] as nat
  }

  lemma {:induction false} NumberOfBigEndian(s: seq<byte>, i: nat, n: nat, width: nat)
    requires i + width <= |s| && n < Pow256(width) && s[i..i + width] == BigEndian(n, width)
    ensures NumberAt(s, i, width) == n
  {
    if width > 0 {
      assert s[i..i + width - 1] == s[i..i + width][..width - 1] == BigEndian(n / 256, width - 1);
      assert s[i + width - 1] == s[i..i + width][width - 1];
      NumberOfBigEndian(s, i, n / 256, width - 1);
    }
  }

  lemma SliceLast<T>(s: seq<T>, i: nat, j: nat)
    requires i < j <= |s|
    ensures s[i..j] == s[i..j - 1] + [s[j - 1]]
  {
  }

  lemma {:induction false} BigEndianOfNumber(s: seq<byte>, i: nat, width: nat)
    requires i + width <= |s|
    ensures NumberAt(s, i, width) < Pow256(width)
    ensures BigEndian(NumberAt(s, i, width), width) == s[i..i + width]
  {
    if width > 0 {
      BigEndianOfNumber(s, i, width - 1);
      var high, low := NumberAt(s, i, width - 1), s[i + width - 1];
      assert (256 * high + low as nat) / 256 == high && (256 * high + low as nat) % 256 == low as nat;
      SliceLast(s, i, i + width);
    }
  }

  lemma {:induction false} NumberInPrefix(s: seq<byte>, t: seq<byte>, i: nat, width: nat)
    requires i + width <= |s|
    ensures NumberAt(s + t, i, width) == NumberAt(s, i, width)
  {
    if width > 0 {
      NumberInPrefix(s, t, i, width - 1);
    }
  }

  lemma {:induction false} NumberSplit(s: seq<byte>, i: nat, a: nat, b: nat)
    requires i + a + b <= |s|
    ensures NumberAt(s, i, a + b) == NumberAt(s, i, a) * Pow256(b) + NumberAt(s, i + a, b)
  {
    if b == 0 {
      NumberEmpty(s, i + a);
    } else {
      hide NumberAt, Pow256;
      NumberSplit(s, i, a, b - 1);
      NumberMore(s, i, a + b);
      NumberMore(s, i + a, b);
      PowerMore(b);
      Scale(NumberAt(s, i, a), Pow256(b - 1));
    }
  }

  lemma NumberEmpty(s: seq<byte>, i: nat)
    requires i <= |s|
    ensures NumberAt(s, i, 0) == 0 && Pow256(0) == 1
  {
  }

  lemma NumberMore(s: seq<byte>, i: nat, width: nat)
    requires 1 <= width && i + width <= |s|
    ensures NumberAt(s, i, width) == 256 * NumberAt(s, i, width - 1) + s[i + width - 1] as nat
  {
  }

  lemma PowerMore(n: nat)
    requires n >= 1
    ensures Pow256(n) == 256 * Pow256(n - 1)
  {
  }

  lemma Scale(x: nat, p: nat)
    ensures 256 * (x * p) == x * (256 * p)
  {
  }

  lemma Widths()
    ensures Pow256(2) == 0x1_0000
    ensures Pow256(4) == 0x1_0000_0000
    ensures Pow256(8) == 0x1_0000_0000_0000_0000
  {
  }

  /** An eight-byte number is its high word followed by its low word. */
  lemma SplitWords(n: u64)
    ensures BigEndian(n, 8) == BigEndian(n / 0x1_0000_0000, 4) + BigEndian(n % 0x1_0000_0000, 4)
  {
    hide BigEndian, NumberAt, Pow256;
    Widths();
    var hi, lo := n / 0x1_0000_0000, n % 0x1_0000_0000;
    var s := BigEndian(hi, 4) + BigEndian(lo, 4);
    NumberOfBigEndian(s, 0, hi, 4);
    NumberOfBigEndian(s, 4, lo, 4);
    NumberSplit(s, 0, 4, 4);
    BigEndianOfNumber(s, 0, 8);
    assert s[0..8] == s;
  }

  /** `s` with `src` written over it from `offset` on. */
  ghost function Pasted(s: seq<byte>, offset: nat, src: seq<byte>): (r: seq<byte>)
    requires offset + |src| <= |s|
    ensures |r| == |s|
  {
    s[..offset] + src + s[offset + |src|..]
  }

  /** memcpy */
  method CopyInto(dst: array<byte>, offset: nat, src: seq<byte>)
    requires offset + |src| <= dst.Length
    modifies dst
    ensures dst[..] == Pasted(old(dst[..]), offset, src)
    ensures forall i :: 0 <= i < offset ==> dst[i] == old(dst[i])
    ensures forall i :: 0 <= i < |src| ==> dst[offset + i] == src[i]
  {
    forall i | 0 <= i < |src| {
      dst[offset + i] := src[i];
    }
    assert dst[offset..offset + |src|] == src;
  }

  /** Copying right behind a finished prefix extends the prefix. */
  lemma Overlay(s: seq<byte>, prefix: seq<byte>, src: seq<byte>)
    requires |prefix| + |src| <= |s|
    ensures Pasted(prefix + s[|prefix|..], |prefix|, src) == prefix + src + s[|prefix| + |src|..]
  {
  }
}
