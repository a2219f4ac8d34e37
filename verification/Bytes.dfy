/** Bytes, big-endian integers and length-prefixed framing. */
module Bytes {

  type byte = x: int | 0 <= x < 256

  type bytes = seq<byte>

  const TWO_32: int := 0x1_0000_0000
  const TWO_64: int := 0x1_0000_0000_0000_0000

  function Power256(n: nat): nat {
    if n == 0 then 1 else 256 * Power256(n - 1)
  }

  /** `value` modulo 256^width, most significant byte first. */
  function BigEndian(value: nat, width: nat): (b: bytes)
    ensures |b| == width
  {
    if width == 0 then [] else BigEndian(value / 256, width - 1) + [value % 256]
  }

  function FromBigEndian(b: bytes): nat {
    if b == [] then 0 else FromBigEndian(b[..|b| - 1]) * 256 + b[|b| - 1]
  }

  lemma {:induction false} BigEndianValue(value: nat, width: nat)
    requires value < Power256(width)
    ensures FromBigEndian(BigEndian(value, width)) == value
  {
    if width > 0 {
      BigEndianValue(value / 256, width - 1);
      var head := BigEndian(value / 256, width - 1);
      assert (head + [value % 256])[..width - 1] == head;
    }
  }

  lemma PowersOf256()
    ensures Power256(2) == 0x1_0000 && Power256(4) == TWO_32 && Power256(8) == TWO_64
  {
    assert Power256(2) == 0x1_0000;
    assert Power256(4) == 0x1_0000 * Power256(2);
    assert Power256(8) == TWO_32 * Power256(4) by {
      assert Power256(5) == 256 * Power256(4) && Power256(6) == 0x1_0000 * Power256(4);
      assert Power256(7) == 0x100_0000 * Power256(4) && Power256(8) == 256 * Power256(7);
    }
  }

  /** Within its width a big-endian integer determines its value. */
  lemma {:induction false} BigEndianInjective(a: nat, b: nat, width: nat)
    requires a < Power256(width) && b < Power256(width)
    requires BigEndian(a, width) == BigEndian(b, width)
    ensures a == b
  {
    BigEndianValue(a, width);
    BigEndianValue(b, width);
  }

  // ---------- Framing ----------

  lemma Reassociate<T>(a: seq<T>, b: seq<T>, c: seq<T>)
    ensures (a + b) + c == a + (b + c)
  {
  }

  /** Equal concatenations whose first parts have one length have equal parts. */
  lemma SplitEqual<T>(a: seq<T>, x: seq<T>, b: seq<T>, y: seq<T>)
    requires |a| == |b| && a + x == b + y
    ensures a == b && x == y
  {
    assert a == (a + x)[..|a|] && b == (b + y)[..|b|];
    assert x == (a + x)[|a|..] && y == (b + y)[|b|..];
  }

  /** `lp32`: a 32-bit length (truncated, as the cast does) and the bytes. */
  function Lp32(value: bytes): bytes {
    BigEndian(|value| % TWO_32, 4) + value
  }

  /** Equal headed frames with headers of one length: equal headers, equal rests. */
  lemma HeaderSplit(la: bytes, a: bytes, x: bytes, lb: bytes, b: bytes, y: bytes)
    requires |la| == |lb| && (la + a) + x == (lb + b) + y
    ensures la == lb && a + x == b + y
  {
    assert (la + a) + x == la + (a + x) && (lb + b) + y == lb + (b + y);
    SplitEqual(la, a + x, lb, b + y);
  }

  lemma {:induction false} LengthHeader(a: nat, b: nat)
    requires a < TWO_32 && b < TWO_32 && BigEndian(a, 4) == BigEndian(b, 4)
    ensures a == b
  {
    PowersOf256();
    BigEndianInjective(a, b, 4);
  }

  /** Frames shorter than 2^32 can be read off the front of any byte string in one way only. */
  lemma Lp32Split(a: bytes, x: bytes, b: bytes, y: bytes)
    requires |a| < TWO_32 && |b| < TWO_32 && Lp32(a) + x == Lp32(b) + y
    ensures a == b && x == y
  {
    var la, lb := |a| % TWO_32, |b| % TWO_32;
    assert la == |a| && lb == |b|;
    HeaderSplit(BigEndian(la, 4), a, x, BigEndian(lb, 4), b, y);
    LengthHeader(la, lb);
    SplitEqual(a, x, b, y);
  }

  /** The same with an eight-byte length. */
  function Lp64(value: bytes): bytes {
    BigEndian(|value|, 8) + value
  }

  lemma Lp64Split(a: bytes, x: bytes, b: bytes, y: bytes)
    requires |a| < TWO_64 && |b| < TWO_64 && Lp64(a) + x == Lp64(b) + y
    ensures a == b && x == y
  {
    HeaderSplit(BigEndian(|a|, 8), a, x, BigEndian(|b|, 8), b, y);
    LongHeader(|a|, |b|);
    SplitEqual(a, x, b, y);
  }

  lemma {:induction false} LongHeader(a: nat, b: nat)
    requires a < TWO_64 && b < TWO_64 && BigEndian(a, 8) == BigEndian(b, 8)
    ensures a == b
  {
    PowersOf256();
    BigEndianInjective(a, b, 8);
  }
}
