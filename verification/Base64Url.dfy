/** Unpadded base64url of path segments: crates/msgriver-protocol/src/path.rs.

    Shifts, masks and unions of disjoint bits are written as products, remainders and sums. */
module Base64Url {
  import opened Wrappers
  import opened Bytes
  import opened Text

  const UPPER: string := "ABCDEFGHIJKLMNOPQRSTUVWXYZ"
  const LOWER: string := "abcdefghijklmnopqrstuvwxyz"
  const REST: string := "0123456789-_"
  const ALPHABET: string := UPPER + LOWER + REST

  function Digit(n: nat): byte
    requires n < 64
  {
    if n < 26 then 'A' as int + n
    else if n < 52 then 'a' as int + (n - 26)
    else if n < 62 then '0' as int + (n - 52)
    else if n == 62 then '-' as int
    else '_' as int
  }

  /** `Digit` reads the table. */
  lemma DigitIsAlphabet(n: nat)
    requires n < 64
    ensures |ALPHABET| == 64 && ALPHABET[n] as int == Digit(n)
  {
    var upper, lower, rest := UPPER, LOWER, REST;
    assert |upper| == 26 && |lower| == 26 && |rest| == 12;
    assert n < 26 ==> upper[n] as int == Digit(n);
    assert 26 <= n < 52 ==> lower[n - 26] as int == Digit(n);
    assert 52 <= n ==> rest[n - 52] as int == Digit(n);
  }

  /** `ALPHABET[n]`. */
  function Look(n: nat): (c: byte)
    requires n < 64
    ensures c == Digit(n)
  {
    DigitIsAlphabet(n);
    ALPHABET[n] as int
  }

  /** `base64url_value`. */
  function Value(c: byte): (v: Option<nat>)
    ensures v.Some? ==> v.value < 64
  {
    if 'A' as int <= c <= 'Z' as int then Some(c - 'A' as int)
    else if 'a' as int <= c <= 'z' as int then Some(c - 'a' as int + 26)
    else if '0' as int <= c <= '9' as int then Some(c - '0' as int + 52)
    else if c == '-' as int then Some(62)
    else if c == '_' as int then Some(63)
    else None
  }

  lemma DigitValue(n: nat)
    requires n < 64
    ensures Value(Digit(n)) == Some(n)
  {
  }

  lemma ValueDigit(c: byte)
    requires Value(c).Some?
    ensures Digit(Value(c).value) == c
  {
  }

  // ---------- The encoding ----------

  function Sextets(chunk: bytes): (v: seq<nat>)
    requires 1 <= |chunk| <= 3
    ensures |v| == |chunk| + 1 && forall i :: 0 <= i < |v| ==> v[i] < 64
  {
    if |chunk| == 1 then [chunk[0] / 4, chunk[0] % 4 * 16]
    else if |chunk| == 2 then [chunk[0] / 4, chunk[0] % 4 * 16 + chunk[1] / 16, chunk[1] % 16 * 4]
    else [chunk[0] / 4, chunk[0] % 4 * 16 + chunk[1] / 16, chunk[1] % 16 * 4 + chunk[2] / 64, chunk[2] % 64]
  }

  function Digits(v: seq<nat>): (s: bytes)
    requires forall i :: 0 <= i < |v| ==> v[i] < 64
    ensures |s| == |v|
  {
    seq(|v|, i requires 0 <= i < |v| => Digit(v[i]))
  }

  /** The six-bit values of a byte string, three bytes at a time. */
  function AllSextets(b: bytes): (v: seq<nat>)
    ensures forall i :: 0 <= i < |v| ==> v[i] < 64
  {
    if b == [] then [] else if |b| < 3 then Sextets(b) else Sextets(b[..3]) + AllSextets(b[3..])
  }

  function Encode(b: bytes): bytes {
    Digits(AllSextets(b))
  }

  // ---------- What the encoding means, in bits ----------

  /** The `width` low bits of `n`, most significant first. */
  function Bits(n: nat, width: nat): (s: seq<nat>)
    ensures |s| == width
  {
    if width == 0 then [] else Bits(n / 2, width - 1) + [n % 2]
  }

  function BitString(v: seq<nat>, width: nat): seq<nat> {
    if v == [] then [] else Bits(v[0], width) + BitString(v[1..], width)
  }

  function Power2(n: nat): (p: nat)
    ensures p > 0
  {
    if n == 0 then 1 else 2 * Power2(n - 1)
  }

  lemma {:induction false} JoinBits(a: nat, w: nat, b: nat, v: nat)
    requires b < Power2(v)
    ensures Bits(a * Power2(v) + b, w + v) == Bits(a, w) + Bits(b, v)
  {
    if v > 0 {
      var p := Power2(v - 1);
      assert a * Power2(v) == 2 * (a * p);
      assert (a * Power2(v) + b) / 2 == a * p + b / 2;
      assert (a * Power2(v) + b) % 2 == b % 2;
      JoinBits(a, w, b / 2, v - 1);
      assert Bits(a, w) + (Bits(b / 2, v - 1) + [b % 2]) == (Bits(a, w) + Bits(b / 2, v - 1)) + [b % 2];
    }
  }

  function Zeros(n: nat): seq<nat> { seq(n, _ => 0) }

  /** A value `n` of `u` bits is one of `w` bits and one of `v` bits side by side. */
  lemma {:induction false} Join(n: nat, u: nat, a: nat, w: nat, b: nat, v: nat, p: nat)
    requires p == Power2(v) && b < p && n == a * p + b && u == w + v
    ensures Bits(n, u) == Bits(a, w) + Bits(b, v)
  {
    JoinBits(a, w, b, v);
  }

  /** The widths of the pieces in which bytes and digits overlap. */
  ghost predicate Widths(two: nat, four: nat, six: nat, eight: nat) {
    && two == 2 && four == 4 && six == 6 && eight == 8
    && Power2(two) == 4 && Power2(four) == 16 && Power2(six) == 64
  }

  lemma SmallWidths(two: nat, four: nat, six: nat, eight: nat)
    requires two == 2 && four == 4 && six == 6 && eight == 8
    ensures Widths(two, four, six, eight)
  {
    assert Power2(2) == 4;
    assert Power2(4) == 4 * Power2(2);
    assert Power2(6) == 4 * Power2(4);
  }

  lemma {:induction false} NoBits(n: nat)
    ensures Bits(0, n) == Zeros(n)
  {
    if n > 0 {
      NoBits(n - 1);
    }
  }

  function PadBits(n: nat): nat { if n % 3 == 0 then 0 else if n % 3 == 1 then 4 else 2 }

  lemma SamePad(n: nat)
    ensures PadBits(n + 3) == PadBits(n)
  {
  }

  lemma {:induction false} BitsOf1(v: seq<nat>, width: nat)
    requires |v| == 1
    ensures BitString(v, width) == Bits(v[0], width)
  {
    assert BitString(v, width) == Bits(v[0], width) + BitString([], width);
  }

  lemma {:induction false} BitsOf2(v: seq<nat>, width: nat)
    requires |v| == 2
    ensures BitString(v, width) == Bits(v[0], width) + Bits(v[1], width)
  {
    BitsOf1(v[1..], width);
  }

  lemma {:induction false} BitsOf3(v: seq<nat>, width: nat)
    requires |v| == 3
    ensures BitString(v, width) == Bits(v[0], width) + (Bits(v[1], width) + Bits(v[2], width))
  {
    BitsOf2(v[1..], width);
  }

  lemma {:induction false} BitsOf4(v: seq<nat>, width: nat)
    requires |v| == 4
    ensures BitString(v, width) == Bits(v[0], width) + (Bits(v[1], width) + (Bits(v[2], width) + Bits(v[3], width)))
  {
    BitsOf3(v[1..], width);
  }

  /** Six-bit pieces and eight-bit pieces that meet at the same seams are one string. */
  lemma Regroup<T>(a: seq<T>, b: seq<T>, c: seq<T>, d: seq<T>, e: seq<T>, f: seq<T>, x: seq<T>, y: seq<T>, z: seq<T>,
                   s: seq<T>, t: seq<T>)
    requires x == a + b && y == c + d && z == e + f && s == b + c && t == d + e
    ensures a + (s + (t + f)) == x + (y + z)
  {
    assert s + (t + f) == b + (c + (d + (e + f))) by {
      assert t + f == d + (e + f);
      assert s + (d + (e + f)) == b + (c + (d + (e + f)));
    }
    assert y + z == c + (d + (e + f));
    assert x + (c + (d + (e + f))) == a + (b + (c + (d + (e + f))));
  }

  lemma RegroupTwo<T>(a: seq<T>, b: seq<T>, c: seq<T>, d: seq<T>, p: seq<T>, x: seq<T>, y: seq<T>, s: seq<T>, t: seq<T>)
    requires x == a + b && y == c + d && s == b + c && t == d + p
    ensures a + (s + t) == (x + y) + p
  {
    assert s + t == b + (c + (d + p));
    assert (x + y) + p == a + (b + (c + (d + p)));
  }

  lemma {:induction false} OneGroup(x: nat, x1: nat, x2: nat, s: nat, two: nat, four: nat, six: nat, eight: nat)
    requires Widths(two, four, six, eight) && x == x1 * 4 + x2 && x2 < 4 && s == x2 * 16
    ensures Bits(x1, six) + Bits(s, six) == Bits(x, eight) + Zeros(four)
  {
    Join(x, eight, x1, six, x2, two, 4);
    Join(s, six, x2, two, 0, four, 16);
    NoBits(four);
    Reassociate(Bits(x1, six), Bits(x2, two), Zeros(four));
  }

  lemma {:induction false} TwoGroups(x: nat, x1: nat, x2: nat, y: nat, y1: nat, y2: nat, s: nat, t: nat,
                                     two: nat, four: nat, six: nat, eight: nat)
    requires Widths(two, four, six, eight) && x == x1 * 4 + x2 && x2 < 4 && y == y1 * 16 + y2 && y1 < 16 && y2 < 16
    requires s == x2 * 16 + y1 && t == y2 * 4
    ensures Bits(x1, six) + (Bits(s, six) + Bits(t, six)) == (Bits(x, eight) + Bits(y, eight)) + Zeros(two)
  {
    Join(x, eight, x1, six, x2, two, 4);
    Join(y, eight, y1, four, y2, four, 16);
    Join(s, six, x2, two, y1, four, 16);
    Join(t, six, y2, four, 0, two, 4);
    NoBits(two);
    RegroupTwo(Bits(x1, six), Bits(x2, two), Bits(y1, four), Bits(y2, four), Zeros(two),
               Bits(x, eight), Bits(y, eight), Bits(s, six), Bits(t, six));
  }

  lemma {:induction false} ThreeGroups(x: nat, x1: nat, x2: nat, y: nat, y1: nat, y2: nat, z: nat, z1: nat, z2: nat,
                                       s: nat, t: nat, two: nat, four: nat, six: nat, eight: nat)
    requires Widths(two, four, six, eight) && x == x1 * 4 + x2 && x2 < 4 && y == y1 * 16 + y2 && y1 < 16 && y2 < 16
    requires z == z1 * 64 + z2 && z1 < 4 && z2 < 64 && s == x2 * 16 + y1 && t == y2 * 4 + z1
    ensures Bits(x1, six) + (Bits(s, six) + (Bits(t, six) + Bits(z2, six)))
            == Bits(x, eight) + (Bits(y, eight) + Bits(z, eight))
  {
    Join(x, eight, x1, six, x2, two, 4);
    Join(y, eight, y1, four, y2, four, 16);
    Join(z, eight, z1, two, z2, six, 64);
    Join(s, six, x2, two, y1, four, 16);
    Join(t, six, y2, four, z1, two, 4);
    Regroup(Bits(x1, six), Bits(x2, two), Bits(y1, four), Bits(y2, four), Bits(z1, two), Bits(z2, six),
            Bits(x, eight), Bits(y, eight), Bits(z, eight), Bits(s, six), Bits(t, six));
  }

  lemma {:induction false} OneByte(chunk: bytes, v: seq<nat>, two: nat, four: nat, six: nat, eight: nat)
    requires Widths(two, four, six, eight) && |chunk| == 1 && v == Sextets(chunk)
    ensures BitString(v, six) == BitString(chunk, eight) + Zeros(four)
  {
    BitsOf2(v, six);
    BitsOf1(chunk, eight);
    OneGroup(chunk[0], v[0], chunk[0] % 4, v[1], two, four, six, eight);
  }

  lemma {:induction false} TwoBytes(chunk: bytes, v: seq<nat>, two: nat, four: nat, six: nat, eight: nat)
    requires Widths(two, four, six, eight) && |chunk| == 2 && v == Sextets(chunk)
    ensures BitString(v, six) == BitString(chunk, eight) + Zeros(two)
  {
    BitsOf3(v, six);
    BitsOf2(chunk, eight);
    TwoGroups(chunk[0], v[0], chunk[0] % 4, chunk[1], chunk[1] / 16, chunk[1] % 16, v[1], v[2], two, four, six, eight);
  }

  lemma {:induction false} ThreeBytes(chunk: bytes, v: seq<nat>, two: nat, four: nat, six: nat, eight: nat)
    requires Widths(two, four, six, eight) && |chunk| == 3 && v == Sextets(chunk)
    ensures BitString(v, six) == BitString(chunk, eight)
  {
    BitsOf4(v, six);
    BitsOf3(chunk, eight);
    ThreeGroups(chunk[0], v[0], chunk[0] % 4, chunk[1], chunk[1] / 16, chunk[1] % 16, chunk[2], chunk[2] / 64, v[3],
                v[1], v[2], two, four, six, eight);
  }

  lemma NothingPadded(s: seq<nat>)
    ensures s + Zeros(0) == s
  {
  }

  lemma {:induction false} BitStringJoin(v: seq<nat>, w: seq<nat>, width: nat)
    ensures BitString(v + w, width) == BitString(v, width) + BitString(w, width)
  {
    if v == [] {
      assert v + w == w;
    } else {
      assert (v + w)[1..] == v[1..] + w;
      BitStringJoin(v[1..], w, width);
    }
  }

  lemma {:induction false} EncodingBits(b: bytes, two: nat, four: nat, six: nat, eight: nat)
    requires Widths(two, four, six, eight)
    ensures BitString(AllSextets(b), six) == BitString(b, eight) + Zeros(PadBits(|b|))
  {
    if |b| >= 3 {
      var chunk, rest := b[..3], b[3..];
      EncodingBits(rest, two, four, six, eight);
      ThreeBytes(chunk, Sextets(chunk), two, four, six, eight);
      SamePad(|rest|);
      ChunkAndRest(b, chunk, rest, six, eight, Zeros(PadBits(|rest|)));
    } else {
      ShortBits(b, two, four, six, eight);
    }
  }

  lemma {:induction false} ShortBits(b: bytes, two: nat, four: nat, six: nat, eight: nat)
    requires Widths(two, four, six, eight) && |b| < 3
    ensures BitString(AllSextets(b), six) == BitString(b, eight) + Zeros(PadBits(|b|))
  {
    if |b| == 2 {
      TwoBytes(b, Sextets(b), two, four, six, eight);
    } else if |b| == 1 {
      OneByte(b, Sextets(b), two, four, six, eight);
    } else {
      NothingPadded([]);
    }
  }

  lemma {:induction false} ChunkAndRest(b: bytes, chunk: bytes, rest: bytes, six: nat, eight: nat, padding: seq<nat>)
    requires |b| >= 3 && chunk == b[..3] && rest == b[3..] && BitString(Sextets(chunk), six) == BitString(chunk, eight)
    requires BitString(AllSextets(rest), six) == BitString(rest, eight) + padding
    ensures BitString(AllSextets(b), six) == BitString(b, eight) + padding
  {
    assert b == chunk + rest;
    BitStringJoin(Sextets(chunk), AllSextets(rest), six);
    BitStringJoin(chunk, rest, eight);
    Reassociate(BitString(chunk, eight), BitString(rest, eight), padding);
  }

  /** RFC 4648 section 5: the digits spell the bits of the bytes in order, closed with zero bits
      up to a whole digit. */
  lemma {:induction false} EncodingMeaning(b: bytes)
    ensures BitString(AllSextets(b), 6) == BitString(b, 8) + Zeros(PadBits(|b|))
  {
    SmallWidths(2, 4, 6, 8);
    EncodingBits(b, 2, 4, 6, 8);
  }

  // ---------- Encoding and decoding ----------

  lemma DigitsJoin(v: seq<nat>, w: seq<nat>)
    requires forall i :: 0 <= i < |v| ==> v[i] < 64
    requires forall i :: 0 <= i < |w| ==> w[i] < 64
    ensures Digits(v + w) == Digits(v) + Digits(w)
  {
  }

  lemma ThreeFewer(n: nat)
    requires n % 3 == 0 && n > 0
    ensures n >= 3 && (n - 3) % 3 == 0
  {
  }

  /** Whole groups of three bytes encode on their own. */
  lemma {:induction false} EncodeJoin(a: bytes, b: bytes)
    requires |a| % 3 == 0
    ensures Encode(a + b) == Encode(a) + Encode(b)
  {
    if a == [] {
      assert a + b == b;
    } else {
      ThreeFewer(|a|);
      assert (a + b)[..3] == a[..3] && (a + b)[3..] == a[3..] + b;
      EncodeJoin(a[3..], b);
      DigitsJoin(Sextets(a[..3]), AllSextets(a[3..] + b));
      DigitsJoin(Sextets(a[..3]), AllSextets(a[3..]));
    }
  }

  lemma EncodeChunk(chunk: bytes)
    requires 1 <= |chunk| <= 3
    ensures Encode(chunk) == Digits(Sextets(chunk))
  {
    if |chunk| == 3 {
      assert chunk[..3] == chunk && chunk[3..] == [];
      assert AllSextets(chunk) == Sextets(chunk) + AllSextets([]) == Sextets(chunk);
    }
  }

  lemma EncodeNext(b: bytes, i: nat, j: nat)
    requires i < j <= |b| && i % 3 == 0
    ensures Encode(b[..j]) == Encode(b[..i]) + Encode(b[i..j])
  {
    assert b[..j] == b[..i] + b[i..j];
    EncodeJoin(b[..i], b[i..j]);
  }

  lemma GroupDigits(chunk: bytes, second: byte, third: byte)
    requires 1 <= |chunk| <= 3
    requires second == (if |chunk| > 1 then chunk[1] else 0) && third == if |chunk| > 2 then chunk[2] else 0
    ensures Encode(chunk) == [Digit(chunk[0] / 4)] + [Digit(chunk[0] % 4 * 16 + second / 16)]
                             + (if |chunk| > 1 then [Digit(second % 16 * 4 + third / 64)] else [])
                             + (if |chunk| > 2 then [Digit(third % 64)] else [])
  {
    EncodeChunk(chunk);
    DigitsOf(Sextets(chunk));
  }

  lemma DigitsOf(v: seq<nat>)
    requires 2 <= |v| <= 4 && forall i :: 0 <= i < |v| ==> v[i] < 64
    ensures Digits(v) == [Digit(v[0])] + [Digit(v[1])] + (if |v| > 2 then [Digit(v[2])] else [])
                         + (if |v| > 3 then [Digit(v[3])] else [])
  {
  }

  method EncodeGroup(chunk: bytes) returns (digits: bytes)
    requires 1 <= |chunk| <= 3
    ensures digits == Encode(chunk)
  {
    var second: byte := if |chunk| > 1 then chunk[1] else 0;
    var third: byte := if |chunk| > 2 then chunk[2] else 0;
    GroupDigits(chunk, second, third);
    digits := [Look(chunk[0] / 4)];
    digits := digits + [Look(chunk[0] % 4 * 16 + second / 16)];
    if |chunk| > 1 {
      digits := digits + [Look(second % 16 * 4 + third / 64)];
    }
    if |chunk| > 2 {
      digits := digits + [Look(third % 64)];
    }
  }

  lemma GroupEnd(i: nat, n: nat, end: nat)
    requires i < n && i % 3 == 0 && end == if i + 3 <= n then i + 3 else n
    ensures i < end <= n && end - i <= 3 && (end % 3 == 0 || end == n)
  {
  }

  /** `encode_base64url`. */
  method EncodeBase64Url(b: bytes) returns (out: bytes)
    ensures out == Encode(b)
  {
    out := [];
    var i := 0;
    while i < |b|
      invariant i <= |b| && (i % 3 == 0 || i == |b|)
      invariant out == Encode(b[..i])
    {
      var end := if i + 3 <= |b| then i + 3 else |b|;
      GroupEnd(i, |b|, end);
      EncodeNext(b, i, end);
      var digits := EncodeGroup(b[i..end]);
      out := out + digits;
      i := end;
    }
    assert b[..|b|] == b;
  }

  /** What every encoding looks like: known digits, never one left over, no stray low bits. */
  predicate Canonical(s: bytes) {
    && (forall i :: 0 <= i < |s| ==> Value(s[i]).Some?)
    && |s| % 4 != 1
    && (|s| % 4 == 2 ==> Value(s[|s| - 1]).value % 16 == 0)
    && (|s| % 4 == 3 ==> Value(s[|s| - 1]).value % 4 == 0)
  }

  lemma ShortIsCanonical(chunk: bytes)
    requires 1 <= |chunk| <= 3
    ensures Canonical(Digits(Sextets(chunk)))
  {
    var v := Sextets(chunk);
    forall i | 0 <= i < |v|
      ensures Value(Digits(v)[i]) == Some(v[i])
    {
      DigitValue(v[i]);
    }
  }

  lemma CanonicalJoin(s: bytes, t: bytes)
    requires Canonical(s) && |s| == 4 && Canonical(t)
    ensures Canonical(s + t)
  {
    assert forall i :: 0 <= i < |s + t| ==> (s + t)[i] == if i < 4 then s[i] else t[i - 4];
  }

  lemma {:induction false} EncodingIsCanonical(b: bytes)
    ensures Canonical(Encode(b))
  {
    if |b| >= 3 {
      EncodingIsCanonical(b[3..]);
      ShortIsCanonical(b[..3]);
      DigitsJoin(Sextets(b[..3]), AllSextets(b[3..]));
      CanonicalJoin(Digits(Sextets(b[..3])), Encode(b[3..]));
    } else if b != [] {
      ShortIsCanonical(b);
    }
  }

  lemma FirstByte(x: nat, p: nat, x': nat, p': nat)
    requires p < 16 && p' < 16 && x / 4 == x' / 4 && x % 4 * 16 + p == x' % 4 * 16 + p'
    ensures x == x' && p == p'
  {
    assert x == x / 4 * 4 + x % 4 && x' == x' / 4 * 4 + x' % 4;
  }

  lemma SecondByte(y: nat, p: nat, y': nat, p': nat)
    requires p < 4 && p' < 4 && y / 16 == y' / 16 && y % 16 * 4 + p == y' % 16 * 4 + p'
    ensures y == y' && p == p'
  {
    assert y == y / 16 * 16 + y % 16 && y' == y' / 16 * 16 + y' % 16;
  }

  lemma OneInjective(a: bytes, b: bytes)
    requires |a| == |b| == 1 && Sextets(a) == Sextets(b)
    ensures a == b
  {
    var v, w := Sextets(a), Sextets(b);
    assert v[0] == w[0] && v[1] == w[1];
    FirstByte(a[0], 0, b[0], 0);
  }

  lemma TwoInjective(a: bytes, b: bytes)
    requires |a| == |b| == 2 && Sextets(a) == Sextets(b)
    ensures a == b
  {
    var v, w := Sextets(a), Sextets(b);
    assert v[0] == w[0] && v[1] == w[1] && v[2] == w[2];
    FirstByte(a[0], a[1] / 16, b[0], b[1] / 16);
    SecondByte(a[1], 0, b[1], 0);
  }

  lemma ThreeInjective(a: bytes, b: bytes)
    requires |a| == |b| == 3 && Sextets(a) == Sextets(b)
    ensures a == b
  {
    var v, w := Sextets(a), Sextets(b);
    assert v[0] == w[0] && v[1] == w[1] && v[2] == w[2] && v[3] == w[3];
    FirstByte(a[0], a[1] / 16, b[0], b[1] / 16);
    SecondByte(a[1], a[2] / 64, b[1], b[2] / 64);
    assert a[2] == a[2] / 64 * 64 + a[2] % 64 && b[2] == b[2] / 64 * 64 + b[2] % 64;
  }

  lemma SextetsInjective(a: bytes, b: bytes)
    requires 1 <= |a| == |b| <= 3 && Sextets(a) == Sextets(b)
    ensures a == b
  {
    if |a| == 1 {
      OneInjective(a, b);
    } else if |a| == 2 {
      TwoInjective(a, b);
    } else {
      ThreeInjective(a, b);
    }
  }

  lemma DigitsInjective(v: seq<nat>, w: seq<nat>)
    requires forall i :: 0 <= i < |v| ==> v[i] < 64
    requires forall i :: 0 <= i < |w| ==> w[i] < 64
    requires Digits(v) == Digits(w)
    ensures v == w
  {
    forall i | 0 <= i < |v|
      ensures v[i] == w[i]
    {
      DigitValue(v[i]);
      DigitValue(w[i]);
      assert Digits(v)[i] == Digits(w)[i];
    }
  }

  lemma {:induction false} SextetCount(b: bytes)
    ensures |AllSextets(b)| == |b| / 3 * 4 + (if |b| % 3 == 0 then 0 else |b| % 3 + 1)
  {
    if |b| >= 3 {
      SextetCount(b[3..]);
    }
  }

  lemma SameLength(a: nat, b: nat)
    requires a / 3 * 4 + (if a % 3 == 0 then 0 else a % 3 + 1) == b / 3 * 4 + (if b % 3 == 0 then 0 else b % 3 + 1)
    ensures a == b
  {
    assert a == a / 3 * 3 + a % 3 && b == b / 3 * 3 + b % 3;
  }

  lemma {:induction false} AllSextetsInjective(a: bytes, b: bytes)
    requires AllSextets(a) == AllSextets(b)
    ensures a == b
  {
    SextetCount(a);
    SextetCount(b);
    SameLength(|a|, |b|);
    if |a| >= 3 {
      SplitEqual(Sextets(a[..3]), AllSextets(a[3..]), Sextets(b[..3]), AllSextets(b[3..]));
      SextetsInjective(a[..3], b[..3]);
      AllSextetsInjective(a[3..], b[3..]);
      assert a == a[..3] + a[3..] && b == b[..3] + b[3..];
    } else if a != [] {
      SextetsInjective(a, b);
    }
  }

  /** No two byte strings share an encoding. */
  lemma EncodeInjective(a: bytes, b: bytes)
    requires Encode(a) == Encode(b)
    ensures a == b
  {
    DigitsInjective(AllSextets(a), AllSextets(b));
    AllSextetsInjective(a, b);
  }

  /** The bytes of two, three or four six-bit values, as the decoder's loop body computes them. */
  function Unpack(v: seq<nat>): (chunk: bytes)
    requires 2 <= |v| <= 4 && forall i :: 0 <= i < |v| ==> v[i] < 64
    ensures |chunk| == |v| - 1
  {
    [v[0] * 4 + v[1] / 16] + (if |v| > 2 then [v[1] % 16 * 16 + v[2] / 4] else [])
    + if |v| > 3 then [v[2] % 4 * 64 + v[3]] else []
  }

  lemma UnpackSextets(v: seq<nat>)
    requires 2 <= |v| <= 4 && forall i :: 0 <= i < |v| ==> v[i] < 64
    requires |v| == 2 ==> v[1] % 16 == 0
    requires |v| == 3 ==> v[2] % 4 == 0
    ensures Sextets(Unpack(v)) == v
  {
    var chunk, w := Unpack(v), Sextets(Unpack(v));
    assert chunk[0] == v[0] * 4 + v[1] / 16;
    assert w[0] == v[0];
    if |v| == 2 {
      assert w[1] == v[1];
    } else {
      assert chunk[1] == v[1] % 16 * 16 + v[2] / 4;
      assert w[1] == v[1];
      if |v| == 3 {
        assert w[2] == v[2];
      } else {
        assert chunk[2] == v[2] % 4 * 64 + v[3];
        assert w[2] == v[2] && w[3] == v[3];
      }
    }
  }

  function Known(s: bytes): Option<seq<nat>> {
    if forall i :: 0 <= i < |s| ==> Value(s[i]).Some?
    then Some(seq(|s|, i requires 0 <= i < |s| && Value(s[i]).Some? => Value(s[i]).value))
    else None
  }

  lemma DigitsOfKnown(s: bytes)
    requires Known(s).Some?
    ensures var v := Known(s).value; |v| == |s| && (forall i :: 0 <= i < |v| ==> v[i] < 64) && Digits(v) == s
  {
    var v := Known(s).value;
    forall i | 0 <= i < |s|
      ensures Digits(v)[i] == s[i]
    {
      ValueDigit(s[i]);
    }
  }

  lemma DecodeNext(v: seq<nat>, i: nat, j: nat, out: bytes, chunk: bytes)
    requires forall k :: 0 <= k < |v| ==> v[k] < 64
    requires i < j <= |v| && i % 4 == 0 && |out| % 3 == 0
    requires 1 <= |chunk| <= 3 && Encode(out) == Digits(v[..i]) && Sextets(chunk) == v[i..j]
    ensures Encode(out + chunk) == Digits(v[..j])
  {
    EncodeJoin(out, chunk);
    EncodeChunk(chunk);
    assert v[..j] == v[..i] + v[i..j];
    DigitsJoin(v[..i], v[i..j]);
  }

  /** `decode_base64url`: exactly the encodings decode, each to the bytes it encodes. */
  method DecodeBase64Url(segment: bytes) returns (r: Option<bytes>)
    ensures forall b: bytes :: r == Some(b) <==> Encode(b) == segment
  {
    forall b: bytes | Encode(b) == segment
      ensures Canonical(segment)
    {
      EncodingIsCanonical(b);
    }
    var known := Known(segment);
    if known.None? {
      return None;
    }
    DigitsOfKnown(segment);
    var values := known.value;
    if |values| % 4 == 1 {
      return None;
    }
    if (|values| % 4 == 2 && values[|values| - 1] % 16 != 0) || (|values| % 4 == 3 && values[|values| - 1] % 4 != 0) {
      return None;
    }
    var output := Unpacked(values);
    forall b: bytes | Encode(b) == segment
      ensures b == output
    {
      EncodeInjective(b, output);
    }
    return Some(output);
  }

  lemma LastChunk(n: nat, i: nat)
    requires i < n && i % 4 == 0 && n % 4 != 1
    ensures n - i >= 2 && (n - i < 4 ==> n % 4 == n - i) && (i + 4) % 4 == 0
  {
  }

  lemma ThreeMore(n: nat)
    requires n % 3 == 0
    ensures (n + 3) % 3 == 0
  {
  }

  method Unpacked(values: seq<nat>) returns (output: bytes)
    requires (forall k :: 0 <= k < |values| ==> values[k] < 64) && |values| % 4 != 1
    requires |values| % 4 == 2 ==> values[|values| - 1] % 16 == 0
    requires |values| % 4 == 3 ==> values[|values| - 1] % 4 == 0
    ensures Encode(output) == Digits(values)
  {
    output := [];
    var i := 0;
    while i < |values|
      invariant i <= |values| && (i % 4 == 0 || i == |values|) && (i % 4 == 0 ==> |output| % 3 == 0)
      invariant Encode(output) == Digits(values[..i])
    {
      LastChunk(|values|, i);
      ThreeMore(|output|);
      var end := if i + 4 <= |values| then i + 4 else |values|;
      var chunk := Unpack(values[i..end]);
      UnpackSextets(values[i..end]);
      DecodeNext(values, i, end, output, chunk);
      output := output + chunk;
      i := end;
    }
    assert values[..|values|] == values;
  }

  // ---------- Provider schema ids ----------

  /** `String::from_utf8`. */
  ghost predicate DecodesUtf8(fromUtf8: bytes -> Option<string>) {
    forall b: bytes, s: string :: fromUtf8(b) == Some(s) <==> Utf8(s) == b
  }

  /** Different texts have different segments. */
  lemma {:induction false} SegmentsDiffer(s: string, t: string)
    requires Encode(Utf8(s)) == Encode(Utf8(t))
    ensures s == t
  {
    EncodeInjective(Utf8(s), Utf8(t));
    Utf8Injective(s, t);
  }

  /** `provider_schema_id`: accepted exactly as the encoding of a text; the comparison with the
      re-encoded text never rejects what decoding accepted. */
  method ProviderSchemaId(segment: string, fromUtf8: bytes -> Option<string>) returns (r: Option<string>)
    requires DecodesUtf8(fromUtf8)
    ensures forall s: string :: r == Some(s) <==> Encode(Utf8(s)) == Utf8(segment)
  {
    var decoded := DecodeBase64Url(Utf8(segment));
    if decoded.None? {
      return None;
    }
    var text := fromUtf8(decoded.value);
    if text.None? {
      return None;
    }
    var again := EncodeBase64Url(Utf8(text.value));
    if again != Utf8(segment) {
      assert false;
    }
    return text;
  }
}
