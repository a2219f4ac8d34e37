/** The hand-written SHA-256 and HMAC of crates/msgriver-core/src/canon.rs.

    The specification follows FIPS 180-4 (sections 3.2, 4.1.2, 5.1.1, 5.2.1, 6.2.2) by recursion
    and RFC 2104 section 2; the methods below are the crate's loops over buffers. */
module Sha256 {
  import opened Bytes

  /** A 32-bit word; `Add` is addition modulo 2^32 (`wrapping_add`). */
  datatype Word = Word(bits: bv32)

  function Add(x: Word, y: Word): Word { Word(x.bits + y.bits) }

  // ---------- FIPS 180-4 ----------

  // Section 4.1.2, with ROTR^n(b) written (b >> n) | (b << 32 - n) as in section 3.2.
  function BigSigma0Bits(b: bv32): bv32 { ((b >> 2) | (b << 30)) ^ ((b >> 13) | (b << 19)) ^ ((b >> 22) | (b << 10)) }
  function BigSigma1Bits(b: bv32): bv32 { ((b >> 6) | (b << 26)) ^ ((b >> 11) | (b << 21)) ^ ((b >> 25) | (b << 7)) }
  function SmallSigma0Bits(b: bv32): bv32 { ((b >> 7) | (b << 25)) ^ ((b >> 18) | (b << 14)) ^ (b >> 3) }
  function SmallSigma1Bits(b: bv32): bv32 { ((b >> 17) | (b << 15)) ^ ((b >> 19) | (b << 13)) ^ (b >> 10) }

  function BigSigma0(x: Word): Word { Word(BigSigma0Bits(x.bits)) }
  function BigSigma1(x: Word): Word { Word(BigSigma1Bits(x.bits)) }
  function SmallSigma0(x: Word): Word { Word(SmallSigma0Bits(x.bits)) }
  function SmallSigma1(x: Word): Word { Word(SmallSigma1Bits(x.bits)) }
  function Ch(x: Word, y: Word, z: Word): Word { Word((x.bits & y.bits) ^ (!x.bits & z.bits)) }
  function Maj(x: Word, y: Word, z: Word): Word { Word((x.bits & y.bits) ^ (x.bits & z.bits) ^ (y.bits & z.bits)) }

  /** Wherever x has ones `Ch` has the bits of y, and wherever x has zeros those of z. */
  lemma ChoiceOfBits(x: Word, y: Word, z: Word, mask: bv32)
    ensures x.bits & mask == mask ==> Ch(x, y, z).bits & mask == y.bits & mask
    ensures x.bits & mask == 0 ==> Ch(x, y, z).bits & mask == z.bits & mask
  {
  }

  /** Wherever two words agree, `Maj` agrees with them, whatever the third and its place. */
  lemma MajorityOfBits(x: Word, y: Word, z: Word, mask: bv32)
    requires x.bits & mask == y.bits & mask
    ensures Maj(x, y, z).bits & mask == x.bits & mask
    ensures Maj(x, z, y) == Maj(z, x, y) == Maj(x, y, z)
  {
  }

  const ROUND_CONSTANTS: seq<bv32> :=
    [0x428a2f98, 0x71374491, 0xb5c0fbcf, 0xe9b5dba5, 0x3956c25b, 0x59f111f1, 0x923f82a4, 0xab1c5ed5]
    + [0xd807aa98, 0x12835b01, 0x243185be, 0x550c7dc3, 0x72be5d74, 0x80deb1fe, 0x9bdc06a7, 0xc19bf174]
    + [0xe49b69c1, 0xefbe4786, 0x0fc19dc6, 0x240ca1cc, 0x2de92c6f, 0x4a7484aa, 0x5cb0a9dc, 0x76f988da]
    + [0x983e5152, 0xa831c66d, 0xb00327c8, 0xbf597fc7, 0xc6e00bf3, 0xd5a79147, 0x06ca6351, 0x14292967]
    + [0x27b70a85, 0x2e1b2138, 0x4d2c6dfc, 0x53380d13, 0x650a7354, 0x766a0abb, 0x81c2c92e, 0x92722c85]
    + [0xa2bfe8a1, 0xa81a664b, 0xc24b8b70, 0xc76c51a3, 0xd192e819, 0xd6990624, 0xf40e3585, 0x106aa070]
    + [0x19a4c116, 0x1e376c08, 0x2748774c, 0x34b0bcb5, 0x391c0cb3, 0x4ed8aa4a, 0x5b9cca4f, 0x682e6ff3]
    + [0x748f82ee, 0x78a5636f, 0x84c87814, 0x8cc70208, 0x90befffa, 0xa4506ceb, 0xbef9a3f7, 0xc67178f2]

  lemma RoundConstantCount()
    ensures |ROUND_CONSTANTS| == 64
  {
  }

  function K(t: nat): Word
    requires t < 64
  {
    RoundConstantCount();
    Word(ROUND_CONSTANTS[t])
  }

  datatype Hash = Hash(a: Word, b: Word, c: Word, d: Word, e: Word, f: Word, g: Word, h: Word)

  // Section 5.3.3.
  const INITIAL := Hash(Word(0x6a09e667), Word(0xbb67ae85), Word(0x3c6ef372), Word(0xa54ff53a),
                        Word(0x510e527f), Word(0x9b05688c), Word(0x1f83d9ab), Word(0x5be0cd19))

  /** Section 5.1.1 in bytes: a one bit, the fewest zeros, the length in bits as 64 bits. */
  function Zeros(n: nat): (z: bytes)
    ensures |z| == n && forall i :: 0 <= i < n ==> z[i] == 0
  {
    seq(n, _ => 0)
  }

  /** The least count that brings the length before the last 8 bytes to 56 modulo 64. */
  function ZeroCount(length: nat): (z: nat)
    ensures z < 64 && (length + 1 + z) % 64 == 56
  {
    if length % 64 < 56 then 55 - length % 64 else 119 - length % 64
  }

  function Pad(m: bytes): bytes {
    m + [0x80] + Zeros(ZeroCount(|m|)) + BigEndian(|m| * 8 % TWO_64, 8)
  }

  function Word4(b: bytes): Word
    requires |b| == 4
  {
    var b0: int, b1: int, b2: int, b3: int := b[0], b[1], b[2], b[3];
    Word((((b0 * 256 + b1) * 256 + b2) * 256 + b3) as bv32)
  }

  lemma {:induction false} FourBytes(b: bytes)
    requires |b| == 4
    ensures FromBigEndian(b) < TWO_32 && Word4(b) == Word(FromBigEndian(b) as bv32)
  {
    var b0: int := b[0];
    var b3, b2, b1 := b[..3], b[..2], b[..1];
    assert b3[..2] == b2 && b2[..1] == b1 && b1[..0] == [];
    assert FromBigEndian(b3) == FromBigEndian(b2) * 256 + b[2];
    assert FromBigEndian(b2) == FromBigEndian(b1) * 256 + b[1];
  }

  lemma BitsBack(b: bv32)
    ensures (b as nat) as bv32 == b
  {
  }

  /** Words and their four bytes, most significant first, determine each other. */
  lemma {:induction false} WordOfBytes(w: Word)
    ensures Word4(WordBytes(w)) == w
  {
    var n: nat, b := w.bits as nat, WordBytes(w);
    PowersOf256();
    BigEndianValue(n, 4);
    FourBytes(b);
    BitsBack(w.bits);
  }

  type chunk = b: bytes | |b| == 64 witness Zeros(64)

  /** The message schedule W_t of section 6.2.2, step 1 (the terms of the sum from last to first). */
  function Schedule(block: chunk, t: nat): Word
    requires t < 64
  {
    if t < 16 then Word4(block[4 * t..4 * t + 4])
    else Add(Add(Add(Schedule(block, t - 16), SmallSigma0(Schedule(block, t - 15))),
                 Schedule(block, t - 7)), SmallSigma1(Schedule(block, t - 2)))
  }

  /** Section 6.2.2, step 3. */
  function Round(s: Hash, k: Word, w: Word): Hash {
    var t1 := Add(Add(Add(Add(s.h, BigSigma1(s.e)), Ch(s.e, s.f, s.g)), k), w);
    var t2 := Add(BigSigma0(s.a), Maj(s.a, s.b, s.c));
    Hash(Add(t1, t2), s.a, s.b, s.c, Add(s.d, t1), s.e, s.f, s.g)
  }

  function Rounds(s: Hash, block: chunk, n: nat): Hash
    requires n <= 64
  {
    if n == 0 then s else Round(Rounds(s, block, n - 1), K(n - 1), Schedule(block, n - 1))
  }

  /** Section 6.2.2, step 4. */
  function Plus(x: Hash, y: Hash): Hash {
    Hash(Add(x.a, y.a), Add(x.b, y.b), Add(x.c, y.c), Add(x.d, y.d), Add(x.e, y.e), Add(x.f, y.f), Add(x.g, y.g),
         Add(x.h, y.h))
  }

  function Compressed(s: Hash, block: chunk): Hash {
    Plus(s, Rounds(s, block, 64))
  }

  function Block(m: bytes, i: nat): chunk
    requires 64 * i + 64 <= |m|
  {
    m[64 * i..64 * i + 64]
  }

  function Chain(m: bytes, n: nat): Hash
    requires 64 * n <= |m|
  {
    if n == 0 then INITIAL else Compressed(Chain(m, n - 1), Block(m, n - 1))
  }

  function WordBytes(w: Word): bytes {
    BigEndian(w.bits as nat, 4)
  }

  function HashBytes(s: Hash): (d: bytes)
    ensures |d| == 32
  {
    WordBytes(s.a) + WordBytes(s.b) + WordBytes(s.c) + WordBytes(s.d)
    + WordBytes(s.e) + WordBytes(s.f) + WordBytes(s.g) + WordBytes(s.h)
  }

  function HashWords(h: Hash): seq<Word> { [h.a, h.b, h.c, h.d, h.e, h.f, h.g, h.h] }

  lemma EightFours(d: bytes, s: bytes, t: bytes, u: bytes, v: bytes, w: bytes, x: bytes, y: bytes, z: bytes)
    requires |s| == |t| == |u| == |v| == |w| == |x| == |y| == |z| == 4 && d == s + t + u + v + w + x + y + z
    ensures d[..4] == s && d[4..8] == t && d[8..12] == u && d[12..16] == v
    ensures d[16..20] == w && d[20..24] == x && d[24..28] == y && d[28..] == z
  {
  }

  /** The words of a hash are written in order. */
  lemma HashBytesAt(h: Hash, d: bytes)
    requires d == HashBytes(h)
    ensures Word4(d[..4]) == h.a && Word4(d[4..8]) == h.b && Word4(d[8..12]) == h.c && Word4(d[12..16]) == h.d
    ensures Word4(d[16..20]) == h.e && Word4(d[20..24]) == h.f && Word4(d[24..28]) == h.g && Word4(d[28..]) == h.h
  {
    EightFours(d, WordBytes(h.a), WordBytes(h.b), WordBytes(h.c), WordBytes(h.d),
               WordBytes(h.e), WordBytes(h.f), WordBytes(h.g), WordBytes(h.h));
    WordOfBytes(h.a);
    WordOfBytes(h.b);
    WordOfBytes(h.c);
    WordOfBytes(h.d);
    WordOfBytes(h.e);
    WordOfBytes(h.f);
    WordOfBytes(h.g);
    WordOfBytes(h.h);
  }

  function Digest(m: bytes): (d: bytes)
    ensures |d| == 32
  {
    PaddedLength(m);
    HashBytes(Chain(Pad(m), |Pad(m)| / 64))
  }

  /** Padding gives whole 64-byte blocks with fewer than 64 zero bytes. */
  lemma PaddedLength(m: bytes)
    ensures |Pad(m)| % 64 == 0 && |m| + 9 <= |Pad(m)| <= |m| + 72
  {
    WholeBlocks(|m| + 1 + ZeroCount(|m|));
  }

  lemma WholeBlocks(n: nat)
    requires n % 64 == 56
    ensures (n + 8) % 64 == 0
  {
  }

  /** Fewer than 64 further bytes do not reach the same residue again. */
  lemma SameResidue(n: nat, more: nat)
    requires n % 64 == 56 && (n + more) % 64 == 56 && more < 64
    ensures more == 0
  {
  }

  lemma BitLength(n: nat)
    ensures n % TWO_64 * 8 % TWO_64 == n * 8 % TWO_64
  {
    assert n * 8 == n / TWO_64 * 8 * TWO_64 + n % TWO_64 * 8;
  }

  lemma {:induction false} PadSplit(m: bytes)
    requires |m| < 0x2000_0000_0000_0000
    ensures var x := m + [0x80] + Zeros(ZeroCount(|m|));
      Pad(m) == x + BigEndian(|m| * 8, 8) && x[..|m|] == m && |x| == |Pad(m)| - 8
  {
    assert |m| * 8 % TWO_64 == |m| * 8;
  }

  /** Below 2^61 bytes the padded message determines the message. */
  lemma PadInjective(m: bytes, n: bytes)
    requires |m| < 0x2000_0000_0000_0000 && |n| < 0x2000_0000_0000_0000 && Pad(m) == Pad(n)
    ensures m == n
  {
    PadSplit(m);
    PadSplit(n);
    var x, y := m + [0x80] + Zeros(ZeroCount(|m|)), n + [0x80] + Zeros(ZeroCount(|n|));
    SplitEqual(x, BigEndian(|m| * 8, 8), y, BigEndian(|n| * 8, 8));
    PowersOf256();
    BigEndianInjective(|m| * 8, |n| * 8, 8);
  }

  // ---------- The crate's loops ----------

  lemma BigSigma0Rotates(b: bv32)
    ensures b.RotateRight(2) ^ b.RotateRight(13) ^ b.RotateRight(22) == BigSigma0Bits(b)
  {
  }

  method RotatedBigSigma0(x: Word) returns (s: Word)
    ensures s == BigSigma0(x)
  {
    BigSigma0Rotates(x.bits);
    s := Word(x.bits.RotateRight(2) ^ x.bits.RotateRight(13) ^ x.bits.RotateRight(22));
  }

  lemma BigSigma1Rotates(b: bv32)
    ensures b.RotateRight(6) ^ b.RotateRight(11) ^ b.RotateRight(25) == BigSigma1Bits(b)
  {
  }

  method RotatedBigSigma1(x: Word) returns (s: Word)
    ensures s == BigSigma1(x)
  {
    BigSigma1Rotates(x.bits);
    s := Word(x.bits.RotateRight(6) ^ x.bits.RotateRight(11) ^ x.bits.RotateRight(25));
  }

  lemma SmallSigma0Rotates(b: bv32)
    ensures b.RotateRight(7) ^ b.RotateRight(18) ^ (b >> 3) == SmallSigma0Bits(b)
  {
  }

  method RotatedSmallSigma0(x: Word) returns (s: Word)
    ensures s == SmallSigma0(x)
  {
    SmallSigma0Rotates(x.bits);
    s := Word(x.bits.RotateRight(7) ^ x.bits.RotateRight(18) ^ (x.bits >> 3));
  }

  lemma SmallSigma1Rotates(b: bv32)
    ensures b.RotateRight(17) ^ b.RotateRight(19) ^ (b >> 10) == SmallSigma1Bits(b)
  {
  }

  method RotatedSmallSigma1(x: Word) returns (s: Word)
    ensures s == SmallSigma1(x)
  {
    SmallSigma1Rotates(x.bits);
    s := Word(x.bits.RotateRight(17) ^ x.bits.RotateRight(19) ^ (x.bits >> 10));
  }

  method PadMessage(data: bytes) returns (message: bytes)
    ensures message == Pad(data)
  {
    var bitLen := |data| % TWO_64 * 8 % TWO_64;
    BitLength(|data|);
    ghost var needed := ZeroCount(|data|);
    message := data + [0x80];
    ghost var zeros := 0;
    while |message| % 64 != 56
      invariant zeros <= needed && message == data + [0x80] + Zeros(zeros)
      decreases needed - zeros
    {
      message, zeros := message + [0], zeros + 1;
    }
    SameResidue(|message|, needed - zeros);
    message := message + BigEndian(bitLen, 8);
  }

  method ExpandWords(block: chunk) returns (words: array<Word>)
    ensures fresh(words) && words.Length == 64
    ensures forall t :: 0 <= t < 64 ==> words[t] == Schedule(block, t)
  {
    words := new Word[64](_ => Word(0));
    for index := 0 to 16
      invariant forall t :: 0 <= t < index ==> words[t] == Schedule(block, t)
    {
      words[index] := Word4(block[4 * index..4 * index + 4]);
    }
    ExtendWords(block, words);
  }

  lemma ScheduleStep(block: chunk, t: nat, w16: Word, w15: Word, w7: Word, w2: Word)
    requires 16 <= t < 64 && w16 == Schedule(block, t - 16) && w15 == Schedule(block, t - 15)
    requires w7 == Schedule(block, t - 7) && w2 == Schedule(block, t - 2)
    ensures Schedule(block, t) == Add(Add(Add(w16, SmallSigma0(w15)), w7), SmallSigma1(w2))
  {
  }

  method ExtendWords(block: chunk, words: array<Word>)
    requires words.Length == 64 && forall t :: 0 <= t < 16 ==> words[t] == Schedule(block, t)
    modifies words
    ensures forall t :: 0 <= t < 64 ==> words[t] == Schedule(block, t)
  {
    for index := 16 to 64
      invariant forall t :: 0 <= t < index ==> words[t] == Schedule(block, t)
    {
      words[index] := NextWord(block, index, words[index - 16], words[index - 15], words[index - 7], words[index - 2]);
    }
  }

  method NextWord(block: chunk, t: nat, w16: Word, w15: Word, w7: Word, w2: Word) returns (word: Word)
    requires 16 <= t < 64 && w16 == Schedule(block, t - 16) && w15 == Schedule(block, t - 15)
    requires w7 == Schedule(block, t - 7) && w2 == Schedule(block, t - 2)
    ensures word == Schedule(block, t)
  {
    ScheduleStep(block, t, w16, w15, w7, w2);
    var s0 := RotatedSmallSigma0(w15);
    var s1 := RotatedSmallSigma1(w2);
    word := Add(Add(Add(w16, s0), w7), s1);
  }

  method CompressChunk(state: Hash, block: chunk) returns (next: Hash)
    ensures next == Compressed(state, block)
  {
    var words := ExpandWords(block);
    var a, b, c, d, e, f, g, h := state.a, state.b, state.c, state.d, state.e, state.f, state.g, state.h;
    for index := 0 to 64
      invariant forall t :: 0 <= t < 64 ==> words[t] == Schedule(block, t)
      invariant Hash(a, b, c, d, e, f, g, h) == Rounds(state, block, index)
    {
      var s1 := RotatedBigSigma1(e);
      var choice := Ch(e, f, g);
      var temp1 := Add(Add(Add(Add(h, s1), choice), K(index)), words[index]);
      var s0 := RotatedBigSigma0(a);
      var majority := Maj(a, b, c);
      var temp2 := Add(s0, majority);
      h := g;
      g := f;
      f := e;
      e := Add(d, temp1);
      d := c;
      c := b;
      b := a;
      a := Add(temp1, temp2);
    }
    next := Hash(Add(state.a, a), Add(state.b, b), Add(state.c, c), Add(state.d, d),
                 Add(state.e, e), Add(state.f, f), Add(state.g, g), Add(state.h, h));
  }

  /** The crate's `sha256` computes the FIPS digest of every message. */
  method Sha256(data: bytes) returns (digest: bytes)
    ensures digest == Digest(data)
  {
    var message := PadMessage(data);
    PaddedLength(data);
    var state := INITIAL;
    for i := 0 to |message| / 64
      invariant state == Chain(message, i)
    {
      state := CompressChunk(state, Block(message, i));
    }
    digest := HashBytes(state);
  }

  // ---------- HMAC, RFC 2104 section 2 ----------

  function Xor(x: byte, y: byte): byte {
    ((x as bv8) ^ (y as bv8)) as int
  }

  /** The key of block length: hashed if longer than a block, then zero-extended. */
  function BlockKey(key: bytes): (k: bytes)
    ensures |k| == 64
  {
    var short := if |key| > 64 then Digest(key) else key;
    short + Zeros(64 - |short|)
  }

  function XorEach(k: bytes, pad: byte): (r: bytes)
    ensures |r| == |k|
  {
    seq(|k|, i requires 0 <= i < |k| => Xor(k[i], pad))
  }

  function Hmac(key: bytes, text: bytes): bytes {
    var k := BlockKey(key);
    Digest(XorEach(k, 0x5c) + Digest(XorEach(k, 0x36) + text))
  }

  function Flatten(parts: seq<bytes>): bytes {
    if parts == [] then [] else Flatten(parts[..|parts| - 1]) + parts[|parts| - 1]
  }

  lemma XorFacts(x: byte, pad: byte)
    ensures Xor(0, pad) == pad && Xor(pad, x) == Xor(x, pad)
  {
  }

  /** `hmac_sha256`: pads xored in place over the key's bytes only, parts fed one by one. */
  method HmacSha256(key: bytes, parts: seq<bytes>) returns (tag: bytes)
    ensures tag == Hmac(key, Flatten(parts))
  {
    var normalizedKey := key;
    if |key| > 64 {
      normalizedKey := Sha256(key);
    }
    var innerPad := PadKey(normalizedKey, 0x36);
    var outerPad := PadKey(normalizedKey, 0x5c);
    assert normalizedKey + Zeros(64 - |normalizedKey|) == BlockKey(key);
    var inner := Extend(innerPad, parts);
    var innerDigest := Sha256(inner);
    tag := Sha256(outerPad + innerDigest);
  }

  method Extend(start: bytes, parts: seq<bytes>) returns (all: bytes)
    ensures all == start + Flatten(parts)
  {
    all := start;
    for i := 0 to |parts|
      invariant all == start + Flatten(parts[..i])
    {
      all := all + parts[i];
      assert parts[..i + 1][..i] == parts[..i];
    }
    assert parts[..|parts|] == parts;
  }

  method PadKey(key: bytes, pad: byte) returns (padded: bytes)
    requires |key| <= 64
    ensures padded == XorEach(key + Zeros(64 - |key|), pad)
  {
    var a := new byte[64](_ => pad);
    for index := 0 to |key|
      invariant forall i :: 0 <= i < 64 ==> a[i] == if i < index then Xor(pad, key[i]) else pad
    {
      a[index] := Xor(a[index], key[index]);
    }
    padded := a[..];
    forall i | 0 <= i < 64
      ensures padded[i] == XorEach(key + Zeros(64 - |key|), pad)[i]
    {
      XorFacts(if i < |key| then key[i] else 0, pad);
    }
  }
}
