/** Lower-case hexadecimal, as `digest_to_hex` and `encode_incarnation_hex` write it. */
module Hex {
  import opened Wrappers
  import opened Bytes

  const DIGITS: string := "0123456789abcdef"

  function Digit(n: nat): (c: char)
    requires n < 16
  {
    DIGITS[n]
  }

  /** `hex_nibble`. */
  function Nibble(c: char): (n: Option<nat>)
    ensures n.Some? ==> n.value < 16
  {
    if '0' <= c <= '9' then Some(c as int - '0' as int)
    else if 'a' <= c <= 'f' then Some(c as int - 'a' as int + 10)
    else None
  }

  lemma DigitNibble(n: nat)
    requires n < 16
    ensures Nibble(Digit(n)) == Some(n)
  {
  }

  lemma NibbleDigit(c: char)
    requires Nibble(c).Some?
    ensures Digit(Nibble(c).value) == c
  {
  }

  function Encode(b: bytes): (s: string)
    ensures |s| == 2 * |b|
  {
    if b == [] then "" else Encode(b[..|b| - 1]) + [Digit(b[|b| - 1] / 16), Digit(b[|b| - 1] % 16)]
  }

  function Decode(s: string): (b: Option<bytes>) {
    if s == "" then Some([])
    else if |s| == 1 then None
    else
      var head, high, low := Decode(s[..|s| - 2]), Nibble(s[|s| - 2]), Nibble(s[|s| - 1]);
      if head.None? || high.None? || low.None? then None
      else Some(head.value + [high.value * 16 + low.value])
  }

  lemma {:induction false} EncodeSnoc(head: bytes, last: byte)
    ensures Encode(head + [last]) == Encode(head) + [Digit(last / 16), Digit(last % 16)]
  {
    assert (head + [last])[..|head|] == head;
  }

  lemma {:induction false} DecodeSnoc(head: string, high: char, low: char)
    ensures Decode(head + [high, low]) ==
      if Decode(head).None? || Nibble(high).None? || Nibble(low).None? then None
      else Some(Decode(head).value + [Nibble(high).value * 16 + Nibble(low).value])
  {
    assert (head + [high, low])[..|head|] == head;
  }

  lemma {:induction false} DecodeEncode(b: bytes)
    ensures Decode(Encode(b)) == Some(b)
  {
    if b != [] {
      var init, last := b[..|b| - 1], b[|b| - 1];
      DecodeEncode(init);
      DigitNibble(last / 16);
      DigitNibble(last % 16);
      DecodeSnoc(Encode(init), Digit(last / 16), Digit(last % 16));
      assert b == init + [last];
    }
  }

  lemma DecodedParts(head: string, high: char, low: char) returns (b: bytes, x: byte)
    requires Decode(head + [high, low]).Some?
    ensures Decode(head) == Some(b) && Decode(head + [high, low]) == Some(b + [x])
    ensures high == Digit(x / 16) && low == Digit(x % 16)
  {
    DecodeSnoc(head, high, low);
    var h, l := Nibble(high).value, Nibble(low).value;
    b, x := Decode(head).value, h * 16 + l;
    PairBack(high, low, h, l);
  }

  lemma PairBack(high: char, low: char, h: nat, l: nat)
    requires Nibble(high) == Some(h) && Nibble(low) == Some(l)
    ensures high == Digit((h * 16 + l) / 16) && low == Digit((h * 16 + l) % 16)
  {
    assert (h * 16 + l) / 16 == h && (h * 16 + l) % 16 == l;
    NibbleDigit(high);
    NibbleDigit(low);
  }

  lemma LastTwo(s: string)
    requires |s| >= 2
    ensures s == s[..|s| - 2] + [s[|s| - 2], s[|s| - 1]]
  {
  }

  /** Only what `Encode` writes is decoded. */
  lemma {:induction false} EncodeDecode(s: string)
    requires Decode(s).Some?
    ensures Encode(Decode(s).value) == s
  {
    if |s| >= 2 {
      var head, high, low := s[..|s| - 2], s[|s| - 2], s[|s| - 1];
      LastTwo(s);
      var b, x := DecodedParts(head, high, low);
      EncodeDecode(head);
      EncodeSnoc(b, x);
    }
  }

  lemma {:induction false} EncodeIsHex(b: bytes)
    ensures forall i :: 0 <= i < |Encode(b)| ==> Nibble(Encode(b)[i]).Some?
  {
    if b != [] {
      EncodeIsHex(b[..|b| - 1]);
      DigitNibble(b[|b| - 1] / 16);
      DigitNibble(b[|b| - 1] % 16);
    }
  }
}
