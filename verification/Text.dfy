/** Text as Unicode scalar values, its UTF-8 bytes, and the order of message ids. */
module Text {
  import opened Bytes

  /** UTF-8 (RFC 3629, section 3). */
  function Utf8Char(c: char): (b: bytes)
    ensures 1 <= |b| <= 4
  {
    var n := c as int;
    if n < 0x80 then [n]
    else if n < 0x800 then [0xC0 + n / 0x40, 0x80 + n % 0x40]
    else if n < 0x1_0000 then [0xE0 + n / 0x1000, 0x80 + n / 0x40 % 0x40, 0x80 + n % 0x40]
    else [0xF0 + n / 0x4_0000, 0x80 + n / 0x1000 % 0x40, 0x80 + n / 0x40 % 0x40, 0x80 + n % 0x40]
  }

  function Utf8(s: string): bytes {
    if s == "" then [] else Utf8Char(s[0]) + Utf8(s[1..])
  }

  /** What Rust calls `len()`. */
  function ByteLen(s: string): nat {
    |Utf8(s)|
  }

  lemma {:induction false} Utf8Join(s: string, t: string)
    ensures Utf8(s + t) == Utf8(s) + Utf8(t)
  {
    if s == "" {
      assert s + t == t;
    } else {
      assert (s + t)[1..] == s[1..] + t;
      Utf8Join(s[1..], t);
      Reassociate(Utf8Char(s[0]), Utf8(s[1..]), Utf8(t));
    }
  }

  predicate Ascii(s: string) {
    forall i :: 0 <= i < |s| ==> s[i] as int < 0x80
  }

  lemma {:induction false} AsciiBytes(s: string)
    requires Ascii(s)
    ensures |Utf8(s)| == |s| && forall i :: 0 <= i < |s| ==> Utf8(s)[i] == s[i] as int
  {
    if s != "" {
      AsciiBytes(s[1..]);
      assert forall i :: 1 <= i < |s| ==> s[i] == s[1..][i - 1];
    }
  }

  /** A character takes at least one byte. */
  lemma {:induction false} CharsFit(s: string)
    ensures |s| <= ByteLen(s)
  {
    if s != "" {
      CharsFit(s[1..]);
    }
  }

  lemma {:induction false} AsciiInjective(s: string, t: string)
    requires Ascii(s) && Ascii(t) && Utf8(s) == Utf8(t)
    ensures s == t
  {
    AsciiBytes(s);
    AsciiBytes(t);
    forall i | 0 <= i < |s|
      ensures s[i] == t[i]
    {
      assert s[i] as int == t[i] as int;
    }
  }

  /** The first byte tells the length, so no character's bytes begin another's. */
  lemma Utf8CharSplit(c: char, x: bytes, d: char, y: bytes)
    requires Utf8Char(c) + x == Utf8Char(d) + y
    ensures c == d && x == y
  {
    var b, e := Utf8Char(c), Utf8Char(d);
    assert (b + x)[0] == b[0] && (e + y)[0] == e[0];
    assert |b| == |e| by {
      LeadByte(c);
      LeadByte(d);
    }
    SplitEqual(b, x, e, y);
    CodePoint(c);
    CodePoint(d);
  }

  lemma LeadByte(c: char)
    ensures var b := Utf8Char(c);
      |b| == if b[0] < 0x80 then 1 else if b[0] < 0xE0 then 2 else if b[0] < 0xF0 then 3 else 4
  {
  }

  function Scalar(b: bytes): int
    requires 1 <= |b| <= 4
  {
    var n := |b|;
    var lead: int, last: int := b[0], b[n - 1];
    var second: int, third: int := b[if n > 1 then 1 else 0], b[if n > 2 then 2 else 0];
    if n == 1 then lead
    else if n == 2 then (lead - 0xC0) * 0x40 + (last - 0x80)
    else if n == 3 then (lead - 0xE0) * 0x1000 + (second - 0x80) * 0x40 + (last - 0x80)
    else (lead - 0xF0) * 0x4_0000 + (second - 0x80) * 0x1000 + (third - 0x80) * 0x40 + (last - 0x80)
  }

  lemma CodePoint(c: char)
    ensures Scalar(Utf8Char(c)) == c as int
  {
    SixBitGroups(c as int);
  }

  lemma SixBitGroups(n: nat)
    ensures n == n / 0x40 * 0x40 + n % 0x40
    ensures n == n / 0x1000 * 0x1000 + n / 0x40 % 0x40 * 0x40 + n % 0x40
    ensures n == n / 0x4_0000 * 0x4_0000 + n / 0x1000 % 0x40 * 0x1000 + n / 0x40 % 0x40 * 0x40 + n % 0x40
  {
    assert n / 0x1000 == n / 0x40 / 0x40 && n / 0x4_0000 == n / 0x1000 / 0x40;
  }

  /** Different texts have different bytes. */
  lemma {:induction false} Utf8Injective(s: string, t: string)
    requires Utf8(s) == Utf8(t)
    ensures s == t
  {
    if s != "" && t != "" {
      Utf8CharSplit(s[0], Utf8(s[1..]), t[0], Utf8(t[1..]));
      Utf8Injective(s[1..], t[1..]);
      assert s == [s[0]] + s[1..] && t == [t[0]] + t[1..];
    }
  }

  // ---------- Binary collation ----------

  predicate LexLess(s: string, t: string) {
    if t == "" then false
    else if s == "" then true
    else s[0] as int < t[0] as int || (s[0] == t[0] && LexLess(s[1..], t[1..]))
  }

  lemma {:induction false} LexTotal(s: string, t: string)
    requires s != t
    ensures LexLess(s, t) || LexLess(t, s)
  {
    if s != "" && t != "" && s[0] == t[0] {
      assert s == [s[0]] + s[1..] && t == [t[0]] + t[1..];
      LexTotal(s[1..], t[1..]);
    }
  }

  lemma {:induction false} LexTransitive(s: string, t: string, u: string)
    requires LexLess(s, t) && LexLess(t, u)
    ensures LexLess(s, u)
  {
    if s != "" && t != "" && u != "" && s[0] == t[0] == u[0] {
      LexTransitive(s[1..], t[1..], u[1..]);
    }
  }

  lemma {:induction false} LexIrreflexive(s: string)
    ensures !LexLess(s, s)
  {
    if s != "" {
      LexIrreflexive(s[1..]);
    }
  }
}
