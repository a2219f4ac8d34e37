/** The client's JSON strings (crates/msgriver-client/src/lib.rs). */
module JsonText {
  import opened Wrappers
  import opened Bytes
  import Hex

  /** Rust's `char::is_control`: the general category Cc. */
  predicate IsControl(c: char) { c as int < 0x20 || 0x7F <= c as int <= 0x9F }

  function Hex4(n: nat): string {
    [Hex.Digit(n / 0x1000 % 16), Hex.Digit(n / 0x100 % 16), Hex.Digit(n / 0x10 % 16), Hex.Digit(n % 16)]
  }

  function EscapeChar(c: char): string {
    if c == '"' then ['\\', '"']
    else if c == '\\' then ['\\', '\\']
    else if c == '\n' then ['\\', 'n']
    else if c == '\r' then ['\\', 'r']
    else if c == '\t' then ['\\', 't']
    else if IsControl(c) then ['\\', 'u'] + Hex4(c as int)
    else [c]
  }

  function Escape(s: string): string {
    if s == "" then "" else EscapeChar(s[0]) + Escape(s[1..])
  }

  lemma EscapeNext(value: string, i: nat, before: string, piece: string)
    requires i < |value| && piece == EscapeChar(value[i])
    ensures before + Escape(value[i..]) == (before + piece) + Escape(value[i + 1..])
  {
    var rest := value[i + 1..];
    assert value[i..][1..] == rest;
    assert (before + piece) + Escape(rest) == before + (piece + Escape(rest));
  }

  method EscapeOne(c: char) returns (piece: string)
    ensures piece == EscapeChar(c)
  {
    if c == '"' {
      piece := ['\\', '"'];
    } else if c == '\\' {
      piece := ['\\', '\\'];
    } else if c == '\n' {
      piece := ['\\', 'n'];
    } else if c == '\r' {
      piece := ['\\', 'r'];
    } else if c == '\t' {
      piece := ['\\', 't'];
    } else if IsControl(c) {
      piece := EscapeControl(c as int);
    } else {
      piece := [c];
    }
  }

  /** `json_escape`. */
  method JsonEscape(value: string) returns (result: string)
    ensures result == Escape(value)
  {
    result := "";
    for i := 0 to |value|
      invariant Escape(value) == result + Escape(value[i..])
    {
      var piece := EscapeOne(value[i]);
      EscapeNext(value, i, result, piece);
      result := result + piece;
    }
  }

  method EscapeControl(code: nat) returns (piece: string)
    ensures piece == ['\\', 'u'] + Hex4(code)
  {
    var shifts := [0x1000, 0x100, 0x10, 1];
    piece := ['\\', 'u'];
    for k := 0 to 4
      invariant piece == ['\\', 'u'] + Hex4(code)[..k]
    {
      piece := piece + [Hex.Digit(code / shifts[k] % 16)];
    }
  }

  /** A quoted string as RFC 8259 section 7 reads it: the text it denotes and what follows its
      closing quote. */
  datatype Read = Read(value: string, rest: string)

  function Prepend(c: char, r: Option<Read>): Option<Read> {
    if r.None? then None else Some(Read([c] + r.value.value, r.value.rest))
  }

  function HexValue(c: char): Option<nat> {
    if 'A' <= c <= 'F' then Some(c as int - 'A' as int + 10) else Hex.Nibble(c)
  }

  function HexAt(t: string, i: nat): Option<nat> {
    if |t| < i + 4 then None
    else
      var a, b, c, d := HexValue(t[i]), HexValue(t[i + 1]), HexValue(t[i + 2]), HexValue(t[i + 3]);
      if a.None? || b.None? || c.None? || d.None? then None
      else Some(a.value * 0x1000 + b.value * 0x100 + c.value * 0x10 + d.value)
  }

  function SimpleEscape(c: char): Option<char> {
    if c == '"' || c == '\\' || c == '/' then Some(c)
    else if c == 'b' then Some(8 as char)
    else if c == 'f' then Some(12 as char)
    else if c == 'n' then Some('\n')
    else if c == 'r' then Some('\r')
    else if c == 't' then Some('\t')
    else None
  }

  function ReadString(t: string): Option<Read>
    decreases |t|
  {
    if t == "" || t[0] as int < 0x20 then None
    else if t[0] == '"' then Some(Read("", t[1..]))
    else if t[0] != '\\' then Prepend(t[0], ReadString(t[1..]))
    else if |t| == 1 then None
    else if t[1] != 'u' then
      if SimpleEscape(t[1]).None? then None else Prepend(SimpleEscape(t[1]).value, ReadString(t[2..]))
    else if HexAt(t, 2).None? then None
    else
      var unit := HexAt(t, 2).value;
      if unit < 0xD800 || 0xE000 <= unit < 0x1_0000 then Prepend(unit as char, ReadString(t[6..]))
      else if unit < 0xDC00 && |t| >= 12 && t[6] == '\\' && t[7] == 'u' && HexAt(t, 8).Some?
        && 0xDC00 <= HexAt(t, 8).value < 0xE000
      then Prepend((0x1_0000 + (unit - 0xD800) * 0x400 + (HexAt(t, 8).value - 0xDC00)) as char, ReadString(t[12..]))
      else None
  }

  lemma HexBack(n: nat, t: string)
    requires n < 0x1_0000
    ensures HexAt(['\\', 'u'] + Hex4(n) + t, 2) == Some(n)
  {
    var u := ['\\', 'u'] + Hex4(n) + t;
    assert u[2] == Hex.Digit(n / 0x1000 % 16) && u[3] == Hex.Digit(n / 0x100 % 16);
    assert u[4] == Hex.Digit(n / 0x10 % 16) && u[5] == Hex.Digit(n % 16);
    DigitBack(n / 0x1000 % 16);
    DigitBack(n / 0x100 % 16);
    DigitBack(n / 0x10 % 16);
    DigitBack(n % 16);
    Nibbles(n);
  }

  lemma DigitBack(d: nat)
    requires d < 16
    ensures HexValue(Hex.Digit(d)) == Some(d)
  {
    Hex.DigitNibble(d);
  }

  lemma Nibbles(n: nat)
    requires n < 0x1_0000
    ensures n / 0x1000 % 16 * 0x1000 + n / 0x100 % 16 * 0x100 + n / 0x10 % 16 * 0x10 + n % 16 == n
  {
    assert n / 0x100 == n / 0x10 / 0x10 && n / 0x1000 == n / 0x100 / 0x10;
  }

  lemma {:induction false} ReadPiece(c: char, t: string)
    ensures ReadString(EscapeChar(c) + t) == Prepend(c, ReadString(t))
  {
    var piece := EscapeChar(c);
    assert (piece + t)[|piece|..] == t;
    if |piece| == 6 {
      HexBack(c as int, t);
    }
  }

  lemma {:induction false} ReadClose(rest: string)
    ensures ReadString(['"'] + rest) == Some(Read("", rest))
  {
    assert (['"'] + rest)[1..] == rest;
  }

  lemma HeadAndTail(s: string)
    requires s != ""
    ensures s == [s[0]] + s[1..]
  {
  }

  /** Reading inverts escaping: after any escaped string the first unescaped quote is the closing
      one, and the text read is the text escaped. */
  lemma {:induction false} EscapeReads(s: string, rest: string)
    ensures ReadString(Escape(s) + (['"'] + rest)) == Some(Read(s, rest))
  {
    var close := ['"'] + rest;
    if s == "" {
      assert Escape(s) + close == close;
      ReadClose(rest);
    } else {
      EscapeReads(s[1..], rest);
      Reassociate(EscapeChar(s[0]), Escape(s[1..]), close);
      ReadPiece(s[0], Escape(s[1..]) + close);
      HeadAndTail(s);
    }
  }

  predicate NoControls(t: string) { forall i :: 0 <= i < |t| ==> !IsControl(t[i]) }

  lemma PieceHasNoControls(c: char)
    ensures NoControls(EscapeChar(c))
  {
    if |EscapeChar(c)| == 6 {
      var n := c as int;
      DigitIsPrintable(n / 0x1000 % 16);
      DigitIsPrintable(n / 0x100 % 16);
      DigitIsPrintable(n / 0x10 % 16);
      DigitIsPrintable(n % 16);
    }
  }

  lemma DigitIsPrintable(d: nat)
    requires d < 16
    ensures !IsControl(Hex.Digit(d))
  {
  }

  /** No escaped string holds a raw control character. */
  lemma {:induction false} EscapeHasNoControls(s: string)
    ensures NoControls(Escape(s))
  {
    if s != "" {
      PieceHasNoControls(s[0]);
      EscapeHasNoControls(s[1..]);
    }
  }
}
