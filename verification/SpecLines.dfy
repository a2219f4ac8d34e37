/** The lines of a document's text (`_split_lines` in scripts/spec_structure.py). */
module SpecLines {
  import opened Wrappers
  import opened Text
  import opened SpecSlices

  lemma {:induction false} SliceOfPart(text: string, from: nat, to: nat)
    requires from <= to <= |text|
    ensures var start := ByteLen(text[..from]); var end := start + ByteLen(text[from..to]);
      end == ByteLen(text[..to]) <= ByteLen(text) && Utf8(text)[start..end] == Utf8(text[from..to])
  {
    TextJoin(text, from, to);
    TextJoin(text, to, |text|);
    assert text[..|text|] == text;
    Middle(Utf8(text[..from]), Utf8(text[from..to]), Utf8(text[to..|text|]));
  }

  lemma TextJoin(text: string, from: nat, to: nat)
    requires from <= to <= |text|
    ensures Utf8(text[..to]) == Utf8(text[..from]) + Utf8(text[from..to])
  {
    assert text[..from] + text[from..to] == text[..to];
    Utf8Join(text[..from], text[from..to]);
  }

  lemma Middle<T>(head: seq<T>, part: seq<T>, tail: seq<T>)
    ensures ((head + part) + tail)[|head|..|head| + |part|] == part
  {
  }

  /** The bytes of a line stand where the line says. */
  predicate Placed(text: string, line: Line) {
    line.start <= line.end <= ByteLen(text) && Utf8(text)[line.start..line.end] == Utf8(line.text) && '\n' !in line.text
  }

  lemma NextLine(text: string, from: nat, i: nat)
    requires from <= i < |text| && text[i] == '\n' && '\n' !in text[from..i]
    ensures var start := ByteLen(text[..from]); var end := start + ByteLen(text[from..i]);
      Placed(text, Line(text[from..i], start, end)) && ByteLen(text[..i + 1]) == end + 1
  {
    SliceOfPart(text, from, i);
    Utf8Join(text[..i], [text[i]]);
    assert text[..i] + [text[i]] == text[..i + 1];
    assert Utf8([text[i]]) == Utf8Char(text[i]) + Utf8([]);
  }

  /** The lines, with a newline between any two. */
  function JoinLines(lines: seq<Line>): string {
    if lines == [] then ""
    else if |lines| == 1 then lines[0].text
    else JoinLines(lines[..|lines| - 1]) + "\n" + lines[|lines| - 1].text
  }

  predicate EndsInNewline(text: string) { text != "" && text[|text| - 1] == '\n' }

  /** The lines of a text: none lost, each where it says, and a final newline ends no further line. */
  ghost predicate LinesOf(text: string, lines: seq<Line>) {
    && lines != [] && LinesOk(lines) && (forall i :: 0 <= i < |lines| ==> Placed(text, lines[i]))
    && text == JoinLines(lines) + if EndsInNewline(text) then "\n" else ""
  }

  ghost predicate LinesBefore(text: string, lines: seq<Line>, bytePos: nat) {
    LinesOk(lines) && forall k :: 0 <= k < |lines| ==> lines[k].end < bytePos && Placed(text, lines[k])
  }

  lemma LineAppended(text: string, lines: seq<Line>, line: Line)
    requires LinesBefore(text, lines, line.start) && Placed(text, line)
    ensures LinesBefore(text, lines + [line], line.end + 1)
  {
  }

  /** The lines found spell the text before `from`, the last newline included. */
  ghost predicate SpeltBefore(text: string, lines: seq<Line>, from: nat) {
    from <= |text| && if lines == [] then from == 0 else text[..from] == JoinLines(lines) + "\n"
  }

  lemma {:induction false} JoinMore(lines: seq<Line>, line: Line)
    ensures JoinLines(lines + [line]) == if lines == [] then line.text else JoinLines(lines) + "\n" + line.text
  {
    assert (lines + [line])[..|lines|] == lines;
  }

  lemma {:induction false} SpeltMore(text: string, lines: seq<Line>, from: nat, to: nat, line: Line)
    requires SpeltBefore(text, lines, from) && from <= to < |text| && text[to] == '\n' && line.text == text[from..to]
    ensures SpeltBefore(text, lines + [line], to + 1)
  {
    JoinMore(lines, line);
    assert text[..to + 1] == text[..from] + text[from..to] + [text[to]];
  }

  lemma {:induction false} SpeltLast(text: string, lines: seq<Line>, from: nat, line: Line)
    requires SpeltBefore(text, lines, from) && line.text == text[from..]
    ensures JoinLines(lines + [line]) == text
  {
    JoinMore(lines, line);
    assert text == text[..from] + text[from..];
  }

  lemma {:induction false} LineEnds(text: string, lines: seq<Line>, from: nat, i: nat, line: Line)
    requires from <= i < |text| && text[i] == '\n' && (forall k :: from <= k < i ==> text[k] != '\n')
        && line.text == text[from..i]
    requires line.start == ByteLen(text[..from]) && line.end == line.start + ByteLen(line.text)
    requires LinesBefore(text, lines, line.start) && SpeltBefore(text, lines, from)
    ensures LinesBefore(text, lines + [line], line.end + 1) && SpeltBefore(text, lines + [line], i + 1)
    ensures ByteLen(text[..i + 1]) == line.end + 1
  {
    NextLine(text, from, i);
    LineAppended(text, lines, line);
    SpeltMore(text, lines, from, i, line);
  }

  /** `_split_lines`. */
  method SplitLines(text: string) returns (lines: seq<Line>)
    ensures LinesOf(text, lines)
  {
    lines := [];
    var from, bytePos := 0, 0;
    for i := 0 to |text|
      invariant from <= i && bytePos == ByteLen(text[..from])
      invariant forall k :: from <= k < i ==> text[k] != '\n'
      invariant from > 0 ==> text[from - 1] == '\n' && lines != []
      invariant LinesBefore(text, lines, bytePos) && SpeltBefore(text, lines, from)
    {
      if text[i] == '\n' {
        var part := text[from..i];
        var line := Line(part, bytePos, bytePos + ByteLen(part));
        LineEnds(text, lines, from, i, line);
        lines := lines + [line];
        bytePos := line.end + 1;
        from := i + 1;
      }
    }
    lines := LastLine(text, lines, from, bytePos);
  }

  /** The last line, unless a final newline leaves it empty. */
  method LastLine(text: string, before: seq<Line>, from: nat, bytePos: nat) returns (lines: seq<Line>)
    requires from <= |text| && bytePos == ByteLen(text[..from]) && forall k :: from <= k < |text| ==> text[k] != '\n'
    requires from > 0 ==> text[from - 1] == '\n' && before != []
    requires LinesBefore(text, before, bytePos) && SpeltBefore(text, before, from)
    ensures LinesOf(text, lines)
  {
    var last := text[from..];
    if last != "" || text == "" || text[|text| - 1] != '\n' {
      var line := Line(last, bytePos, bytePos + ByteLen(last));
      lines := before + [line];
      WithLast(text, before, from, line, lines);
    } else {
      lines := before;
      WithoutLast(text, before, from, bytePos);
    }
  }

  lemma {:induction false} LastPlaced(text: string, from: nat, line: Line)
    requires from <= |text| && line.text == text[from..] && line.start == ByteLen(text[..from])
    requires line.end == line.start + ByteLen(line.text) && forall k :: from <= k < |text| ==> text[k] != '\n'
    ensures Placed(text, line)
  {
    SliceOfPart(text, from, |text|);
    assert text[from..|text|] == line.text;
  }

  lemma {:induction false} WithLast(text: string, before: seq<Line>, from: nat, line: Line, lines: seq<Line>)
    requires SpeltBefore(text, before, from) && line.text == text[from..] && lines == before + [line]
    requires LinesBefore(text, before, line.start) && line.start == ByteLen(text[..from])
    requires line.end == line.start + ByteLen(line.text) && forall k :: from <= k < |text| ==> text[k] != '\n'
    requires line.text != "" || text == "" || text[|text| - 1] != '\n'
    ensures LinesOf(text, lines)
  {
    LastPlaced(text, from, line);
    LineAppended(text, before, line);
    SpeltLast(text, before, from, line);
    assert !EndsInNewline(text);
    assert JoinLines(lines) + "" == JoinLines(lines);
  }

  lemma {:induction false} WithoutLast(text: string, before: seq<Line>, from: nat, bytePos: nat)
    requires SpeltBefore(text, before, from) && LinesBefore(text, before, bytePos) && before != []
    requires text[from..] == "" && EndsInNewline(text)
    ensures LinesOf(text, before)
  {
    assert text[..from] == text;
  }
}
