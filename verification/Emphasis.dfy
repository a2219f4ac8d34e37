/** `matched_markdown_syntax` of scripts/check_specs.py: from source text to delimiters, through
    the matcher, to the positions that are syntax and the spans they wrap.

    Whitespace and punctuation of characters are functions of a `Unicode`. */
module Emphasis {
  import CodeSpans
  import opened Delimiters

  datatype Unicode = Unicode(isSpace: char -> bool, isPunctuation: char -> bool)

  // ---------- Flanking (CommonMark 0.31.2 section 6.2) ----------

  function CharBefore(source: string, start: nat): char
    requires start <= |source|
  {
    if start > 0 then source[start - 1] else '\n'
  }

  function CharAfter(source: string, end: nat): char { if end < |source| then source[end] else '\n' }

  predicate LeftFlanking(u: Unicode, source: string, start: nat, end: nat)
    requires start <= |source|
  {
    var before, after := CharBefore(source, start), CharAfter(source, end);
    !u.isSpace(after) && (!u.isPunctuation(after) || u.isSpace(before) || u.isPunctuation(before))
  }

  predicate RightFlanking(u: Unicode, source: string, start: nat, end: nat)
    requires start <= |source|
  {
    var before, after := CharBefore(source, start), CharAfter(source, end);
    !u.isSpace(before) && (!u.isPunctuation(before) || u.isSpace(after) || u.isPunctuation(after))
  }

  predicate CanOpen(u: Unicode, source: string, start: nat, end: nat)
    requires start < |source|
  {
    LeftFlanking(u, source, start, end)
    && (source[start] == '_' ==> !RightFlanking(u, source, start, end) || u.isPunctuation(CharBefore(source, start)))
  }

  predicate CanClose(u: Unicode, source: string, start: nat, end: nat)
    requires start < |source|
  {
    RightFlanking(u, source, start, end)
    && (source[start] == '_' ==> !LeftFlanking(u, source, start, end) || u.isPunctuation(CharAfter(source, end)))
  }

  /** Which runs may open and close, told by the characters on their two sides (a line end at the ends
      of the text): next to white space never; an underscore only where the outer side is white space
      or punctuation; another marker also next to a letter, or to punctuation with such an outer side. */
  lemma Flanks(u: Unicode, source: string, start: nat, end: nat, before: char, after: char)
    requires start < end <= |source|
    requires before == (if start > 0 then source[start - 1] else '\n')
    requires after == (if end < |source| then source[end] else '\n')
    ensures var left, right := u.isSpace(before) || u.isPunctuation(before), u.isSpace(after) || u.isPunctuation(after);
        && (CanOpen(u, source, start, end) <==>
            !u.isSpace(after) && (left || (source[start] != '_' && !u.isPunctuation(after))))
        && (CanClose(u, source, start, end) <==>
            !u.isSpace(before) && (right || (source[start] != '_' && !u.isPunctuation(before))))
  {
  }

  // ---------- Delimiters of a text ----------

  datatype Token = Token(delim: Delim, markerStart: nat, markerEnd: nat, runStart: nat, runEnd: nat)

  /** What is fixed while a text is scanned. */
  datatype Text = Text(source: string, owned: seq<bool>, eligible: seq<bool>) {
    predicate Ok() { |owned| == |source| && |eligible| == |source| }

    /** Outside code spans, unescaped, and eligible. */
    predicate Free(i: int)
      requires Ok()
    {
      0 <= i < |source| && !owned[i] && !CodeSpans.Escaped(source, i) && eligible[i]
    }

    predicate Marker(i: int)
      requires Ok()
    {
      Free(i) && source[i] in ['*', '_', '~']
    }

    /** Two neighbours of one run. */
    predicate Joined(i: int)
      requires Ok()
    {
      Marker(i) && Marker(i + 1) && source[i] == source[i + 1]
    }

    /** A longest run of one free marker character. */
    predicate Run(start: nat, end: nat)
      requires Ok()
    {
      && start < end <= |source| && Marker(start) && (forall i :: start <= i < end - 1 ==> Joined(i))
      && !Joined(start - 1) && !Joined(end - 1)
    }
  }

  function Width(t: Token): int { t.runEnd - t.runStart }

  /** A token is one marker of a run of asterisks or underscores, or a whole run of one or two tildes. */
  predicate TokenOf(u: Unicode, x: Text, t: Token)
    requires x.Ok()
  {
    && x.Run(t.runStart, t.runEnd)
    && var c := x.source[t.runStart]; var open, close := CanOpen(u, x.source, t.runStart, t.runEnd),
        CanClose(u, x.source, t.runStart, t.runEnd);
      if c == '~' then
        && Width(t) <= 2 && t.markerStart == t.runStart && t.markerEnd == t.runEnd
        && t.delim == Delim(Key(c, Width(t)), 0, t.runStart, open, close)
      else
        && t.runStart <= t.markerStart < t.runEnd && t.markerEnd == t.markerStart + 1
        && t.delim == Delim(Key(c, 0), Width(t), t.markerStart, open, close)
  }

  /** A marker position that no token covers is a tilde of a run of three or more. */
  ghost predicate Covered(x: Text, tokens: seq<Token>, p: nat)
    requires x.Ok()
  {
    || (exists i :: 0 <= i < |tokens| && tokens[i].markerStart <= p < tokens[i].markerEnd)
    || (exists start: nat, end: nat ::
        x.Run(start, end) && start <= p < end && end - start > 2 && x.source[start] == '~')
  }

  /** `tokens` are the tokens of the text before `n`: in order, disjoint, none missing. */
  ghost predicate TokensUpTo(u: Unicode, x: Text, tokens: seq<Token>, n: nat)
    requires x.Ok()
  {
    && (forall i :: 0 <= i < |tokens| ==> TokenOf(u, x, tokens[i]) && tokens[i].markerEnd <= n)
    && (forall i, j :: 0 <= i < j < |tokens| ==> tokens[i].markerEnd <= tokens[j].markerStart)
    && (forall p {:trigger Covered(x, tokens, p)} :: 0 <= p < n && x.Marker(p) ==> Covered(x, tokens, p))
  }

  method RunEnd(x: Text, start: nat) returns (end: nat)
    requires x.Ok() && x.Marker(start) && !x.Joined(start - 1)
    ensures x.Run(start, end)
  {
    end := start + 1;
    while end < |x.source| && x.source[end] == x.source[start] && !x.owned[end] && x.eligible[end]
      invariant start < end <= |x.source| && x.Marker(end - 1) && x.source[end - 1] == x.source[start]
      invariant forall i :: start <= i < end - 1 ==> x.Joined(i)
    {
      end := end + 1;
    }
  }

  lemma CoveredMore(x: Text, tokens: seq<Token>, more: seq<Token>, p: nat)
    requires x.Ok() && Covered(x, tokens, p) && tokens <= more
    ensures Covered(x, more, p)
  {
    if i :| 0 <= i < |tokens| && tokens[i].markerStart <= p < tokens[i].markerEnd {
      assert more[i] == tokens[i];
    }
  }

  lemma AddToken(u: Unicode, x: Text, tokens: seq<Token>, t: Token)
    requires x.Ok() && TokensUpTo(u, x, tokens, t.markerStart) && TokenOf(u, x, t)
    ensures TokensUpTo(u, x, tokens + [t], t.markerEnd)
  {
    var more := tokens + [t];
    assert more[|tokens|] == t;
    forall p | 0 <= p < t.markerEnd && x.Marker(p)
      ensures Covered(x, more, p)
    {
      if p < t.markerStart {
        CoveredMore(x, tokens, more, p);
      }
    }
  }

  lemma SkipRun(u: Unicode, x: Text, tokens: seq<Token>, start: nat, end: nat)
    requires x.Ok() && TokensUpTo(u, x, tokens, start) && x.Run(start, end) && end - start > 2 && x.source[start] == '~'
    ensures TokensUpTo(u, x, tokens, end)
  {
  }

  /** One token a marker of a run of asterisks or underscores. */
  method AppendMarkers(u: Unicode, x: Text, tokens: seq<Token>, start: nat, end: nat) returns (more: seq<Token>)
    requires x.Ok() && TokensUpTo(u, x, tokens, start) && x.Run(start, end) && x.source[start] != '~'
    ensures TokensUpTo(u, x, more, end)
  {
    more := tokens;
    var open, close := CanOpen(u, x.source, start, end), CanClose(u, x.source, start, end);
    for position := start to end
      invariant TokensUpTo(u, x, more, position)
    {
      var delim := Delim(Key(x.source[start], 0), end - start, position, open, close);
      AddToken(u, x, more, Token(delim, position, position + 1, start, end));
      more := more + [Token(delim, position, position + 1, start, end)];
    }
  }

  /** The tokens of one run. */
  method AppendRun(u: Unicode, x: Text, tokens: seq<Token>, index: nat, end: nat) returns (more: seq<Token>)
    requires x.Ok() && TokensUpTo(u, x, tokens, index) && x.Run(index, end)
    ensures TokensUpTo(u, x, more, end)
  {
    var character, width := x.source[index], end - index;
    if character == '~' && width > 2 {
      SkipRun(u, x, tokens, index, end);
      return tokens;
    }
    if character != '~' {
      more := AppendMarkers(u, x, tokens, index, end);
    } else {
      var open, close := CanOpen(u, x.source, index, end), CanClose(u, x.source, index, end);
      var t := Token(Delim(Key(character, width), 0, index, open, close), index, end, index, end);
      AddToken(u, x, tokens, t);
      more := tokens + [t];
    }
  }

  lemma MarkerTest(x: Text, escaped: seq<bool>, index: nat)
    requires x.Ok() && |escaped| == |x.source| && index < |x.source|
        && escaped[index] == CodeSpans.Escaped(x.source, index)
    ensures x.Marker(index) <==> !(x.owned[index] || escaped[index] || !x.eligible[index]
                                   || x.source[index] !in ['*', '_', '~'])
    ensures !x.Marker(index) ==> !x.Joined(index)
  {
  }

  /** The tokenising loop. */
  method ScanDelimiters(u: Unicode, x: Text, escaped: seq<bool>) returns (tokens: seq<Token>)
    requires x.Ok() && |escaped| == |x.source|
    requires forall i :: 0 <= i < |escaped| ==> escaped[i] == CodeSpans.Escaped(x.source, i)
    ensures TokensUpTo(u, x, tokens, |x.source|)
  {
    tokens := [];
    var index := 0;
    while index < |x.source|
      invariant 0 <= index <= |x.source| && TokensUpTo(u, x, tokens, index) && !x.Joined(index - 1)
    {
      if x.owned[index] || escaped[index] || !x.eligible[index] || x.source[index] !in ['*', '_', '~'] {
        MarkerTest(x, escaped, index);
        NoMarker(u, x, tokens, index);
        index := index + 1;
        continue;
      }
      MarkerTest(x, escaped, index);
      var end := RunEnd(x, index);
      tokens := AppendRun(u, x, tokens, index, end);
      index := end;
    }
  }

  lemma NoMarker(u: Unicode, x: Text, tokens: seq<Token>, index: nat)
    requires x.Ok() && TokensUpTo(u, x, tokens, index) && !x.Marker(index)
    ensures TokensUpTo(u, x, tokens, index + 1)
  {
  }

  // ---------- Syntax and wrappers ----------

  function Delims(tokens: seq<Token>): (ds: seq<Delim>)
    ensures |ds| == |tokens|
  {
    seq(|tokens|, i requires 0 <= i < |tokens| => tokens[i].delim)
  }

  predicate Holds(t: Token, p: int) { t.markerStart <= p < t.markerEnd }

  ghost predicate Within(pairs: seq<Pair>, n: nat) {
    forall q :: q in pairs ==> q.opener < n && q.closer < n
  }

  /** Position `p` is in a marker of a pair opened before delimiter `n`. */
  ghost predicate Marked(tokens: seq<Token>, pairs: seq<Pair>, n: nat, p: int)
    requires Within(pairs, |tokens|)
  {
    exists q :: q in pairs && q.opener < n && (Holds(tokens[q.opener], p) || Holds(tokens[q.closer], p))
  }

  datatype Wrapper = Wrapper(start: nat, end: nat)

  /** From the opener's whole run to the closer's whole run. */
  function WrapperOf(tokens: seq<Token>, q: Pair): Wrapper
    requires q.opener < |tokens| && q.closer < |tokens|
  {
    Wrapper(tokens[q.opener].runStart, tokens[q.closer].runEnd)
  }

  /** `w` wraps a pair opened before delimiter `n`. */
  ghost predicate Wrapped(tokens: seq<Token>, pairs: seq<Pair>, n: nat, w: Wrapper)
    requires Within(pairs, |tokens|)
  {
    exists q :: q in pairs && q.opener < n && WrapperOf(tokens, q) == w
  }

  lemma NextUnmatched(tokens: seq<Token>, pairs: seq<Pair>, i: nat)
    requires Within(pairs, |tokens|) && !IsOpener(pairs, i)
    ensures forall p :: Marked(tokens, pairs, i + 1, p) <==> Marked(tokens, pairs, i, p)
    ensures forall w :: Wrapped(tokens, pairs, i + 1, w) <==> Wrapped(tokens, pairs, i, w)
  {
    forall q | q in pairs && q.opener < i + 1
      ensures q.opener < i
    {
    }
  }

  lemma NextMatched(tokens: seq<Token>, pairs: seq<Pair>, q: Pair)
    requires Within(pairs, |tokens|) && q in pairs
    requires forall r :: r in pairs && r.opener == q.opener ==> r == q
    ensures forall p :: Marked(tokens, pairs, q.opener + 1, p) <==>
      Marked(tokens, pairs, q.opener, p) || Holds(tokens[q.opener], p) || Holds(tokens[q.closer], p)
    ensures forall w :: Wrapped(tokens, pairs, q.opener + 1, w) <==>
      Wrapped(tokens, pairs, q.opener, w) || w == WrapperOf(tokens, q)
  {
    forall r | r in pairs && r.opener < q.opener + 1
      ensures r.opener < q.opener || r == q
    {
    }
    assert Wrapped(tokens, pairs, q.opener + 1, WrapperOf(tokens, q));
    forall w | Wrapped(tokens, pairs, q.opener, w)
      ensures Wrapped(tokens, pairs, q.opener + 1, w)
    {
      var r :| r in pairs && r.opener < q.opener && WrapperOf(tokens, r) == w;
      assert r.opener < q.opener + 1;
    }
  }

  method MarkRange(syntax: array<bool>, start: nat, end: nat)
    requires start <= end <= syntax.Length
    modifies syntax
    ensures forall p :: 0 <= p < syntax.Length ==> syntax[p] == (old(syntax[p]) || start <= p < end)
  {
    for position := start to end
      invariant forall p :: 0 <= p < syntax.Length ==> syntax[p] == (old(syntax[p]) || start <= p < position)
    {
      syntax[position] := true;
    }
  }

  /** A sequence without repetition. */
  predicate Distinct<T(==)>(s: seq<T>) { forall i, j :: 0 <= i < j < |s| ==> s[i] != s[j] }

  /** `o` is the first opener whose pair is wrapped by `w`. */
  ghost predicate FirstWraps(tokens: seq<Token>, pairs: seq<Pair>, o: nat, w: Wrapper)
    requires Within(pairs, |tokens|)
  {
    && (exists p :: p in pairs && p.opener == o && WrapperOf(tokens, p) == w)
    && forall p :: p in pairs && p.opener < o ==> WrapperOf(tokens, p) != w
  }

  /** Each wrapper stands once, in the order of the first openers it wraps. */
  ghost predicate InOpenerOrder(tokens: seq<Token>, pairs: seq<Pair>, spans: seq<Wrapper>, openers: seq<nat>, n: nat)
    requires Within(pairs, |tokens|)
  {
    && |openers| == |spans|
    && (forall k :: 0 <= k < |spans| ==> openers[k] < n && FirstWraps(tokens, pairs, openers[k], spans[k]))
    && forall k, l :: 0 <= k < l < |spans| ==> openers[k] < openers[l]
  }

  /** The wrappers of the pairs opened before delimiter `n`. */
  ghost predicate Collected(tokens: seq<Token>, pairs: seq<Pair>, spans: seq<Wrapper>, openers: seq<nat>, n: nat)
    requires Within(pairs, |tokens|)
  {
    && Distinct(spans) && (forall w :: w in spans <==> Wrapped(tokens, pairs, n, w))
    && InOpenerOrder(tokens, pairs, spans, openers, n)
  }

  /** The wrapper of one more pair, unless it was seen. */
  method NoteWrapper(tokens: seq<Token>, ghost pairs: seq<Pair>, ghost q: Pair, span: Wrapper,
                     seen: set<Wrapper>, spans: seq<Wrapper>, ghost openers: seq<nat>)
    returns (seenSpans: set<Wrapper>, wrapperSpans: seq<Wrapper>, ghost openers': seq<nat>)
    requires Within(pairs, |tokens|) && q in pairs && span == WrapperOf(tokens, q)
    requires forall r :: r in pairs && r.opener == q.opener ==> r == q
    requires Collected(tokens, pairs, spans, openers, q.opener) && forall w :: w in seen <==> w in spans
    ensures Collected(tokens, pairs, wrapperSpans, openers', q.opener + 1)
    ensures forall w :: w in seenSpans <==> w in wrapperSpans
  {
    NextMatched(tokens, pairs, q);
    seenSpans, wrapperSpans, openers' := seen, spans, openers;
    if span !in seen {
      assert FirstWraps(tokens, pairs, q.opener, span) by {
        assert !Wrapped(tokens, pairs, q.opener, span);
      }
      seenSpans := seenSpans + {span};
      wrapperSpans := wrapperSpans + [span];
      openers' := openers' + [q.opener];
    }
  }

  /** The closing loop: positions in matched markers, and each wrapper once. */
  method CollectSyntax(delimiters: seq<MarkdownDelimiter>, tokens: seq<Token>, length: nat, ghost pairs: seq<Pair>)
    returns (syntax: array<bool>, wrapperSpans: seq<Wrapper>, ghost openers: seq<nat>)
    requires Synced(delimiters, Delims(tokens), pairs) && WellNested(Delims(tokens), pairs, |tokens|)
    requires forall i :: 0 <= i < |tokens| ==> tokens[i].markerStart <= tokens[i].markerEnd <= length
    ensures fresh(syntax) && syntax.Length == length && Within(pairs, |tokens|)
    ensures forall p :: 0 <= p < length ==> (syntax[p] <==> Marked(tokens, pairs, |tokens|, p))
    ensures Distinct(wrapperSpans) && forall w :: w in wrapperSpans <==> Wrapped(tokens, pairs, |tokens|, w)
    ensures InOpenerOrder(tokens, pairs, wrapperSpans, openers, |tokens|)
  {
    assert Within(pairs, |tokens|);
    syntax := new bool[length](_ => false);
    wrapperSpans, openers := [], [];
    var seenSpans: set<Wrapper> := {};
    for i := 0 to |delimiters|
      invariant forall p :: 0 <= p < length ==> (syntax[p] <==> Marked(tokens, pairs, i, p))
      invariant Collected(tokens, pairs, wrapperSpans, openers, i) && forall w :: w in seenSpans <==> w in wrapperSpans
    {
      var opener := delimiters[i];
      assert Reflects(opener, Delims(tokens)[i], pairs, i);
      if opener.endIndex < 0 {
        NextUnmatched(tokens, pairs, i);
        continue;
      }
      ghost var q := Pair(i, opener.endIndex);
      NextMatched(tokens, pairs, q);
      MarkRange(syntax, tokens[i].markerStart, tokens[i].markerEnd);
      MarkRange(syntax, tokens[opener.endIndex].markerStart, tokens[opener.endIndex].markerEnd);
      var span := Wrapper(tokens[i].runStart, tokens[opener.endIndex].runEnd);
      seenSpans, wrapperSpans, openers := NoteWrapper(tokens, pairs, q, span, seenSpans, wrapperSpans, openers);
    }
  }

  /** One fresh delimiter object a token. */
  method Objects(tokens: seq<Token>) returns (delimiters: seq<MarkdownDelimiter>)
    ensures |delimiters| == |tokens| && fresh(delimiters) && Synced(delimiters, Delims(tokens), [])
    ensures forall i, j :: 0 <= i < j < |delimiters| ==> delimiters[i] != delimiters[j]
  {
    delimiters := [];
    for i := 0 to |tokens|
      invariant |delimiters| == i && fresh(delimiters)
      invariant forall k :: 0 <= k < i ==> delimiters[k].AsDelim() == tokens[k].delim && delimiters[k].endIndex == -1
      invariant forall j, k :: 0 <= j < k < i ==> delimiters[j] != delimiters[k]
    {
      var delimiter := new MarkdownDelimiter(tokens[i].delim);
      delimiters := delimiters + [delimiter];
    }
    forall i | 0 <= i < |delimiters|
      ensures Reflects(delimiters[i], Delims(tokens)[i], [], i)
    {
      assert delimiters[i].AsDelim() == tokens[i].delim;
    }
  }

  lemma TokenBounds(u: Unicode, x: Text, t: Token)
    requires x.Ok() && TokenOf(u, x, t)
    ensures t.markerStart <= t.markerEnd <= |x.source|
  {
  }

  /** `matched_markdown_syntax`: exactly the markers that the plain scan of the text's delimiters
      pairs up are syntax, and every pair is wrapped once. */
  method MatchedMarkdownSyntax(u: Unicode, source: string, codeSpans: seq<(nat, nat)>, eligible: seq<bool>)
    returns (syntax: array<bool>, wrapperSpans: seq<Wrapper>, ghost x: Text, ghost tokens: seq<Token>,
             ghost openers: seq<nat>)
    requires |eligible| == |source| && forall s :: s in codeSpans ==> s.0 <= s.1 <= |source|
    ensures x.Ok() && x.source == source && x.eligible == eligible
    ensures forall p :: 0 <= p < |source| ==> (x.owned[p] <==> exists s :: s in codeSpans && s.0 <= p < s.1)
    ensures TokensUpTo(u, x, tokens, |source|) && Within(Paired(Delims(tokens)), |tokens|)
    ensures syntax.Length == |source|
    ensures forall p :: 0 <= p < |source| ==> (syntax[p] <==> Marked(tokens, Paired(Delims(tokens)), |tokens|, p))
    ensures Distinct(wrapperSpans) && forall w ::
        w in wrapperSpans <==> Wrapped(tokens, Paired(Delims(tokens)), |tokens|, w)
    ensures InOpenerOrder(tokens, Paired(Delims(tokens)), wrapperSpans, openers, |tokens|)
  {
    var escaped := CodeSpans.EscapeFlags(source);
    var codeOwned := CodeOwned(|source|, codeSpans);
    x := Text(source, codeOwned, eligible);
    var scanned := ScanDelimiters(u, Text(source, codeOwned, eligible), escaped);
    tokens := scanned;
    var delimiters := Objects(scanned);
    MatchDelimiters(delimiters, Delims(scanned));
    PairedIsWellNested(Delims(scanned));
    forall i | 0 <= i < |scanned|
      ensures scanned[i].markerStart <= scanned[i].markerEnd <= |source|
    {
      TokenBounds(u, x, scanned[i]);
    }
    syntax, wrapperSpans, openers := CollectSyntax(delimiters, scanned, |source|, Paired(Delims(scanned)));
  }

  /** The positions code spans own. */
  method CodeOwned(length: nat, codeSpans: seq<(nat, nat)>) returns (owned: seq<bool>)
    requires forall s :: s in codeSpans ==> s.0 <= s.1 <= length
    ensures |owned| == length
    ensures forall p :: 0 <= p < length ==> (owned[p] <==> exists s :: s in codeSpans && s.0 <= p < s.1)
  {
    var flags := new bool[length](_ => false);
    for i := 0 to |codeSpans|
      invariant forall p :: 0 <= p < length ==> (flags[p] <==> exists s :: s in codeSpans[..i] && s.0 <= p < s.1)
    {
      assert codeSpans[..i + 1] == codeSpans[..i] + [codeSpans[i]];
      MarkRange(flags, codeSpans[i].0, codeSpans[i].1);
    }
    assert codeSpans[..|codeSpans|] == codeSpans;
    owned := flags[..];
  }
}
