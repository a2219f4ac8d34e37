/** Backtick code spans: the equal-width pairing of scripts/check_specs.py and the
    at-least-as-wide pairing of scripts/spec_structure.py.  Both build a width table from the
    right; both are proved equal to a greedy left-to-right search that uses no table. */
module CodeSpans {
  import opened Wrappers

  // ---------- Escapes ----------

  /** Length of the backslash run that ends just before `i`. */
  function BackslashesBefore(source: string, i: nat): (n: nat)
    requires i <= |source|
    ensures n <= i && (forall k :: i - n <= k < i ==> source[k] == '\\')
    ensures n < i ==> source[i - n - 1] != '\\'
  {
    if i == 0 || source[i - 1] != '\\' then 0 else 1 + BackslashesBefore(source, i - 1)
  }

  predicate Escaped(source: string, i: nat)
    requires i < |source|
  {
    BackslashesBefore(source, i) % 2 == 1
  }

  method EscapeFlags(source: string) returns (escaped: seq<bool>)
    ensures |escaped| == |source|
    ensures forall i :: 0 <= i < |source| ==> escaped[i] == Escaped(source, i)
  {
    escaped := [];
    var precedingBackslashes := 0;
    for i := 0 to |source|
      invariant |escaped| == i && precedingBackslashes == BackslashesBefore(source, i)
      invariant forall k :: 0 <= k < i ==> escaped[k] == Escaped(source, k)
    {
      escaped := escaped + [precedingBackslashes % 2 == 1];
      precedingBackslashes := if source[i] == '\\' then precedingBackslashes + 1 else 0;
    }
  }

  // ---------- Runs ----------

  datatype Run = Run(start: nat, end: nat) {
    function Width(): int { end - start }
  }

  predicate Tick(source: string, eligible: seq<bool>, i: int)
    requires |eligible| == |source|
  {
    0 <= i < |source| && source[i] == '`' && eligible[i]
  }

  ghost predicate IsMaximal(source: string, eligible: seq<bool>, r: Run)
    requires |eligible| == |source|
  {
    && r.start < r.end <= |source|
    && (forall k :: r.start <= k < r.end ==> Tick(source, eligible, k))
    && !Tick(source, eligible, r.start - 1) && !Tick(source, eligible, r.end)
  }

  /** `runs` lists the maximal backtick runs that start before `n`, in order. */
  ghost predicate RunsUpTo(source: string, eligible: seq<bool>, runs: seq<Run>, n: int)
    requires |eligible| == |source|
  {
    && (forall i :: 0 <= i < |runs| ==> IsMaximal(source, eligible, runs[i]) && runs[i].end <= n)
    && (forall i, j :: 0 <= i < j < |runs| ==> runs[i].end < runs[j].start)
    && (forall k :: 0 <= k < n && Tick(source, eligible, k) ==> exists i ::
        0 <= i < |runs| && runs[i].start <= k < runs[i].end)
  }

  ghost predicate AllRuns(source: string, eligible: seq<bool>, runs: seq<Run>)
    requires |eligible| == |source|
  {
    RunsUpTo(source, eligible, runs, |source|)
  }

  method RunEnd(source: string, eligible: seq<bool>, start: nat) returns (end: nat)
    requires |eligible| == |source| && Tick(source, eligible, start) && !Tick(source, eligible, start - 1)
    ensures IsMaximal(source, eligible, Run(start, end))
  {
    end := start + 1;
    while end < |source| && source[end] == '`' && eligible[end]
      invariant start < end <= |source|
      invariant forall k :: start <= k < end ==> Tick(source, eligible, k)
    {
      end := end + 1;
    }
  }

  lemma ExtendRuns(source: string, eligible: seq<bool>, runs: seq<Run>, r: Run)
    requires |eligible| == |source| && IsMaximal(source, eligible, r) && RunsUpTo(source, eligible, runs, r.start)
    ensures RunsUpTo(source, eligible, runs + [r], r.end)
  {
    var more := runs + [r];
    forall k | 0 <= k < r.end && Tick(source, eligible, k)
      ensures exists i :: 0 <= i < |more| && more[i].start <= k < more[i].end
    {
      if k < r.start {
        var i :| 0 <= i < |runs| && runs[i].start <= k < runs[i].end;
        assert more[i] == runs[i];
      } else {
        assert more[|runs|] == r;
      }
    }
    forall i | 0 <= i < |runs|
      ensures more[i].end < r.start
    {
      assert IsMaximal(source, eligible, runs[i]);
      assert Tick(source, eligible, r.start);
    }
  }

  method BacktickRuns(source: string, eligible: seq<bool>) returns (runs: seq<Run>)
    requires |eligible| == |source|
    ensures AllRuns(source, eligible, runs)
  {
    runs := [];
    var index := 0;
    while index < |source|
      invariant 0 <= index <= |source|
      invariant RunsUpTo(source, eligible, runs, index)
      invariant Tick(source, eligible, index) ==> !Tick(source, eligible, index - 1)
    {
      if source[index] != '`' || !eligible[index] {
        index := index + 1;
        continue;
      }
      var end := RunEnd(source, eligible, index);
      ExtendRuns(source, eligible, runs, Run(index, end));
      runs := runs + [Run(index, end)];
      index := end;
    }
  }

  // ---------- Greedy pairing, without a table ----------

  /** A run in its inline block; `opensAt` skips a first backtick that is escaped. */
  datatype Token = Token(run: Run, block: nat, opensAt: nat) {
    function OpeningWidth(): int { run.end - opensAt }
  }

  /** The shape both scanners give their tokens. */
  ghost predicate TokensOk(tokens: seq<Token>) {
    forall t :: t in tokens ==> t.run.start < t.run.end && t.run.start <= t.opensAt <= t.run.start + 1
  }

  ghost predicate RunsInOrder(tokens: seq<Token>) {
    forall j, k :: 0 <= j < k < |tokens| ==> tokens[j].run.end < tokens[k].run.start
  }

  datatype Match = Match(opener: nat, closer: nat)

  predicate Closes(exact: bool, rawWidth: int, openingWidth: int) {
    if exact then rawWidth == openingWidth else rawWidth >= openingWidth
  }

  /** The first token at or after `from` that closes an opener of this block and width. */
  function FirstCloser(tokens: seq<Token>, exact: bool, block: nat, width: int, from: nat): (c: Option<nat>)
    requires from <= |tokens|
    ensures c.Some? ==> from <= c.value < |tokens|
    decreases |tokens| - from
  {
    if from == |tokens| then None
    else if tokens[from].block == block && Closes(exact, tokens[from].run.Width(), width) then Some(from)
    else FirstCloser(tokens, exact, block, width, from + 1)
  }

  lemma {:induction false} FirstCloserIsFirst(tokens: seq<Token>, exact: bool, block: nat, width: int, from: nat)
    requires from <= |tokens|
    ensures var c := FirstCloser(tokens, exact, block, width, from);
      && (c.Some? ==> tokens[c.value].block == block && Closes(exact, tokens[c.value].run.Width(), width))
      && (forall j :: from <= j < (if c.Some? then c.value else |tokens|) ==>
            tokens[j].block != block || !Closes(exact, tokens[j].run.Width(), width))
    decreases |tokens| - from
  {
    if from < |tokens| && !(tokens[from].block == block && Closes(exact, tokens[from].run.Width(), width)) {
      FirstCloserIsFirst(tokens, exact, block, width, from + 1);
    }
  }

  /** The closer of token `i`; an opener of width 0 (one escaped backtick) has none. */
  function CloserOf(tokens: seq<Token>, exact: bool, i: nat): (c: Option<nat>)
    requires i < |tokens|
    ensures c.Some? ==> i < c.value < |tokens|
  {
    if tokens[i].OpeningWidth() <= 0 then None
    else FirstCloser(tokens, exact, tokens[i].block, tokens[i].OpeningWidth(), i + 1)
  }

  /** Left to right: an opener takes its closer and the search resumes after it. */
  function Greedy(tokens: seq<Token>, exact: bool, i: nat): (ms: seq<Match>)
    requires i <= |tokens|
    decreases |tokens| - i
  {
    if i == |tokens| then []
    else match CloserOf(tokens, exact, i)
      case None => Greedy(tokens, exact, i + 1)
      case Some(c) => [Match(i, c)] + Greedy(tokens, exact, c + 1)
  }

  ghost predicate InOrder(tokens: seq<Token>, exact: bool, ms: seq<Match>, from: nat) {
    && (forall m :: m in ms ==>
          && from <= m.opener < m.closer < |tokens|
          && CloserOf(tokens, exact, m.opener) == Some(m.closer)
          && tokens[m.opener].block == tokens[m.closer].block)
    && (forall k, l :: 0 <= k < l < |ms| ==> ms[k].closer < ms[l].opener)
  }

  lemma InOrderFrom(tokens: seq<Token>, exact: bool, ms: seq<Match>, i: nat)
    requires InOrder(tokens, exact, ms, i + 1)
    ensures InOrder(tokens, exact, ms, i)
  {
  }

  lemma PrependInOrder(tokens: seq<Token>, exact: bool, m: Match, rest: seq<Match>)
    requires m.opener < |tokens| && CloserOf(tokens, exact, m.opener) == Some(m.closer)
    requires InOrder(tokens, exact, rest, m.closer + 1)
    ensures InOrder(tokens, exact, [m] + rest, m.opener)
  {
    var ms := [m] + rest;
    assert forall x :: x in ms <==> x == m || x in rest;
    FirstCloserIsFirst(tokens, exact, tokens[m.opener].block, tokens[m.opener].OpeningWidth(), m.opener + 1);
    forall k, l | 0 <= k < l < |ms|
      ensures ms[k].closer < ms[l].opener
    {
      assert ms[l] == rest[l - 1] && rest[l - 1] in rest;
    }
  }

  /** For every token list: spans come in order, do not overlap, stay in one block, and each
      closer is the first one that fits after its opener. */
  lemma {:induction false} GreedyIsDisjoint(tokens: seq<Token>, exact: bool, i: nat)
    requires i <= |tokens|
    ensures InOrder(tokens, exact, Greedy(tokens, exact, i), i)
    decreases |tokens| - i
  {
    if i < |tokens| {
      match CloserOf(tokens, exact, i)
      case None =>
        GreedyIsDisjoint(tokens, exact, i + 1);
        InOrderFrom(tokens, exact, Greedy(tokens, exact, i + 1), i);
      case Some(c) =>
        GreedyIsDisjoint(tokens, exact, c + 1);
        PrependInOrder(tokens, exact, Match(i, c), Greedy(tokens, exact, c + 1));
    }
  }

  /** A token left out of every span, opener, closer or interior, has no closer of its own. */
  lemma {:induction false} GreedyIsComplete(tokens: seq<Token>, exact: bool, i: nat, t: nat)
    requires i <= t < |tokens|
    requires forall m :: m in Greedy(tokens, exact, i) ==> !(m.opener <= t <= m.closer)
    ensures CloserOf(tokens, exact, t) == None
    decreases |tokens| - i
  {
    match CloserOf(tokens, exact, i)
    case None =>
      if t > i {
        GreedyIsComplete(tokens, exact, i + 1, t);
      }
    case Some(c) =>
      var rest := Greedy(tokens, exact, c + 1);
      assert Match(i, c) in [Match(i, c)] + rest;
      assert forall m :: m in rest ==> m in [Match(i, c)] + rest;
      GreedyIsComplete(tokens, exact, c + 1, t);
  }

  /** `done` are the first matches of the greedy pairing, which resumes at `i`. */
  ghost predicate Progress(tokens: seq<Token>, exact: bool, done: seq<Match>, i: nat) {
    && i <= |tokens|
    && Greedy(tokens, exact, 0) == done + Greedy(tokens, exact, i)
    && (forall m :: m in done ==> m.opener < |tokens| && m.closer < |tokens|)
  }

  lemma ProgressStep(tokens: seq<Token>, exact: bool, done: seq<Match>, i: nat) returns (done': seq<Match>, i': nat)
    requires i < |tokens| && Progress(tokens, exact, done, i)
    ensures Progress(tokens, exact, done', i')
    ensures CloserOf(tokens, exact, i) == None ==> done' == done && i' == i + 1
    ensures CloserOf(tokens, exact, i).Some? ==>
              var c := CloserOf(tokens, exact, i).value; done' == done + [Match(i, c)] && i' == c + 1
  {
    match CloserOf(tokens, exact, i)
    case None =>
      done', i' := done, i + 1;
    case Some(c) =>
      done', i' := done + [Match(i, c)], c + 1;
      assert done + ([Match(i, c)] + Greedy(tokens, exact, i')) == done' + Greedy(tokens, exact, i');
  }

  // ---------- scripts/check_specs.py: equal width ----------

  datatype Span = Span(start: nat, end: nat, width: int)

  function SpanOf(tokens: seq<Token>, m: Match): Span
    requires m.opener < |tokens| && m.closer < |tokens|
  {
    Span(tokens[m.opener].opensAt, tokens[m.closer].run.end, tokens[m.opener].OpeningWidth())
  }

  function Lookup<K, V>(table: map<K, V>, k: K): Option<V> {
    if k in table then Some(table[k]) else None
  }

  /** Every entry of the width table is the first closer at or after `from`. */
  ghost predicate TableOk(tokens: seq<Token>, exact: bool, table: map<(nat, int), nat>, from: nat)
    requires from <= |tokens|
  {
    forall block: nat, width: int {:trigger FirstCloser(tokens, exact, block, width, from)} :: width > 0
      ==> Lookup(table, (block, width)) == FirstCloser(tokens, exact, block, width, from)
  }

  /** The spans are those of the matches, in order. */
  ghost predicate SpansOf(tokens: seq<Token>, spans: seq<Span>, matches: seq<Match>) {
    && |spans| == |matches|
    && forall k :: 0 <= k < |matches| ==>
        matches[k].opener < |tokens| && matches[k].closer < |tokens| && spans[k] == SpanOf(tokens, matches[k])
  }

  method PairEqualWidth(tokens: seq<Token>) returns (spans: seq<Span>)
    requires TokensOk(tokens)
    ensures SpansOf(tokens, spans, Greedy(tokens, true, 0))
  {
    var nextClosing: seq<Option<nat>> := seq(|tokens|, _ => None);
    var latest: map<(nat, int), nat> := map[];
    var tokenIndex := |tokens|;
    while tokenIndex > 0
      invariant 0 <= tokenIndex <= |tokens| == |nextClosing|
      invariant TableOk(tokens, true, latest, tokenIndex)
      invariant forall i :: tokenIndex <= i < |tokens| ==> nextClosing[i] == CloserOf(tokens, true, i)
      invariant forall i :: 0 <= i < tokenIndex ==> nextClosing[i] == None
    {
      tokenIndex := tokenIndex - 1;
      var token := tokens[tokenIndex];
      assert token in tokens;
      if token.OpeningWidth() != 0 {
        nextClosing := nextClosing[tokenIndex := Lookup(latest, (token.block, token.OpeningWidth()))];
      }
      assert nextClosing[tokenIndex] == CloserOf(tokens, true, tokenIndex);
      latest := latest[(token.block, token.run.Width()) := tokenIndex];
    }
    spans := PairForward(tokens, nextClosing);
  }

  /** The forward loop: an opener takes its closer, and the search goes on after it. */
  method PairForward(tokens: seq<Token>, nextClosing: seq<Option<nat>>) returns (spans: seq<Span>)
    requires |nextClosing| == |tokens| && forall i :: 0 <= i < |tokens| ==> nextClosing[i] == CloserOf(tokens, true, i)
    ensures SpansOf(tokens, spans, Greedy(tokens, true, 0))
  {
    spans := [];
    ghost var done: seq<Match> := [];
    var tokenIndex := 0;
    while tokenIndex < |tokens|
      invariant Progress(tokens, true, done, tokenIndex) && SpansOf(tokens, spans, done)
    {
      var closingIndex := nextClosing[tokenIndex];
      ghost var resume: nat;
      done, resume := ProgressStep(tokens, true, done, tokenIndex);
      if closingIndex.None? {
        tokenIndex := tokenIndex + 1;
        continue;
      }
      spans := spans + [SpanOf(tokens, Match(tokenIndex, closingIndex.value))];
      tokenIndex := closingIndex.value + 1;
    }
    assert done + [] == done;
  }

  /** Does offset `p` advance the block number?  `check_specs.py` jumps over each run, so it
      never looks at an offset strictly inside one (`skipInterior`); `spec_structure.py` looks
      at every offset. */
  predicate Advances(source: string, eligible: seq<bool>, boundaries: set<nat>, skipInterior: bool, p: nat)
    requires |eligible| == |source|
  {
    p in boundaries && !(skipInterior && Tick(source, eligible, p) && Tick(source, eligible, p - 1))
  }

  function BlockNumber(source: string, eligible: seq<bool>, boundaries: set<nat>, skipInterior: bool, n: nat): nat
    requires |eligible| == |source|
  {
    if n == 0 then 0
    else BlockNumber(source, eligible, boundaries, skipInterior, n - 1)
         + if Advances(source, eligible, boundaries, skipInterior, n - 1) then 1 else 0
  }

  /** Two offsets have one block number exactly when no boundary lies between them. */
  lemma {:induction false} SameBlock(source: string, eligible: seq<bool>, boundaries: set<nat>, skip: bool, a: nat,
                                     b: nat)
    requires |eligible| == |source| && a <= b
    ensures BlockNumber(source, eligible, boundaries, skip, a) <= BlockNumber(source, eligible, boundaries, skip, b)
    ensures BlockNumber(source, eligible, boundaries, skip, a) == BlockNumber(source, eligible, boundaries, skip, b)
            <==> forall p: nat :: a <= p < b ==> !Advances(source, eligible, boundaries, skip, p)
    decreases b - a
  {
    if a < b {
      SameBlock(source, eligible, boundaries, skip, a, b - 1);
    }
  }

  ghost predicate TokenFor(source: string, eligible: seq<bool>, boundaries: set<nat>, skip: bool, run: Run,
                           token: Token)
    requires |eligible| == |source|
  {
    && run.start < |source| && token.run == run
    && token.opensAt == (if Escaped(source, run.start) then run.start + 1 else run.start)
    && token.block == BlockNumber(source, eligible, boundaries, skip, run.start + 1)
  }

  ghost predicate TokensFor(source: string, eligible: seq<bool>, boundaries: set<nat>, skip: bool,
                            runs: seq<Run>, tokens: seq<Token>)
    requires |eligible| == |source|
  {
    && |tokens| == |runs| && AllRuns(source, eligible, runs)
    && forall i :: 0 <= i < |tokens| ==> TokenFor(source, eligible, boundaries, skip, runs[i], tokens[i])
  }

  lemma BlockSkipsRun(source: string, eligible: seq<bool>, boundaries: set<nat>, start: nat, end: nat)
    requires |eligible| == |source| && IsMaximal(source, eligible, Run(start, end))
    ensures BlockNumber(source, eligible, boundaries, true, start + 1) == BlockNumber(source, eligible, boundaries,
        true, end)
  {
    SameBlock(source, eligible, boundaries, true, start + 1, end);
  }

  /** Tokens and runs of the text before `n`. */
  ghost predicate Scanned(source: string, eligible: seq<bool>, boundaries: set<nat>, runs: seq<Run>, tokens: seq<Token>,
                          n: int)
    requires |eligible| == |source|
  {
    && |runs| == |tokens| && RunsUpTo(source, eligible, runs, n)
    && forall i :: 0 <= i < |tokens| ==> TokenFor(source, eligible, boundaries, true, runs[i], tokens[i])
  }

  lemma SkipPlain(source: string, eligible: seq<bool>, boundaries: set<nat>, runs: seq<Run>, tokens: seq<Token>, n: nat)
    requires |eligible| == |source| && Scanned(source, eligible, boundaries, runs, tokens, n)
        && !Tick(source, eligible, n)
    ensures Scanned(source, eligible, boundaries, runs, tokens, n + 1)
  {
  }

  lemma TakeRun(source: string, eligible: seq<bool>, boundaries: set<nat>, runs: seq<Run>, tokens: seq<Token>, r: Run,
                t: Token)
    requires |eligible| == |source| && Scanned(source, eligible, boundaries, runs, tokens, r.start)
    requires IsMaximal(source, eligible, r) && TokenFor(source, eligible, boundaries, true, r, t)
    ensures Scanned(source, eligible, boundaries, runs + [r], tokens + [t], r.end)
  {
    ExtendRuns(source, eligible, runs, r);
  }

  function RunsOf(tokens: seq<Token>): seq<Run> { seq(|tokens|, i requires 0 <= i < |tokens| => tokens[i].run) }

  lemma RunsAreTheirs(source: string, eligible: seq<bool>, boundaries: set<nat>, skip: bool,
                      runs: seq<Run>, tokens: seq<Token>)
    requires |eligible| == |source| && TokensFor(source, eligible, boundaries, skip, runs, tokens)
    ensures runs == RunsOf(tokens)
  {
    assert forall i :: 0 <= i < |tokens| ==> TokenFor(source, eligible, boundaries, skip, runs[i], tokens[i]);
  }

  /** The token loop of `noncrossing_markdown_code_spans`. */
  method ScanTokens(source: string, eligible: seq<bool>, boundaries: set<nat>) returns (tokens: seq<Token>)
    requires |eligible| == |source|
    ensures TokensFor(source, eligible, boundaries, true, RunsOf(tokens), tokens)
  {
    var escaped := EscapeFlags(source);
    tokens := [];
    ghost var runs: seq<Run> := [];
    var block := 0;
    var index := 0;
    while index < |source|
      invariant 0 <= index <= |source| && Scanned(source, eligible, boundaries, runs, tokens, index)
      invariant Tick(source, eligible, index) ==> !Tick(source, eligible, index - 1)
      invariant block == BlockNumber(source, eligible, boundaries, true, index)
    {
      if index in boundaries {
        block := block + 1;
      }
      if source[index] != '`' || !eligible[index] {
        SkipPlain(source, eligible, boundaries, runs, tokens, index);
        index := index + 1;
        continue;
      }
      var end := RunEnd(source, eligible, index);
      var openingStart := if escaped[index] then index + 1 else index;
      TakeRun(source, eligible, boundaries, runs, tokens, Run(index, end), Token(Run(index, end), block, openingStart));
      BlockSkipsRun(source, eligible, boundaries, index, end);
      tokens := tokens + [Token(Run(index, end), block, openingStart)];
      runs := runs + [Run(index, end)];
      index := end;
    }
    RunsAreTheirs(source, eligible, boundaries, true, runs, tokens);
  }

  lemma TokensForOk(source: string, eligible: seq<bool>, boundaries: set<nat>, skip: bool,
                    runs: seq<Run>, tokens: seq<Token>)
    requires |eligible| == |source| && TokensFor(source, eligible, boundaries, skip, runs, tokens)
    ensures TokensOk(tokens) && RunsInOrder(tokens)
  {
    assert forall i :: 0 <= i < |tokens| ==> IsMaximal(source, eligible, runs[i]) && tokens[i].run == runs[i];
  }

  /** No block boundary lies between the two ends of a code span. */
  lemma SpanStaysInBlock(source: string, eligible: seq<bool>, boundaries: set<nat>, skip: bool, exact: bool,
                         runs: seq<Run>, tokens: seq<Token>, matches: seq<Match>, m: Match)
    requires |eligible| == |source| && TokensFor(source, eligible, boundaries, skip, runs, tokens)
    requires InOrder(tokens, exact, matches, 0) && m in matches
    ensures m.opener < m.closer < |tokens|
    ensures forall p: nat :: tokens[m.opener].run.start < p <= tokens[m.closer].run.start ==>
              !Advances(source, eligible, boundaries, skip, p)
  {
    TokensForOk(source, eligible, boundaries, skip, runs, tokens);
    assert TokenFor(source, eligible, boundaries, skip, runs[m.opener], tokens[m.opener]);
    assert TokenFor(source, eligible, boundaries, skip, runs[m.closer], tokens[m.closer]);
    SameBlock(source, eligible, boundaries, skip, tokens[m.opener].run.start + 1, tokens[m.closer].run.start + 1);
  }

  /** `noncrossing_markdown_code_spans`: scanning and table pairing together. */
  method NoncrossingCodeSpans(source: string, eligible: seq<bool>, boundaries: set<nat>)
    returns (spans: seq<Span>, tokens: seq<Token>)
    requires |eligible| == |source|
    ensures TokensFor(source, eligible, boundaries, true, RunsOf(tokens), tokens)
    ensures var matches := Greedy(tokens, true, 0);
        InOrder(tokens, true, matches, 0) && SpansOf(tokens, spans, matches)
  {
    tokens := ScanTokens(source, eligible, boundaries);
    TokensForOk(source, eligible, boundaries, true, RunsOf(tokens), tokens);
    spans := PairEqualWidth(tokens);
    GreedyIsDisjoint(tokens, true, 0);
  }

  // ---------- scripts/spec_structure.py: at least as wide ----------

  /** Widths from `i` on, counted once each: what the reverse loop writes into its table. */
  function WidthsFrom(tokens: seq<Token>, i: nat): int
    requires i <= |tokens|
    decreases |tokens| - i
  {
    if i == |tokens| then 0 else tokens[i].run.Width() + WidthsFrom(tokens, i + 1)
  }

  /** Disjoint runs in order take no more room than the source. */
  lemma {:induction false} WidthsFit(tokens: seq<Token>, i: nat, n: nat)
    requires i <= |tokens| && TokensOk(tokens)
    requires forall j :: 0 <= j < |tokens| ==> tokens[j].run.end <= n
    requires RunsInOrder(tokens)
    ensures 0 <= WidthsFrom(tokens, i) <= n - (if i < |tokens| then tokens[i].run.start else n)
    decreases |tokens| - i
  {
    if i < |tokens| {
      assert tokens[i] in tokens;
      WidthsFit(tokens, i + 1, n);
    }
  }

  datatype WideSpan = WideSpan(openStart: nat, openEnd: nat, closeStart: nat, closeEnd: nat)

  function WideSpanOf(tokens: seq<Token>, m: Match): WideSpan
    requires m.opener < |tokens| && m.closer < |tokens|
  {
    WideSpan(tokens[m.opener].opensAt, tokens[m.opener].run.end, tokens[m.closer].run.start, tokens[m.closer].run.end)
  }

  /** The first closer at or after `t`, if `t` claims the widths up to `filled` only. */
  function Claimed(tokens: seq<Token>, t: nat, filled: int, block: nat, width: int): Option<nat>
    requires t < |tokens|
  {
    if block == tokens[t].block && width <= filled then Some(t) else FirstCloser(tokens, false, block, width, t + 1)
  }

  ghost predicate TableFilling(tokens: seq<Token>, table: map<(nat, int), nat>, t: nat, filled: int)
    requires t < |tokens|
  {
    forall block: nat, width: int :: width > 0 ==>
      Lookup(table, (block, width)) == Claimed(tokens, t, filled, block, width)
  }

  lemma FillingStep(tokens: seq<Token>, table: map<(nat, int), nat>, t: nat, width: nat)
    requires t < |tokens| && TableFilling(tokens, table, t, width)
    ensures TableFilling(tokens, table[(tokens[t].block, width + 1) := t], t, width + 1)
  {
    var next := table[(tokens[t].block, width + 1) := t];
    forall b: nat, w: int | w > 0
      ensures Lookup(next, (b, w)) == Claimed(tokens, t, width + 1, b, w)
    {
      assert Lookup(table, (b, w)) == Claimed(tokens, t, width, b, w);
    }
  }

  lemma Filled(tokens: seq<Token>, table: map<(nat, int), nat>, t: nat)
    requires t < |tokens| && TableFilling(tokens, table, t, tokens[t].run.Width())
    ensures TableOk(tokens, false, table, t)
  {
    forall block: nat, width: int | width > 0
      ensures Lookup(table, (block, width)) == FirstCloser(tokens, false, block, width, t)
    {
      assert Lookup(table, (block, width)) == Claimed(tokens, t, tokens[t].run.Width(), block, width);
    }
  }

  /** One turn of the reverse loop: look the opener up, then claim widths 1..=run width. */
  method ClaimWidths(tokens: seq<Token>, table: map<(nat, int), nat>, t: nat)
    returns (nearest: map<(nat, int), nat>, ghost updates: int)
    requires TokensOk(tokens) && t < |tokens| && TableOk(tokens, false, table, t + 1)
    ensures TableOk(tokens, false, nearest, t) && updates == tokens[t].run.Width()
  {
    nearest, updates := table, 0;
    assert tokens[t] in tokens;
    assert TableFilling(tokens, nearest, t, 0) by {
      assert forall b: nat, w: int :: w > 0 ==> Claimed(tokens, t, 0, b, w) == FirstCloser(tokens, false, b, w, t + 1);
    }
    var width := 1;
    while width < tokens[t].run.Width() + 1
      invariant 1 <= width <= tokens[t].run.Width() + 1 && updates == width - 1
      invariant TableFilling(tokens, nearest, t, width - 1)
    {
      FillingStep(tokens, nearest, t, width - 1);
      nearest := nearest[(tokens[t].block, width) := t];
      width, updates := width + 1, updates + 1;
    }
    Filled(tokens, nearest, t);
  }

  /** The spans are those of the matches, in order. */
  ghost predicate WideSpansOf(tokens: seq<Token>, spans: seq<WideSpan>, matches: seq<Match>) {
    && |spans| == |matches|
    && forall k :: 0 <= k < |matches| ==>
        matches[k].opener < |tokens| && matches[k].closer < |tokens| && spans[k] == WideSpanOf(tokens, matches[k])
  }

  method PairAtLeastAsWide(tokens: seq<Token>)
    returns (spans: seq<WideSpan>, ghost updates: int)
    requires TokensOk(tokens)
    requires RunsInOrder(tokens)
    ensures WideSpansOf(tokens, spans, Greedy(tokens, false, 0))
    ensures updates == WidthsFrom(tokens, 0)
  {
    var closeRunFor: seq<Option<nat>> := seq(|tokens|, _ => None);
    var nearest: map<(nat, int), nat> := map[];
    updates := 0;
    var runIndex := |tokens|;
    while runIndex > 0
      invariant 0 <= runIndex <= |tokens| == |closeRunFor|
      invariant TableOk(tokens, false, nearest, runIndex)
      invariant forall i :: runIndex <= i < |tokens| ==> closeRunFor[i] == CloserOf(tokens, false, i)
      invariant forall i :: 0 <= i < runIndex ==> closeRunFor[i] == None
      invariant updates == WidthsFrom(tokens, runIndex)
    {
      runIndex := runIndex - 1;
      var token := tokens[runIndex];
      if token.OpeningWidth() > 0 {
        closeRunFor := closeRunFor[runIndex := Lookup(nearest, (token.block, token.OpeningWidth()))];
      }
      assert closeRunFor[runIndex] == CloserOf(tokens, false, runIndex);
      ghost var claimed: int;
      nearest, claimed := ClaimWidths(tokens, nearest, runIndex);
      updates := updates + claimed;
    }
    spans := EmitWideSpans(tokens, closeRunFor);
  }

  function ConsumedThrough(tokens: seq<Token>, floor: nat): nat
    requires floor <= |tokens|
  {
    if floor == 0 then 0 else tokens[floor - 1].run.end
  }

  /** The test on offsets passes over the tokens before `floor` and the width-0 openers. */
  lemma PassedOver(tokens: seq<Token>, i: nat, floor: nat)
    requires TokensOk(tokens) && RunsInOrder(tokens) && i < |tokens| && floor <= |tokens|
    ensures var t := tokens[i];
      (t.opensAt >= t.run.end || t.opensAt < ConsumedThrough(tokens, floor)) <==> (i < floor || t.OpeningWidth() <= 0)
  {
    assert tokens[i] in tokens;
    assert floor > 0 ==> tokens[floor - 1] in tokens;
  }

  /** The spans emitted before token `i` are those of the pairing so far, which resumes at `i` or
      after the last span; `floor` is the token after that span. */
  ghost predicate Emitted(tokens: seq<Token>, spans: seq<WideSpan>, done: seq<Match>, floor: nat, i: nat) {
    && floor <= |tokens| && WideSpansOf(tokens, spans, done)
    && Progress(tokens, false, done, if i < floor then floor else i)
  }

  lemma EmitNothing(tokens: seq<Token>, spans: seq<WideSpan>, done: seq<Match>, floor: nat, i: nat)
    requires i < |tokens| && Emitted(tokens, spans, done, floor, i)
    requires i < floor || CloserOf(tokens, false, i) == None
    ensures Emitted(tokens, spans, done, floor, i + 1)
  {
    if floor <= i {
      var same, next := ProgressStep(tokens, false, done, i);
    }
  }

  lemma EmitOne(tokens: seq<Token>, spans: seq<WideSpan>, done: seq<Match>, floor: nat, i: nat, close: nat)
    requires floor <= i < |tokens| && Emitted(tokens, spans, done, floor, i)
    requires CloserOf(tokens, false, i) == Some(close)
    ensures close < |tokens|
    ensures Emitted(tokens, spans + [WideSpanOf(tokens, Match(i, close))], done + [Match(i, close)], close + 1, i + 1)
  {
    var more, next := ProgressStep(tokens, false, done, i);
  }

  lemma {:induction false} EmittedAll(tokens: seq<Token>, spans: seq<WideSpan>, done: seq<Match>, floor: nat)
    requires Emitted(tokens, spans, done, floor, |tokens|)
    ensures WideSpansOf(tokens, spans, Greedy(tokens, false, 0))
  {
    assert done + [] == done;
  }

  /** One turn of the forward loop: an opener inside the text already consumed is passed over. */
  method EmitToken(tokens: seq<Token>, closer: Option<nat>, i: nat, spans0: seq<WideSpan>, consumed0: int,
                   ghost done0: seq<Match>, ghost floor0: nat)
    returns (spans: seq<WideSpan>, consumedThrough: int, ghost done: seq<Match>, ghost floor: nat)
    requires TokensOk(tokens) && RunsInOrder(tokens)
    requires i < |tokens| && Emitted(tokens, spans0, done0, floor0, i) && consumed0 == ConsumedThrough(tokens, floor0)
    requires closer == CloserOf(tokens, false, i)
    ensures Emitted(tokens, spans, done, floor, i + 1) && consumedThrough == ConsumedThrough(tokens, floor)
  {
    spans, consumedThrough, done, floor := spans0, consumed0, done0, floor0;
    PassedOver(tokens, i, floor);
    if tokens[i].opensAt >= tokens[i].run.end || tokens[i].opensAt < consumedThrough || closer.None? {
      EmitNothing(tokens, spans, done, floor, i);
      return;
    }
    var close := closer.value;
    EmitOne(tokens, spans, done, floor, i, close);
    done, floor := done + [Match(i, close)], close + 1;
    spans := spans + [WideSpanOf(tokens, Match(i, close))];
    consumedThrough := tokens[close].run.end;
  }

  /** The forward loop. */
  method EmitWideSpans(tokens: seq<Token>, closeRunFor: seq<Option<nat>>) returns (spans: seq<WideSpan>)
    requires TokensOk(tokens) && |closeRunFor| == |tokens|
    requires RunsInOrder(tokens)
    requires forall i :: 0 <= i < |tokens| ==> closeRunFor[i] == CloserOf(tokens, false, i)
    ensures WideSpansOf(tokens, spans, Greedy(tokens, false, 0))
  {
    spans := [];
    var consumedThrough := 0;
    ghost var done: seq<Match>, floor: nat := [], 0;
    for i := 0 to |tokens|
      invariant Emitted(tokens, spans, done, floor, i) && consumedThrough == ConsumedThrough(tokens, floor)
    {
      spans, consumedThrough, done, floor :=
        EmitToken(tokens, closeRunFor[i], i, spans, consumedThrough, done, floor);
    }
    EmittedAll(tokens, spans, done, floor);
  }

  /** The block-number loop of `_inline_code_spans`, over runs found beforehand. */
  method NumberBlocks(source: string, eligible: seq<bool>, boundaries: set<nat>, runs: seq<Run>)
    returns (runBlocks: seq<nat>)
    requires |eligible| == |source| && AllRuns(source, eligible, runs)
    ensures |runBlocks| == |runs|
    ensures forall i :: 0 <= i < |runs| ==>
              runBlocks[i] == BlockNumber(source, eligible, boundaries, false, runs[i].start + 1)
  {
    runBlocks := [];
    var block, scannedThrough := 0, 0;
    for i := 0 to |runs|
      invariant |runBlocks| == i && scannedThrough == if i == 0 then 0 else runs[i - 1].start + 1
      invariant block == BlockNumber(source, eligible, boundaries, false, scannedThrough)
      invariant forall k :: 0 <= k < i ==>
                  runBlocks[k] == BlockNumber(source, eligible, boundaries, false, runs[k].start + 1)
    {
      assert i > 0 ==> runs[i - 1].start < runs[i].start by {
        assert i > 0 ==> IsMaximal(source, eligible, runs[i - 1]);
      }
      while scannedThrough <= runs[i].start
        invariant scannedThrough <= runs[i].start + 1
        invariant block == BlockNumber(source, eligible, boundaries, false, scannedThrough)
      {
        if scannedThrough in boundaries {
          block := block + 1;
        }
        scannedThrough := scannedThrough + 1;
      }
      runBlocks := runBlocks + [block];
    }
  }

  /** `_inline_code_spans`: the spans are the greedy at-least-as-wide pairing of the maximal
      runs, and the table takes no more updates than the source has characters. */
  method InlineCodeSpans(source: string, eligible: seq<bool>, boundaries: set<nat>)
    returns (spans: seq<WideSpan>, tokens: seq<Token>, ghost updates: int)
    requires |eligible| == |source|
    ensures TokensFor(source, eligible, boundaries, false, RunsOf(tokens), tokens)
    ensures var matches := Greedy(tokens, false, 0);
        InOrder(tokens, false, matches, 0) && WideSpansOf(tokens, spans, matches)
    ensures updates <= |source|
  {
    var escaped := EscapeFlags(source);
    var found := BacktickRuns(source, eligible);
    var runBlocks := NumberBlocks(source, eligible, boundaries, found);
    tokens := [];
    for i := 0 to |found|
      invariant |tokens| == i
      invariant forall k :: 0 <= k < i ==> TokenFor(source, eligible, boundaries, false, found[k], tokens[k])
    {
      assert IsMaximal(source, eligible, found[i]);
      var start := found[i].start;
      tokens := tokens + [Token(found[i], runBlocks[i], if escaped[start] then start + 1 else start)];
    }
    RunsAreTheirs(source, eligible, boundaries, false, found, tokens);
    TokensForOk(source, eligible, boundaries, false, found, tokens);
    spans, updates := PairAtLeastAsWide(tokens);
    GreedyIsDisjoint(tokens, false, 0);
    WidthsWithin(source, eligible, boundaries, found, tokens);
  }

  lemma {:induction false} WidthsWithin(source: string, eligible: seq<bool>, boundaries: set<nat>, runs: seq<Run>,
                                        tokens: seq<Token>)
    requires |eligible| == |source| && TokensFor(source, eligible, boundaries, false, runs, tokens)
    requires TokensOk(tokens) && RunsInOrder(tokens)
    ensures WidthsFrom(tokens, 0) <= |source|
  {
    forall j | 0 <= j < |tokens|
      ensures tokens[j].run.end <= |source|
    {
      assert IsMaximal(source, eligible, runs[j]);
    }
    WidthsFit(tokens, 0, |source|);
  }

  /** The nearest run at or after `from` that is at least `width` wide. */
  function FirstWide(runs: seq<Run>, width: int, from: nat): (c: Option<nat>)
    requires from <= |runs|
    ensures c.Some? ==> from <= c.value < |runs|
    decreases |runs| - from
  {
    if from == |runs| then None
    else if runs[from].Width() >= width then Some(from)
    else FirstWide(runs, width, from + 1)
  }

  /** What `_table_code_span_ends` records for the backtick at `p`, inside run `i`. */
  function SpanEndAt(source: string, runs: seq<Run>, i: nat, p: nat): Option<nat>
    requires i < |runs| && runs[i].start <= p < runs[i].end <= |source|
  {
    if Escaped(source, p) then None
    else match FirstWide(runs, runs[i].end - p, i + 1)
      case None => None
      case Some(c) => Some(runs[c].end)
  }

  ghost predicate EndsOk(source: string, runs: seq<Run>, ends: map<nat, nat>, from: nat)
    requires forall i :: 0 <= i < |runs| ==> runs[i].start < runs[i].end <= |source|
  {
    && (forall i, p: nat :: from <= i < |runs| && runs[i].start <= p < runs[i].end ==>
          Lookup(ends, p) == SpanEndAt(source, runs, i, p))
    && (forall p :: p in ends ==> exists i :: from <= i < |runs| && runs[i].start <= p < runs[i].end)
  }

  /** `_table_code_span_ends`: every unescaped suffix of every run is mapped to the end of the
      nearest later run at least as wide, and nothing else is mapped. */
  method TableCodeSpanEnds(source: string) returns (spanEnds: map<nat, nat>, runs: seq<Run>)
    ensures AllRuns(source, seq(|source|, _ => true), runs)
    ensures forall i :: 0 <= i < |runs| ==> runs[i].start < runs[i].end <= |source|
    ensures EndsOk(source, runs, spanEnds, 0)
  {
    var escaped := EscapeFlags(source);
    runs := BacktickRuns(source, seq(|source|, _ => true));
    assert forall i :: 0 <= i < |runs| ==> IsMaximal(source, seq(|source|, _ => true), runs[i]);
    var maximumWidth := MaximumWidth(runs);
    var nearestByWidth: seq<Option<nat>> := seq(maximumWidth + 1, _ => None);
    spanEnds := map[];
    var runIndex := |runs|;
    while runIndex > 0
      invariant 0 <= runIndex <= |runs| && |nearestByWidth| == maximumWidth + 1
      invariant forall w :: 1 <= w <= maximumWidth ==> nearestByWidth[w] == FirstWide(runs, w, runIndex)
      invariant EndsOk(source, runs, spanEnds, runIndex)
    {
      runIndex := runIndex - 1;
      var run := runs[runIndex];
      spanEnds := RecordSuffixes(source, runs, runIndex, escaped, nearestByWidth, spanEnds);
      nearestByWidth := ClaimPlainWidths(nearestByWidth, run.Width(), runIndex);
    }
  }

  method MaximumWidth(runs: seq<Run>) returns (widest: nat)
    ensures forall i :: 0 <= i < |runs| ==> runs[i].Width() <= widest
  {
    widest := 0;
    for i := 0 to |runs|
      invariant forall k :: 0 <= k < i ==> runs[k].Width() <= widest
    {
      if runs[i].Width() > widest {
        widest := runs[i].Width();
      }
    }
  }

  method ClaimPlainWidths(nearestByWidth: seq<Option<nat>>, runWidth: int, runIndex: nat)
      returns (next: seq<Option<nat>>)
    requires 0 <= runWidth < |nearestByWidth|
    ensures |next| == |nearestByWidth|
    ensures forall w :: 1 <= w < |next| ==> next[w] == if w <= runWidth then Some(runIndex) else nearestByWidth[w]
  {
    next := nearestByWidth;
    var width := 1;
    while width < runWidth + 1
      invariant 1 <= width <= runWidth + 1 && |next| == |nearestByWidth|
      invariant forall w :: 1 <= w < |next| ==> next[w] == if w < width then Some(runIndex) else nearestByWidth[w]
    {
      next := next[width := Some(runIndex)];
      width := width + 1;
    }
  }

  /** `more` is `ends` with the suffixes of run `r` that start before `opener`. */
  ghost predicate Recorded(source: string, runs: seq<Run>, r: nat, ends: map<nat, nat>, more: map<nat, nat>,
                           opener: nat)
    requires r < |runs| && runs[r].start < runs[r].end <= |source| && opener <= runs[r].end
  {
    forall p: nat {:trigger Lookup(more, p)} ::
      Lookup(more, p) == if runs[r].start <= p < opener then SpanEndAt(source, runs, r, p) else Lookup(ends, p)
  }

  lemma RecordNext(source: string, runs: seq<Run>, r: nat, ends: map<nat, nat>, more: map<nat, nat>, opener: nat)
    requires r < |runs| && runs[r].start <= opener < runs[r].end <= |source|
    requires Recorded(source, runs, r, ends, more, opener) && Lookup(ends, opener) == None
    ensures match SpanEndAt(source, runs, r, opener)
      case None => Recorded(source, runs, r, ends, more, opener + 1)
      case Some(end) => Recorded(source, runs, r, ends, more[opener := end], opener + 1)
  {
    match SpanEndAt(source, runs, r, opener)
    case None =>
    case Some(end) =>
      forall p: nat
        ensures Lookup(more[opener := end], p) ==
          if runs[r].start <= p < opener + 1 then SpanEndAt(source, runs, r, p) else Lookup(ends, p)
      {
        assert Lookup(more, p) == if runs[r].start <= p < opener then SpanEndAt(source, runs, r, p)
          else Lookup(ends, p);
      }
  }

  lemma EndsExtend(source: string, runs: seq<Run>, r: nat, ends: map<nat, nat>, more: map<nat, nat>)
    requires r < |runs|
    requires forall i :: 0 <= i < |runs| ==> runs[i].start < runs[i].end <= |source|
    requires forall i, j :: 0 <= i < j < |runs| ==> runs[i].end < runs[j].start
    requires EndsOk(source, runs, ends, r + 1)
    requires Recorded(source, runs, r, ends, more, runs[r].end)
    ensures EndsOk(source, runs, more, r)
  {
    forall i, p: nat | r <= i < |runs| && runs[i].start <= p < runs[i].end
      ensures Lookup(more, p) == SpanEndAt(source, runs, i, p)
    {
      if i > r {
        assert Lookup(ends, p) == SpanEndAt(source, runs, i, p);
      }
    }
    forall p: nat | p in more
      ensures exists i :: r <= i < |runs| && runs[i].start <= p < runs[i].end
    {
      if !(runs[r].start <= p < runs[r].end) {
        assert Lookup(more, p) == Lookup(ends, p) && Lookup(more, p).Some?;
      }
    }
  }

  lemma NotYetMapped(source: string, runs: seq<Run>, r: nat, ends: map<nat, nat>, p: nat)
    requires r < |runs| && runs[r].start <= p < runs[r].end
    requires forall i :: 0 <= i < |runs| ==> runs[i].start < runs[i].end <= |source|
    requires forall i, j :: 0 <= i < j < |runs| ==> runs[i].end < runs[j].start
    requires EndsOk(source, runs, ends, r + 1)
    ensures Lookup(ends, p) == None
  {
  }

  /** The suffix loop for one run. */
  method RecordSuffixes(source: string, runs: seq<Run>, runIndex: nat, escaped: seq<bool>,
                        nearestByWidth: seq<Option<nat>>, ends: map<nat, nat>) returns (spanEnds: map<nat, nat>)
    requires runIndex < |runs| && |escaped| == |source|
    requires forall i :: 0 <= i < |runs| ==> runs[i].start < runs[i].end <= |source|
    requires forall i, j :: 0 <= i < j < |runs| ==> runs[i].end < runs[j].start
    requires forall i :: 0 <= i < |source| ==> escaped[i] == Escaped(source, i)
    requires runs[runIndex].Width() < |nearestByWidth|
    requires forall w :: 1 <= w < |nearestByWidth| ==> nearestByWidth[w] == FirstWide(runs, w, runIndex + 1)
    requires EndsOk(source, runs, ends, runIndex + 1)
    ensures EndsOk(source, runs, spanEnds, runIndex)
  {
    spanEnds := ends;
    var run := runs[runIndex];
    for opener := run.start to run.end
      invariant Recorded(source, runs, runIndex, ends, spanEnds, opener)
    {
      NotYetMapped(source, runs, runIndex, ends, opener);
      RecordNext(source, runs, runIndex, ends, spanEnds, opener);
      if escaped[opener] {
        continue;
      }
      var close := nearestByWidth[run.end - opener];
      if close.Some? {
        spanEnds := spanEnds[opener := runs[close.value].end];
      }
    }
    EndsExtend(source, runs, runIndex, ends, spanEnds);
  }
}
