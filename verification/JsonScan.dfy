/** The lexical depth scan of the JSON boundary (crates/msgriver-protocol/src/json.rs). */
module JsonScan {
  import opened Wrappers
  import opened Bytes

  /** A text by its codes: bytes for the scanner, characters for the printer. */
  type codes = seq<int>

  const QUOTE: int := '"' as int
  const BACKSLASH: int := '\\' as int

  const MAX_STRUCTURAL_DEPTH := 64

  predicate Opens(b: int) { b == '{' as int || b == '[' as int }

  predicate Closes(b: int) { b == '}' as int || b == ']' as int }

  function Opener(b: int): int { if b == '}' as int then '{' as int else '[' as int }

  // ---------- Reference: strings skimmed away, brackets kept ----------

  datatype Lex = Outside | Inside | Escaped

  /** Where the next code leaves us; a raw control code inside a string goes nowhere. */
  function NextLex(l: Lex, b: int): Option<Lex> {
    match l
    case Outside => Some(if b == QUOTE then Inside else Outside)
    case Escaped => Some(Inside)
    case Inside =>
      if b == BACKSLASH then Some(Escaped)
      else if b == QUOTE then Some(Outside)
      else if b < 0x20 then None
      else Some(Inside)
  }

  datatype Skimmed = Skimmed(end: Lex, word: codes)

  function Kept(l: Lex, b: int): codes {
    if l.Outside? && (Opens(b) || Closes(b)) then [b] else []
  }

  /** The brackets outside strings, in order. */
  function Skim(l: Lex, s: codes): Option<Skimmed>
    decreases s
  {
    if s == [] then Some(Skimmed(l, []))
    else if NextLex(l, s[0]).None? then None
    else
      var rest := Skim(NextLex(l, s[0]).value, s[1..]);
      if rest.None? then None else Some(Skimmed(rest.value.end, Kept(l, s[0]) + rest.value.word))
  }

  /** The bracket word `w` closes everything open in `stack` and itself, never more than 64 deep. */
  predicate Nests(stack: codes, w: codes)
    decreases w
  {
    if w == [] then stack == []
    else if Opens(w[0]) then |stack| < MAX_STRUCTURAL_DEPTH && Nests(stack + [w[0]], w[1..])
    else Closes(w[0]) && stack != [] && stack[|stack| - 1] == Opener(w[0]) && Nests(stack[..|stack| - 1], w[1..])
  }

  /** Balanced brackets as trees: one pair, what it encloses, what follows it. */
  datatype Forest = Empty | Pair(brace: bool, inside: Forest, after: Forest)

  function OpenOf(brace: bool): int { if brace then '{' as int else '[' as int }

  function CloseOf(brace: bool): int { if brace then '}' as int else ']' as int }

  function Word(f: Forest): codes {
    match f
    case Empty => []
    case Pair(brace, inside, after) => [OpenOf(brace)] + (Word(inside) + ([CloseOf(brace)] + Word(after)))
  }

  function Max(a: nat, b: nat): nat { if a < b then b else a }

  function Height(f: Forest): nat {
    match f
    case Empty => 0
    case Pair(_, inside, after) => Max(1 + Height(inside), Height(after))
  }

  ghost predicate Balanced(w: codes) {
    exists f: Forest :: Word(f) == w && Height(f) <= MAX_STRUCTURAL_DEPTH
  }

  /** A text that passes: its strings are closed and hold no raw control code, and its brackets
      outside strings are balanced, at most 64 deep. */
  ghost predicate Acceptable(s: codes) {
    var skimmed := Skim(Outside, s);
    skimmed.Some? && skimmed.value.end == Outside && Balanced(skimmed.value.word)
  }

  // ---------- A stack recognises balanced brackets ----------

  lemma {:induction false} NestsOpen(stack: codes, b: int, w: codes)
    requires Opens(b)
    ensures Nests(stack, [b] + w) <==> |stack| < MAX_STRUCTURAL_DEPTH && Nests(stack + [b], w)
  {
    assert ([b] + w)[1..] == w;
  }

  lemma {:induction false} NestsClose(stack: codes, top: int, b: int, w: codes)
    requires Closes(b) && Opener(b) == top
    ensures Nests(stack + [top], [b] + w) <==> Nests(stack, w)
  {
    assert ([b] + w)[1..] == w && (stack + [top])[..|stack|] == stack;
  }

  /** Around any balanced word the stack comes back as it was, unless the word is too high. */
  lemma {:induction false} ForestNests(f: Forest, stack: codes, rest: codes)
    requires |stack| <= MAX_STRUCTURAL_DEPTH
    ensures Nests(stack, Word(f) + rest) <==> |stack| + Height(f) <= MAX_STRUCTURAL_DEPTH && Nests(stack, rest)
  {
    match f
    case Empty =>
      assert Word(f) + rest == rest;
    case Pair(brace, inside, after) =>
      var open, close := OpenOf(brace), CloseOf(brace);
      var tail := Word(after) + rest;
      assert Word(f) + rest == [open] + (Word(inside) + ([close] + tail));
      NestsOpen(stack, open, Word(inside) + ([close] + tail));
      if |stack| < MAX_STRUCTURAL_DEPTH {
        ForestNests(inside, stack + [open], [close] + tail);
        NestsClose(stack, open, close, tail);
        ForestNests(after, stack, rest);
      }
  }

  function CloserOf(open: int): int { if open == '{' as int then '}' as int else ']' as int }

  /** What is left to read below a stack: a balanced word, the bracket that closes the top, a
      balanced word, and so on. */
  function Spell(stack: codes, fs: seq<Forest>): codes
    requires |fs| == |stack| + 1
  {
    if stack == [] then Word(fs[0])
    else Word(fs[0]) + ([CloserOf(stack[|stack| - 1])] + Spell(stack[..|stack| - 1], fs[1..]))
  }

  predicate Low(depth: int, fs: seq<Forest>) {
    forall k :: 0 <= k < |fs| ==> depth - k + Height(fs[k]) <= MAX_STRUCTURAL_DEPTH
  }

  lemma SpellOpen(stack: codes, b: int, fs: seq<Forest>) returns (gs: seq<Forest>)
    requires Opens(b) && |fs| == |stack| + 2 && Low(|stack| + 1, fs)
    ensures |gs| == |stack| + 1 && Low(|stack|, gs) && Spell(stack, gs) == [b] + Spell(stack + [b], fs)
  {
    var pair := Pair(b == '{' as int, fs[0], fs[1]);
    gs := [pair] + fs[2..];
    LowOpen(|stack|, pair, fs);
    assert (stack + [b])[..|stack|] == stack;
    PairSpells(stack, b, pair, fs[1..], gs);
  }

  lemma {:induction false} PairSpells(stack: codes, b: int, pair: Forest, fs: seq<Forest>, gs: seq<Forest>)
    requires Opens(b) && |fs| == |gs| == |stack| + 1 && gs == [pair] + fs[1..]
    requires pair.Pair? && pair.brace == (b == '{' as int) && pair.after == fs[0]
    ensures Spell(stack, gs) == [b] + (Word(pair.inside) + ([CloserOf(b)] + Spell(stack, fs)))
  {
    var close := [CloserOf(b)];
    if stack == [] {
      PairWord(pair, b, []);
    } else {
      var tail := [CloserOf(stack[|stack| - 1])] + Spell(stack[..|stack| - 1], fs[1..]);
      assert gs[1..] == fs[1..];
      PairWord(pair, b, tail);
    }
  }

  lemma {:induction false} PairWord(pair: Forest, b: int, tail: codes)
    requires Opens(b) && pair.Pair? && pair.brace == (b == '{' as int)
    ensures Word(pair) + tail == [b] + (Word(pair.inside) + ([CloserOf(b)] + (Word(pair.after) + tail)))
    ensures tail == [] ==> Word(pair) == [b] + (Word(pair.inside) + ([CloserOf(b)] + Word(pair.after)))
  {
  }

  lemma LowOpen(n: nat, pair: Forest, fs: seq<Forest>)
    requires |fs| == n + 2 && Low(n + 1, fs) && pair.Pair? && pair.inside == fs[0] && pair.after == fs[1]
    ensures Low(n, [pair] + fs[2..])
  {
    assert n + 1 - 0 + Height(fs[0]) <= MAX_STRUCTURAL_DEPTH && n + 1 - 1 + Height(fs[1]) <= MAX_STRUCTURAL_DEPTH;
    forall k | 1 <= k < n + 1
      ensures n - k + Height(([pair] + fs[2..])[k]) <= MAX_STRUCTURAL_DEPTH
    {
      assert n + 1 - (k + 1) + Height(fs[k + 1]) <= MAX_STRUCTURAL_DEPTH;
    }
  }

  lemma SpellClose(stack: codes, b: int, fs: seq<Forest>) returns (gs: seq<Forest>)
    requires Closes(b) && stack != [] && stack[|stack| - 1] == Opener(b) && |fs| == |stack| && Low(|stack| - 1, fs)
    requires |stack| <= MAX_STRUCTURAL_DEPTH
    ensures |gs| == |stack| + 1 && Low(|stack|, gs) && Spell(stack, gs) == [b] + Spell(stack[..|stack| - 1], fs)
  {
    gs := [Empty] + fs;
    assert gs[1..] == fs;
    forall k | 0 <= k < |gs|
      ensures |stack| - k + Height(gs[k]) <= MAX_STRUCTURAL_DEPTH
    {
      if k > 0 {
        assert |stack| - 1 - (k - 1) + Height(fs[k - 1]) <= MAX_STRUCTURAL_DEPTH;
      }
    }
  }

  lemma {:induction false} NestsSpells(stack: codes, w: codes) returns (fs: seq<Forest>)
    requires Nests(stack, w) && |stack| <= MAX_STRUCTURAL_DEPTH
    ensures |fs| == |stack| + 1 && Low(|stack|, fs) && Spell(stack, fs) == w
    decreases w
  {
    if w == [] {
      fs := [Empty];
    } else {
      assert w == [w[0]] + w[1..];
      if Opens(w[0]) {
        var below := NestsSpells(stack + [w[0]], w[1..]);
        fs := SpellOpen(stack, w[0], below);
      } else {
        var below := NestsSpells(stack[..|stack| - 1], w[1..]);
        fs := SpellClose(stack, w[0], below);
      }
    }
  }

  /** The stack machine accepts exactly the words of balanced brackets at most 64 deep. */
  lemma {:induction false} NestsIsBalanced(w: codes)
    ensures Nests([], w) <==> Balanced(w)
  {
    if Nests([], w) {
      var fs := NestsSpells([], w);
      assert Low(0, fs) && 0 - 0 + Height(fs[0]) <= MAX_STRUCTURAL_DEPTH;
      assert Word(fs[0]) == w;
    }
    if Balanced(w) {
      var f: Forest :| Word(f) == w && Height(f) <= MAX_STRUCTURAL_DEPTH;
      ForestNests(f, [], []);
      assert w + [] == w;
    }
  }

  // ---------- The scanner ----------

  /** Scanning on from `nesting` in state `l` would accept `rest`. */
  predicate AcceptsFrom(l: Lex, nesting: codes, rest: codes) {
    var skimmed := Skim(l, rest);
    skimmed.Some? && skimmed.value.end == Outside && Nests(nesting, skimmed.value.word)
  }

  lemma OneMore(l: Lex, nesting: codes, b: int, rest: codes)
    ensures NextLex(l, b).None? ==> !AcceptsFrom(l, nesting, [b] + rest)
    ensures NextLex(l, b).Some? && (!l.Outside? || !(Opens(b) || Closes(b))) ==>
      (AcceptsFrom(l, nesting, [b] + rest) <==> AcceptsFrom(NextLex(l, b).value, nesting, rest))
    ensures l.Outside? && Opens(b) ==>
      (AcceptsFrom(l, nesting, [b] + rest) <==>
       |nesting| < MAX_STRUCTURAL_DEPTH && AcceptsFrom(l, nesting + [b], rest))
    ensures l.Outside? && Closes(b) ==>
      (AcceptsFrom(l, nesting, [b] + rest) <==>
       nesting != [] && nesting[|nesting| - 1] == Opener(b) && AcceptsFrom(l, nesting[..|nesting| - 1], rest))
  {
    assert ([b] + rest)[1..] == rest;
    if NextLex(l, b).Some? && Skim(NextLex(l, b).value, rest).Some? {
      var word := Skim(NextLex(l, b).value, rest).value.word;
      assert ([b] + word)[1..] == word && [] + word == word;
    }
  }

  function LexOf(inString: bool, escaped: bool): Lex {
    if !inString then Outside else if escaped then Escaped else Inside
  }

  /** `lexical_depth_is_invalid`. */
  method LexicalDepthIsInvalid(input: bytes) returns (invalid: bool)
    ensures invalid <==> !Acceptable(input)
  {
    var nesting: codes := [];
    var inString, escaped := false, false;
    NestsIsBalancedFor(input);
    for i := 0 to |input|
      invariant escaped ==> inString
      invariant |nesting| <= MAX_STRUCTURAL_DEPTH
      invariant Acceptable(input) <==> AcceptsFrom(LexOf(inString, escaped), nesting, input[i..])
    {
      var b: int := input[i];
      assert input[i..] == [b] + input[i + 1..];
      OneMore(LexOf(inString, escaped), nesting, b, input[i + 1..]);
      if inString {
        if escaped {
          escaped := false;
        } else if b == BACKSLASH {
          escaped := true;
        } else if b == QUOTE {
          inString := false;
        } else if b < 0x20 {
          return true;
        }
      } else if b == QUOTE {
        inString := true;
      } else if Opens(b) {
        nesting := nesting + [b];
        if |nesting| > MAX_STRUCTURAL_DEPTH {
          return true;
        }
      } else if Closes(b) {
        if nesting == [] || nesting[|nesting| - 1] != Opener(b) {
          return true;
        }
        nesting := nesting[..|nesting| - 1];
      }
    }
    return inString || escaped || nesting != [];
  }

  lemma NestsIsBalancedFor(s: codes)
    ensures Acceptable(s) <==> AcceptsFrom(Outside, [], s)
  {
    if Skim(Outside, s).Some? {
      NestsIsBalanced(Skim(Outside, s).value.word);
    }
  }
}
