/** JSON values, their text, and what the boundary does with them: the depth scan and the
    visitors of crates/msgriver-protocol/src/json.rs, the request body of
    crates/msgriver-client/src/lib.rs. */
module JsonTree {
  import opened Wrappers
  import opened Bytes
  import opened Text
  import opened JsonScan
  import opened JsonText
  import Hex

  // ---------- Value trees ----------

  /** `Scalar` is a number, `true`, `false` or `null`, by its text. */
  datatype Json =
    Null | Scalar(text: string) | Str(value: string) | Array(items: seq<Json>) | Object(members: seq<Member>)
  datatype Member = Member(key: string, value: Json)

  predicate ScalarText(t: string) {
    forall i :: 0 <= i < |t| ==> 'a' <= t[i] <= 'z' || '0' <= t[i] <= '9' || t[i] in ['+', '-', '.', 'E']
  }

  /** White space between tokens (RFC 8259 section 2). */
  predicate IsGap(t: string) {
    forall i :: 0 <= i < |t| ==> t[i] in [' ', '\t', '\n', '\r']
  }

  predicate ScalarsOk(v: Json)
    decreases v
  {
    match v
    case Null => true
    case Scalar(t) => ScalarText(t)
    case Str(_) => true
    case Array(items) => forall i :: 0 <= i < |items| ==> ScalarsOk(items[i])
    case Object(members) => forall i :: 0 <= i < |members| ==> ScalarsOk(members[i].value)
  }

  function Quoted(s: string): string { ['"'] + (Escape(s) + ['"']) }

  /** The white space at each place where some may stand, by the path to that place. */
  type Gaps = seq<nat> -> string

  ghost predicate AllGaps(gap: Gaps) { forall at :: IsGap(gap(at)) }

  /** The text of a value that stands at `at`, with its white space. */
  function Print(v: Json, gap: Gaps, at: seq<nat>): string
    decreases v, 1
  {
    gap(at + [0]) + (PrintBare(v, gap, at + [1]) + gap(at + [2]))
  }

  function PrintBare(v: Json, gap: Gaps, at: seq<nat>): string
    decreases v, 0
  {
    match v
    case Null => "null"
    case Scalar(t) => t
    case Str(s) => Quoted(s)
    case Array(items) => ['['] + (PrintItems(items, gap, at) + [']'])
    case Object(members) => ['{'] + (PrintMembers(members, gap, at) + ['}'])
  }

  function PrintItems(items: seq<Json>, gap: Gaps, at: seq<nat>): string
    decreases items, 0
  {
    if items == [] then gap(at + [0])
    else if |items| == 1 then Print(items[0], gap, at + [1])
    else Print(items[0], gap, at + [1]) + ([','] + PrintItems(items[1..], gap, at + [2]))
  }

  function PrintMember(m: Member, gap: Gaps, at: seq<nat>): string
    decreases m, 0
  {
    gap(at + [0]) + (Quoted(m.key) + (gap(at + [1]) + ([':'] + Print(m.value, gap, at + [2]))))
  }

  function PrintMembers(members: seq<Member>, gap: Gaps, at: seq<nat>): string
    decreases members, 0
  {
    if members == [] then gap(at + [0])
    else if |members| == 1 then PrintMember(members[0], gap, at + [1])
    else PrintMember(members[0], gap, at + [1]) + ([','] + PrintMembers(members[1..], gap, at + [2]))
  }

  function Depth(v: Json): nat
    decreases v
  {
    match v
    case Array(items) => 1 + DepthOfItems(items)
    case Object(members) => 1 + DepthOfMembers(members)
    case _ => 0
  }

  function DepthOfItems(items: seq<Json>): nat
    decreases items
  {
    if items == [] then 0 else Max(Depth(items[0]), DepthOfItems(items[1..]))
  }

  function DepthOfMembers(members: seq<Member>): nat
    decreases members
  {
    if members == [] then 0 else Max(Depth(members[0].value), DepthOfMembers(members[1..]))
  }

  /** The brackets a value prints. */
  function Brackets(v: Json): codes
    decreases v
  {
    match v
    case Array(items) => ['[' as int] + (BracketsOfItems(items) + [']' as int])
    case Object(members) => ['{' as int] + (BracketsOfMembers(members) + ['}' as int])
    case _ => []
  }

  function BracketsOfItems(items: seq<Json>): codes
    decreases items
  {
    if items == [] then [] else Brackets(items[0]) + BracketsOfItems(items[1..])
  }

  function BracketsOfMembers(members: seq<Member>): codes
    decreases members
  {
    if members == [] then [] else Brackets(members[0].value) + BracketsOfMembers(members[1..])
  }

  // ---------- Skimming printed text ----------

  function Codes(s: string): codes {
    seq(|s|, i requires 0 <= i < |s| => s[i] as int)
  }

  lemma {:induction false} SkimJoin(l: Lex, a: codes, b: codes)
    requires Skim(l, a).Some?
    ensures var r := Skim(l, a).value; var t := Skim(r.end, b);
      Skim(l, a + b) == if t.None? then None else Some(Skimmed(t.value.end, r.word + t.value.word))
    decreases a
  {
    if a == [] {
      assert a + b == b;
      var t := Skim(l, b);
      assert t.Some? ==> [] + t.value.word == t.value.word;
    } else {
      assert (a + b)[1..] == a[1..] + b;
      var m := NextLex(l, a[0]).value;
      SkimJoin(m, a[1..], b);
      var t := Skim(Skim(m, a[1..]).value.end, b);
      if t.Some? {
        Reassociate(Kept(l, a[0]), Skim(m, a[1..]).value.word, t.value.word);
      }
    }
  }

  lemma CodesJoin(s: string, t: string)
    ensures Codes(s + t) == Codes(s) + Codes(t)
  {
  }

  lemma {:induction false} SkimHead(l: Lex, s: string)
    requires s != "" && NextLex(l, s[0] as int).Some? && Kept(l, s[0] as int) == []
    ensures Skim(l, Codes(s)) == Skim(NextLex(l, s[0] as int).value, Codes(s[1..]))
  {
    assert Codes(s)[0] == s[0] as int && Codes(s)[1..] == Codes(s[1..]);
    var rest := Skim(NextLex(l, s[0] as int).value, Codes(s[1..]));
    assert rest.Some? ==> [] + rest.value.word == rest.value.word;
  }

  /** Text that starts and ends outside strings and shows the brackets `w`. */
  predicate Shows(s: string, w: codes) { Skim(Outside, Codes(s)) == Some(Skimmed(Outside, w)) }

  lemma ShowsJoin(s: string, w: codes, t: string, x: codes)
    requires Shows(s, w) && Shows(t, x)
    ensures Shows(s + t, w + x)
  {
    CodesJoin(s, t);
    SkimJoin(Outside, Codes(s), Codes(t));
  }

  predicate Inert(c: char) { c as int != QUOTE && !Opens(c as int) && !Closes(c as int) }

  lemma {:induction false} InertShows(s: string)
    requires forall i :: 0 <= i < |s| ==> Inert(s[i])
    ensures Shows(s, [])
  {
    if s != "" {
      InertShows(s[1..]);
      SkimHead(Outside, s);
    }
  }

  lemma BracketShows(c: char)
    requires Opens(c as int) || Closes(c as int)
    ensures Shows([c], [c as int])
  {
    assert Codes([c])[1..] == [] && Codes([c])[0] == c as int;
    assert Skim(Outside, []) == Some(Skimmed(Outside, []));
    assert [c as int] + [] == [c as int];
  }

  predicate Plain(c: char) { c as int >= 0x20 && c != '"' && c != '\\' }

  lemma {:induction false} PlainStaysInside(s: string)
    requires forall i :: 0 <= i < |s| ==> Plain(s[i])
    ensures Skim(Inside, Codes(s)) == Some(Skimmed(Inside, []))
  {
    if s != "" {
      PlainStaysInside(s[1..]);
      SkimHead(Inside, s);
    }
  }

  lemma EscapedStaysInside(c: char)
    ensures Skim(Inside, Codes(['\\', c])) == Some(Skimmed(Inside, []))
  {
    var s := ['\\', c];
    SkimHead(Inside, s);
    assert s[1..] == [c];
    SkimHead(Escaped, [c]);
  }

  lemma DigitIsPlain(d: nat)
    requires d < 16
    ensures Plain(Hex.Digit(d))
  {
  }

  lemma HexStaysInside(n: nat)
    ensures Skim(Inside, Codes(Hex4(n))) == Some(Skimmed(Inside, []))
  {
    DigitIsPlain(n / 0x1000 % 16);
    DigitIsPlain(n / 0x100 % 16);
    DigitIsPlain(n / 0x10 % 16);
    DigitIsPlain(n % 16);
    PlainStaysInside(Hex4(n));
  }

  lemma PieceStaysInside(c: char)
    ensures Skim(Inside, Codes(EscapeChar(c))) == Some(Skimmed(Inside, []))
  {
    if |EscapeChar(c)| == 2 {
      EscapedStaysInside(EscapeChar(c)[1]);
    } else if |EscapeChar(c)| == 1 {
      PlainStaysInside([c]);
    } else {
      HexStaysInside(c as int);
      EscapedStaysInside('u');
      CodesJoin(['\\', 'u'], Hex4(c as int));
      SkimJoin(Inside, Codes(['\\', 'u']), Codes(Hex4(c as int)));
    }
  }

  lemma {:induction false} EscapeStaysInside(s: string)
    ensures Skim(Inside, Codes(Escape(s))) == Some(Skimmed(Inside, []))
  {
    if s != "" {
      PieceStaysInside(s[0]);
      EscapeStaysInside(s[1..]);
      CodesJoin(EscapeChar(s[0]), Escape(s[1..]));
      SkimJoin(Inside, Codes(EscapeChar(s[0])), Codes(Escape(s[1..])));
    }
  }

  lemma QuotedShows(s: string)
    ensures Shows(Quoted(s), [])
  {
    var body := Escape(s) + ['"'];
    EscapeStaysInside(s);
    CodesJoin(Escape(s), ['"']);
    SkimJoin(Inside, Codes(Escape(s)), Codes(['"']));
    assert Codes(['"'])[1..] == [];
    assert Skim(Inside, Codes(['"'])) == Some(Skimmed(Outside, []));
    assert Codes(Quoted(s))[1..] == Codes(body);
  }

  // ---------- The scanner and printed values ----------

  lemma GapShows(gap: string)
    requires IsGap(gap)
    ensures Shows(gap, [])
  {
    InertShows(gap);
  }

  lemma Wrap(before: string, s: string, w: codes, after: string)
    requires IsGap(before) && IsGap(after) && Shows(s, w)
    ensures Shows(before + (s + after), w)
  {
    GapShows(before);
    GapShows(after);
    ShowsJoin(s, w, after, []);
    ShowsJoin(before, [], s + after, w + []);
    assert [] + (w + []) == w;
  }

  lemma Enclose(open: char, s: string, w: codes, close: char)
    requires Opens(open as int) && Closes(close as int) && Shows(s, w)
    ensures Shows([open] + (s + [close]), [open as int] + (w + [close as int]))
  {
    BracketShows(open);
    BracketShows(close);
    ShowsJoin(s, w, [close], [close as int]);
    ShowsJoin([open], [open as int], s + [close], w + [close as int]);
  }

  /** `s`, an inert mark and `t`. */
  lemma Separate(s: string, w: codes, mark: char, t: string, x: codes)
    requires Inert(mark) && Shows(s, w) && Shows(t, x)
    ensures Shows(s + ([mark] + t), w + x)
  {
    InertShows([mark]);
    ShowsJoin([mark], [], t, x);
    assert [] + x == x;
    ShowsJoin(s, w, [mark] + t, x);
  }

  lemma {:induction false} PrintShows(v: Json, gap: Gaps, at: seq<nat>)
    requires ScalarsOk(v) && AllGaps(gap)
    ensures Shows(Print(v, gap, at), Brackets(v))
    decreases v, 1
  {
    BareShows(v, gap, at + [1]);
    Wrap(gap(at + [0]), PrintBare(v, gap, at + [1]), Brackets(v), gap(at + [2]));
  }

  lemma {:induction false} BareShows(v: Json, gap: Gaps, at: seq<nat>)
    requires ScalarsOk(v) && AllGaps(gap)
    ensures Shows(PrintBare(v, gap, at), Brackets(v))
    decreases v, 0
  {
    match v
    case Null => InertShows("null");
    case Scalar(t) => InertShows(t);
    case Str(s) => QuotedShows(s);
    case Array(items) =>
      ItemsShow(items, gap, at);
      Enclose('[', PrintItems(items, gap, at), BracketsOfItems(items), ']');
    case Object(members) =>
      MembersShow(members, gap, at);
      Enclose('{', PrintMembers(members, gap, at), BracketsOfMembers(members), '}');
  }

  lemma {:induction false} ItemsShow(items: seq<Json>, gap: Gaps, at: seq<nat>)
    requires (forall i :: 0 <= i < |items| ==> ScalarsOk(items[i])) && AllGaps(gap)
    ensures Shows(PrintItems(items, gap, at), BracketsOfItems(items))
    decreases items, 0
  {
    if items == [] {
      GapShows(gap(at + [0]));
    } else {
      var here, later := at + [1], at + [2];
      PrintShows(items[0], gap, here);
      if |items| == 1 {
        assert BracketsOfItems(items) == Brackets(items[0]) + [] == Brackets(items[0]);
      } else {
        ItemsShow(items[1..], gap, later);
        Separate(Print(items[0], gap, here), Brackets(items[0]), ',', PrintItems(items[1..], gap, later),
                 BracketsOfItems(items[1..]));
      }
    }
  }

  lemma {:induction false} MemberShows(m: Member, gap: Gaps, at: seq<nat>)
    requires ScalarsOk(m.value) && AllGaps(gap)
    ensures Shows(PrintMember(m, gap, at), Brackets(m.value))
    decreases m, 0
  {
    var w, before, after, value := Brackets(m.value), gap(at + [0]), gap(at + [1]), Print(m.value, gap, at + [2]);
    PrintShows(m.value, gap, at + [2]);
    GapShows(before);
    GapShows(after);
    QuotedShows(m.key);
    assert [] + w == w;
    Separate(after, [], ':', value, w);
    ShowsJoin(Quoted(m.key), [], after + ([':'] + value), w);
    ShowsJoin(before, [], Quoted(m.key) + (after + ([':'] + value)), w);
  }

  lemma {:induction false} MembersShow(members: seq<Member>, gap: Gaps, at: seq<nat>)
    requires (forall i :: 0 <= i < |members| ==> ScalarsOk(members[i].value)) && AllGaps(gap)
    ensures Shows(PrintMembers(members, gap, at), BracketsOfMembers(members))
    decreases members, 0
  {
    if members == [] {
      GapShows(gap(at + [0]));
    } else {
      var here, later := at + [1], at + [2];
      MemberShows(members[0], gap, here);
      if |members| == 1 {
        assert BracketsOfMembers(members) == Brackets(members[0].value) + [] == Brackets(members[0].value);
      } else {
        MembersShow(members[1..], gap, later);
        Separate(PrintMember(members[0], gap, here), Brackets(members[0].value), ',',
                 PrintMembers(members[1..], gap, later),
                 BracketsOfMembers(members[1..]));
      }
    }
  }

  // ---------- Depth ----------

  lemma {:induction false} BracketsNest(v: Json, stack: codes, rest: codes)
    requires |stack| <= MAX_STRUCTURAL_DEPTH
    ensures Nests(stack, Brackets(v) + rest) <==> |stack| + Depth(v) <= MAX_STRUCTURAL_DEPTH && Nests(stack, rest)
    decreases v
  {
    match v
    case Array(items) =>
      if |stack| < MAX_STRUCTURAL_DEPTH {
        ItemsNest(items, stack + ['[' as int], [']' as int] + rest);
      }
      Around(stack, '[' as int, BracketsOfItems(items), ']' as int, rest);
    case Object(members) =>
      if |stack| < MAX_STRUCTURAL_DEPTH {
        MembersNest(members, stack + ['{' as int], ['}' as int] + rest);
      }
      Around(stack, '{' as int, BracketsOfMembers(members), '}' as int, rest);
    case _ => assert [] + rest == rest;
  }

  lemma {:induction false} Around(stack: codes, open: int, w: codes, close: int, rest: codes)
    requires Opens(open) && Closes(close) && Opener(close) == open
    ensures Nests(stack, ([open] + (w + [close])) + rest) <==>
      |stack| < MAX_STRUCTURAL_DEPTH && Nests(stack + [open], w + ([close] + rest))
    ensures Nests(stack + [open], [close] + rest) <==> Nests(stack, rest)
  {
    assert ([open] + (w + [close])) + rest == [open] + (w + ([close] + rest));
    NestsOpen(stack, open, w + ([close] + rest));
    NestsClose(stack, open, close, rest);
  }

  lemma {:induction false} ItemsNest(items: seq<Json>, stack: codes, rest: codes)
    requires |stack| <= MAX_STRUCTURAL_DEPTH
    ensures Nests(stack, BracketsOfItems(items) + rest) <==>
      |stack| + DepthOfItems(items) <= MAX_STRUCTURAL_DEPTH && Nests(stack, rest)
    decreases items
  {
    if items == [] {
      assert [] + rest == rest;
    } else {
      Reassociate(Brackets(items[0]), BracketsOfItems(items[1..]), rest);
      BracketsNest(items[0], stack, BracketsOfItems(items[1..]) + rest);
      ItemsNest(items[1..], stack, rest);
    }
  }

  lemma {:induction false} MembersNest(members: seq<Member>, stack: codes, rest: codes)
    requires |stack| <= MAX_STRUCTURAL_DEPTH
    ensures Nests(stack, BracketsOfMembers(members) + rest) <==>
      |stack| + DepthOfMembers(members) <= MAX_STRUCTURAL_DEPTH && Nests(stack, rest)
    decreases members
  {
    if members == [] {
      assert [] + rest == rest;
    } else {
      Reassociate(Brackets(members[0].value), BracketsOfMembers(members[1..]), rest);
      BracketsNest(members[0].value, stack, BracketsOfMembers(members[1..]) + rest);
      MembersNest(members[1..], stack, rest);
    }
  }

  // ---------- Bytes and characters ----------

  lemma HighBytes(c: char)
    requires c as int >= 0x80
    ensures forall i :: 0 <= i < |Utf8Char(c)| ==> Utf8Char(c)[i] >= 0x80
  {
  }

  lemma {:induction false} HighSkim(l: Lex, b: codes)
    requires b != [] && forall i :: 0 <= i < |b| ==> b[i] >= 0x80
    ensures Skim(l, b) == Some(Skimmed(NextLex(l, 0x80).value, []))
    decreases b
  {
    var m := NextLex(l, b[0]).value;
    if |b| > 1 {
      HighSkim(m, b[1..]);
    } else {
      assert Skim(m, b[1..]) == Some(Skimmed(m, []));
    }
    assert Kept(l, b[0]) + [] == [];
  }

  /** Scanning the bytes of a text is scanning its characters. */
  lemma {:induction false} SkimUtf8(l: Lex, s: string)
    ensures Skim(l, Utf8(s)) == Skim(l, Codes(s))
    decreases s
  {
    if s != "" {
      var c := s[0] as int;
      assert Codes(s)[0] == c && Codes(s)[1..] == Codes(s[1..]);
      if c < 0x80 {
        assert Utf8(s)[0] == c && Utf8(s)[1..] == Utf8(s[1..]);
        if NextLex(l, c).Some? {
          SkimUtf8(NextLex(l, c).value, s[1..]);
        }
      } else {
        HighBytes(s[0]);
        HighSkim(l, Utf8Char(s[0]));
        SkimJoin(l, Utf8Char(s[0]), Utf8(s[1..]));
        SkimHead(l, s);
        SkimUtf8(NextLex(l, c).value, s[1..]);
        var rest := Skim(NextLex(l, c).value, Utf8(s[1..]));
        assert rest.Some? ==> [] + rest.value.word == rest.value.word;
      }
    }
  }

  /** For every value and any white space at each place between its tokens, the scanner accepts
      its bytes exactly when the value nests at most 64 deep. */
  lemma {:induction false} ScanIsExact(v: Json, gap: Gaps, at: seq<nat>)
    requires ScalarsOk(v) && AllGaps(gap)
    ensures Acceptable(Utf8(Print(v, gap, at))) <==> Depth(v) <= 64
  {
    SkimUtf8(Outside, Print(v, gap, at));
    PrintShows(v, gap, at);
    NestsIsBalanced(Brackets(v));
    BracketsNest(v, [], []);
    assert Brackets(v) + [] == Brackets(v);
  }

  // ---------- The request body ----------

  datatype Names = Names(key: string, body: string, title: string)

  const NAMES: Names := Names("idempotency_key", "body", "title")

  datatype SubmitRequest = SubmitRequest(idempotencyKey: string, body: string, title: Option<string>)

  function TitleValue(r: SubmitRequest): Json { if r.title.Some? then Str(r.title.value) else Null }

  /** The object the body stands for. */
  function Submission(names: Names, r: SubmitRequest): Json {
    Object([Member(names.key, Str(r.idempotencyKey)), Member(names.body, Str(r.body)),
            Member(names.title, TitleValue(r))])
  }

  predicate AllPlain(s: string) { forall i :: 0 <= i < |s| ==> Plain(s[i]) && !IsControl(s[i]) }

  lemma {:induction false} PlainUnchanged(s: string)
    requires AllPlain(s)
    ensures Escape(s) == s
  {
    if s != "" {
      PlainUnchanged(s[1..]);
      HeadAndTail(s);
    }
  }

  const NO_GAPS: Gaps := _ => ""

  /** The text of a value without white space. */
  function Tight(v: Json): string { Print(v, NO_GAPS, []) }

  lemma {:induction false} PrintTight(v: Json, at: seq<nat>)
    ensures Print(v, NO_GAPS, at) == PrintBare(v, NO_GAPS, at + [1])
  {
    var bare := PrintBare(v, NO_GAPS, at + [1]);
    assert bare + "" == bare && "" + bare == bare;
  }

  lemma {:induction false} MemberTight(m: Member, at: seq<nat>, value: string)
    requires value == PrintBare(m.value, NO_GAPS, at + [2] + [1])
    ensures PrintMember(m, NO_GAPS, at) == Quoted(m.key) + ([':'] + value)
  {
    PrintTight(m.value, at + [2]);
    var rest := [':'] + value;
    assert "" + rest == rest && "" + (Quoted(m.key) + rest) == Quoted(m.key) + rest;
  }

  lemma {:induction false} ThreeMembers(a: Member, b: Member, c: Member, gap: Gaps, p: seq<nat>, q: seq<nat>,
                                        t: seq<nat>)
    requires q == p + [2] && t == q + [2]
    ensures PrintMembers([a, b, c], gap, p) ==
      PrintMember(a, gap, p + [1]) + ([','] + (PrintMember(b, gap, q + [1]) + ([','] + PrintMember(c, gap, t + [1]))))
  {
    var all, two, one := [a, b, c], [b, c], [c];
    assert all[1..] == two && two[1..] == one;
    assert PrintMembers(one, gap, t) == PrintMember(c, gap, t + [1]);
    assert PrintMembers(two, gap, q) == PrintMember(b, gap, q + [1]) + ([','] + PrintMembers(one, gap, t));
    assert PrintMembers(all, gap, p) == PrintMember(a, gap, p + [1]) + ([','] + PrintMembers(two, gap, q));
  }

  function TitleText(r: SubmitRequest): string { if r.title.Some? then Quoted(r.title.value) else "null" }

  lemma KeyNameIsPlain()
    ensures AllPlain(NAMES.key)
  {
    var name := "idempotency_key";
    assert AllPlain(name);
  }

  lemma OtherNamesArePlain()
    ensures AllPlain(NAMES.body) && AllPlain(NAMES.title)
  {
    var body, title := "body", "title";
    assert AllPlain(body) && AllPlain(title);
  }

  lemma MemberThen(name: string, value: string, rest: string)
    ensures (name + ([':'] + value)) + rest == name + ([':'] + (value + rest))
  {
    Reassociate(name, [':'] + value, rest);
    Reassociate([':'], value, rest);
  }

  lemma ThreeThen(a: string, b: string, c: string, end: string)
    ensures (a + ([','] + (b + ([','] + c)))) + end == a + ([','] + (b + ([','] + (c + end))))
  {
    Reassociate(a, [','] + (b + ([','] + c)), end);
    Reassociate([','], b + ([','] + c), end);
    Reassociate(b, [','] + c, end);
    Reassociate([','], c, end);
  }

  /** The filled template, `title` standing for the title's value. */
  function Template(names: Names, key: string, body: string, title: string): string {
    ['{'] + (InQuotes(names.key) + ([':'] + (InQuotes(key) + ([','] +
            (InQuotes(names.body) + ([':'] + (InQuotes(body) + ([','] +
            (InQuotes(names.title) + ([':'] + (title + ['}'])))))))))))
  }

  function InQuotes(s: string): string { ['"'] + (s + ['"']) }

  lemma TemplateIsPrinted(names: Names, r: SubmitRequest)
    requires AllPlain(names.key) && AllPlain(names.body) && AllPlain(names.title)
    ensures Template(names, Escape(r.idempotencyKey), Escape(r.body), TitleText(r)) == Tight(Submission(names, r))
  {
    PlainUnchanged(names.key);
    PlainUnchanged(names.body);
    PlainUnchanged(names.title);
    var a, b, c := Member(names.key, Str(r.idempotencyKey)), Member(names.body, Str(r.body)),
        Member(names.title, TitleValue(r));
    PrintTight(Submission(names, r), []);
    var p: seq<nat> := [] + [1];
    var q := p + [2];
    var t := q + [2];
    ThreeMembers(a, b, c, NO_GAPS, p, q, t);
    MemberTight(a, p + [1], Quoted(r.idempotencyKey));
    MemberTight(b, q + [1], Quoted(r.body));
    MemberTight(c, t + [1], TitleText(r));
    var x, y, z := PrintMember(a, NO_GAPS, p + [1]), PrintMember(b, NO_GAPS, q + [1]), PrintMember(c, NO_GAPS, t + [1]);
    ThreeThen(x, y, z, ['}']);
    MemberThen(InQuotes(names.title), TitleText(r), ['}']);
    MemberThen(InQuotes(names.body), InQuotes(Escape(r.body)), [','] + (z + ['}']));
    MemberThen(InQuotes(names.key), InQuotes(Escape(r.idempotencyKey)), [','] + (y + ([','] + (z + ['}']))));
  }

  /** `json_body`. */
  method JsonBody(r: SubmitRequest) returns (text: string)
    ensures text == Tight(Submission(NAMES, r))
  {
    var title := "null";
    if r.title.Some? {
      var escaped := JsonEscape(r.title.value);
      title := InQuotes(escaped);
    }
    var key := JsonEscape(r.idempotencyKey);
    var body := JsonEscape(r.body);
    text := Template(NAMES, key, body, title);
    KeyNameIsPlain();
    OtherNamesArePlain();
    TemplateIsPrinted(NAMES, r);
  }

  /** A quoted string ends where its reader stops, so it can be taken off the front in one way. */
  lemma {:induction false} QuotedSplit(a: string, x: string, b: string, y: string)
    requires InQuotes(Escape(a)) + x == InQuotes(Escape(b)) + y
    ensures a == b && x == y
  {
    QuotedTail(Escape(a), x);
    QuotedTail(Escape(b), y);
    EscapeReads(a, x);
    EscapeReads(b, y);
  }

  lemma QuotedTail(s: string, x: string)
    ensures (InQuotes(s) + x)[1..] == s + (['"'] + x)
  {
  }

  lemma TailSplit(r: SubmitRequest, q: SubmitRequest)
    requires TitleText(r) + ['}'] == TitleText(q) + ['}']
    ensures r.title == q.title
  {
    var a, b := TitleText(r), TitleText(q);
    assert (a + ['}'])[0] == a[0] && (b + ['}'])[0] == b[0];
    if r.title.Some? && q.title.Some? {
      QuotedSplit(r.title.value, ['}'], q.title.value, ['}']);
    }
  }

  /** Different requests have different bodies. */
  lemma BodyInjective(names: Names, r: SubmitRequest, q: SubmitRequest)
    requires AllPlain(names.key) && AllPlain(names.body) && AllPlain(names.title)
    requires Tight(Submission(names, r)) == Tight(Submission(names, q))
    ensures r == q
  {
    TemplateIsPrinted(names, r);
    TemplateIsPrinted(names, q);
    TemplateInjective(names, r, q);
  }

  lemma TemplateInjective(names: Names, r: SubmitRequest, q: SubmitRequest)
    requires Template(names, Escape(r.idempotencyKey), Escape(r.body), TitleText(r))
          == Template(names, Escape(q.idempotencyKey), Escape(q.body), TitleText(q))
    ensures r == q
  {
    var c, d := InQuotes(names.title) + ([':'] + (TitleText(r) + ['}'])),
        InQuotes(names.title) + ([':'] + (TitleText(q) + ['}']));
    var a, b := InQuotes(names.body) + ([':'] + (InQuotes(Escape(r.body)) + ([','] + c))),
        InQuotes(names.body) + ([':'] + (InQuotes(Escape(q.body)) + ([','] + d)));
    SameHead(names.key, InQuotes(Escape(r.idempotencyKey)) + ([','] + a),
             InQuotes(Escape(q.idempotencyKey)) + ([','] + b), '{');
    QuotedSplit(r.idempotencyKey, [','] + a, q.idempotencyKey, [','] + b);
    SameHead(names.body, InQuotes(Escape(r.body)) + ([','] + c), InQuotes(Escape(q.body)) + ([','] + d), ',');
    QuotedSplit(r.body, [','] + c, q.body, [','] + d);
    SameHead(names.title, TitleText(r) + ['}'], TitleText(q) + ['}'], ',');
    TailSplit(r, q);
  }

  lemma SameHead(name: string, x: string, y: string, mark: char)
    requires [mark] + (InQuotes(name) + ([':'] + x)) == [mark] + (InQuotes(name) + ([':'] + y))
    ensures x == y
  {
    SplitEqual([mark], InQuotes(name) + ([':'] + x), [mark], InQuotes(name) + ([':'] + y));
    SplitEqual(InQuotes(name), [':'] + x, InQuotes(name), [':'] + y);
    SplitEqual([':'], x, [':'], y);
  }

  /** The scanner accepts every request body. */
  lemma BodyIsAcceptable(r: SubmitRequest)
    ensures Acceptable(Utf8(Tight(Submission(NAMES, r))))
  {
    var v := Submission(NAMES, r);
    assert Depth(v) == 1 + DepthOfMembers(v.members);
    ShallowMembers(v.members);
    ScanIsExact(v, NO_GAPS, []);
  }

  lemma {:induction false} ShallowMembers(members: seq<Member>)
    requires forall i :: 0 <= i < |members| ==> Depth(members[i].value) == 0
    ensures DepthOfMembers(members) == 0
  {
    if members != [] {
      ShallowMembers(members[1..]);
    }
  }

  // ---------- The visitors ----------

  datatype Reject = DuplicateField | UnknownField | ExplicitNull

  predicate FreshKeys(members: seq<Member>, n: nat)
    requires n <= |members|
  {
    forall i, j :: 0 <= i < j < n ==> members[i].key != members[j].key
  }

  /** No object anywhere in `v` repeats a key. */
  predicate NoDuplicates(v: Json)
    decreases v
  {
    match v
    case Array(items) => forall i :: 0 <= i < |items| ==> NoDuplicates(items[i])
    case Object(members) =>
      FreshKeys(members, |members|) && forall i :: 0 <= i < |members| ==> NoDuplicates(members[i].value)
    case _ => true
  }

  predicate Seen(members: seq<Member>, n: nat, key: string)
    requires n <= |members|
  {
    exists i :: 0 <= i < n && members[i].key == key
  }

  function Keys(members: seq<Member>, n: nat): seq<string>
    requires n <= |members|
  {
    seq(n, k requires 0 <= k < n => members[k].key)
  }

  lemma KeysSeen(members: seq<Member>, n: nat)
    requires n < |members|
    ensures var key := members[n].key;
      && (key in Keys(members, n) <==> Seen(members, n, key))
      && Keys(members, n) + [key] == Keys(members, n + 1)
      && (FreshKeys(members, n + 1) <==> FreshKeys(members, n) && !Seen(members, n, key))
  {
    var key, keys := members[n].key, Keys(members, n);
    if Seen(members, n, key) {
      var i :| 0 <= i < n && members[i].key == key;
      assert keys[i] == key;
    }
  }

  /** `StrictJsonVisitor`: the only rejection below the root is a repeated key. */
  method Visit(v: Json) returns (rejected: bool)
    ensures rejected <==> !NoDuplicates(v)
    decreases v
  {
    match v
    case Array(items) =>
      for i := 0 to |items|
        invariant forall j :: 0 <= j < i ==> NoDuplicates(items[j])
      {
        var nested := Visit(items[i]);
        if nested {
          return true;
        }
      }
      return false;
    case Object(members) =>
      var seen: seq<string> := [];
      for i := 0 to |members|
        invariant seen == Keys(members, i)
        invariant FreshKeys(members, i)
        invariant forall j :: 0 <= j < i ==> NoDuplicates(members[j].value)
      {
        KeysSeen(members, i);
        if members[i].key in seen {
          return true;
        }
        seen := seen + [members[i].key];
        var nested := Visit(members[i].value);
        if nested {
          return true;
        }
      }
      return false;
    case _ => return false;
  }

  /** Why member `i`, met after the members before it, is refused. */
  function Refusal(members: seq<Member>, allowed: seq<string>, i: nat): Option<Reject>
    requires i < |members|
  {
    if Seen(members, i, members[i].key) then Some(DuplicateField)
    else if members[i].key !in allowed then Some(UnknownField)
    else if !NoDuplicates(members[i].value) then Some(DuplicateField)
    else if members[i].value.Null? then Some(ExplicitNull)
    else None
  }

  /** What a closed object may be: known keys, none repeated at any depth, no null among its own values. */
  predicate ClosedObject(members: seq<Member>, allowed: seq<string>) {
    && NoDuplicates(Object(members))
    && forall i :: 0 <= i < |members| ==> members[i].key in allowed && !members[i].value.Null?
  }

  lemma RefusalsDecide(members: seq<Member>, allowed: seq<string>)
    ensures ClosedObject(members, allowed) <==> forall i :: 0 <= i < |members| ==> Refusal(members, allowed, i).None?
  {
    if forall i :: 0 <= i < |members| ==> Refusal(members, allowed, i).None? {
      forall i, j | 0 <= i < j < |members|
        ensures members[i].key != members[j].key
      {
        assert Refusal(members, allowed, j).None?;
      }
      forall i | 0 <= i < |members|
        ensures members[i].key in allowed && !members[i].value.Null? && NoDuplicates(members[i].value)
      {
        assert Refusal(members, allowed, i).None?;
      }
    }
  }

  /** `ClosedObject::visit_map`: accepts exactly the closed objects and names the first fault. */
  method VisitClosed(members: seq<Member>, allowed: seq<string>) returns (rejection: Option<Reject>)
    ensures rejection.None? <==> ClosedObject(members, allowed)
    ensures rejection.Some? ==> exists i :: 0 <= i < |members| && Refusal(members, allowed, i) == rejection
                                            && forall j :: 0 <= j < i ==> Refusal(members, allowed, j).None?
  {
    var seen: seq<string> := [];
    for i := 0 to |members|
      invariant seen == Keys(members, i)
      invariant forall j :: 0 <= j < i ==> Refusal(members, allowed, j).None?
    {
      KeysSeen(members, i);
      if members[i].key in seen {
        assert Refusal(members, allowed, i) == Some(DuplicateField);
        RefusalsDecide(members, allowed);
        return Some(DuplicateField);
      }
      if members[i].key !in allowed {
        assert Refusal(members, allowed, i) == Some(UnknownField);
        RefusalsDecide(members, allowed);
        return Some(UnknownField);
      }
      seen := seen + [members[i].key];
      var nested := Visit(members[i].value);
      if nested {
        assert Refusal(members, allowed, i) == Some(DuplicateField);
        RefusalsDecide(members, allowed);
        return Some(DuplicateField);
      }
      if members[i].value.Null? {
        assert Refusal(members, allowed, i) == Some(ExplicitNull);
        RefusalsDecide(members, allowed);
        return Some(ExplicitNull);
      }
    }
    RefusalsDecide(members, allowed);
    return None;
  }
}
