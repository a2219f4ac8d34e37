/** Emphasis delimiter matching of the Markdown checker (scripts/check_specs.py).

    `Delim` is what a delimiter is born with.  The pairing that CommonMark 0.31.2 section 6.2
    asks for is given by `Paired`, a plain left-to-right pass in which every closer scans every
    earlier delimiter, one by one, backwards from its run header.  `MatchDelimiters` is the
    checker's search with back-jumps and per-class lower bounds; it is proved to compute
    exactly `Paired`. */
module Delimiters {

  datatype Key = Key(marker: char, width: nat)

  /** The attributes of a delimiter before any matching. */
  datatype Delim = Delim(key: Key, length: nat, token: nat, canOpen: bool, canClose: bool)

  datatype Pair = Pair(opener: nat, closer: nat)

  /** State of the plain pass: the pairs so far, the header of the current run of adjacent
      markers, and the token of the previous delimiter (-2 after a match). */
  datatype Pass = Pass(pairs: seq<Pair>, header: nat, lastToken: int)

  // ---------- Specification: the plain backward scan ----------

  /** Rules 9 and 10: the "rule of three", for a closer that can also open (`closerOpens`). */
  predicate OddMatch(opener: Delim, closerOpens: bool, closerLength: nat) {
    && opener.length != 0
    && (opener.canClose || closerOpens)
    && (opener.length + closerLength) % 3 == 0
    && (opener.length % 3 != 0 || closerLength % 3 != 0)
  }

  predicate IsOpener(pairs: seq<Pair>, i: int) {
    exists p :: p in pairs && p.opener == i
  }

  predicate IsCloser(pairs: seq<Pair>, i: int) {
    exists p :: p in pairs && p.closer == i
  }

  predicate Inside(pairs: seq<Pair>, i: int) {
    exists p :: p in pairs && p.opener < i < p.closer
  }

  /** Nothing can ever open at `i` again. */
  predicate Dead(ds: seq<Delim>, pairs: seq<Pair>, i: int)
    requires 0 <= i < |ds|
  {
    !ds[i].canOpen || IsOpener(pairs, i) || IsCloser(pairs, i) || Inside(pairs, i)
  }

  /** `o` may be matched by a closer with the given key and rule-of-three class. */
  predicate Viable(ds: seq<Delim>, pairs: seq<Pair>, o: int, key: Key, closerOpens: bool, closerLength: nat)
    requires 0 <= o < |ds|
  {
    ds[o].key == key && !Dead(ds, pairs, o) && !OddMatch(ds[o], closerOpens, closerLength)
  }

  predicate ViableFor(ds: seq<Delim>, pairs: seq<Pair>, o: int, c: int)
    requires 0 <= o < |ds| && 0 <= c < |ds|
  {
    Viable(ds, pairs, o, ds[c].key, ds[c].canOpen, ds[c].length)
  }

  /** The nearest delimiter below `limit` that closer `c` may match, or -1. */
  function Nearest(ds: seq<Delim>, pairs: seq<Pair>, c: nat, limit: nat): (o: int)
    requires c < |ds| && limit <= |ds|
    ensures -1 <= o < limit
    ensures o >= 0 ==> ViableFor(ds, pairs, o, c)
    ensures forall j :: o < j < limit ==> !ViableFor(ds, pairs, j, c)
  {
    if limit == 0 then -1
    else if ViableFor(ds, pairs, limit - 1, c) then limit - 1
    else Nearest(ds, pairs, c, limit - 1)
  }

  function HeaderAt(ds: seq<Delim>, pass: Pass, i: nat): (h: nat)
    requires i < |ds| && pass.header <= i
    ensures h <= i
  {
    if ds[pass.header].key != ds[i].key || pass.lastToken != ds[i].token - 1 then i else pass.header
  }

  function PassStep(ds: seq<Delim>, pass: Pass, i: nat): (next: Pass)
    requires i < |ds| && pass.header <= i
    ensures next.header <= i
  {
    var header := HeaderAt(ds, pass, i);
    if !ds[i].canClose then Pass(pass.pairs, header, ds[i].token)
    else
      var o := Nearest(ds, pass.pairs, i, header);
      if o < 0 then Pass(pass.pairs, header, ds[i].token)
      else Pass(pass.pairs + [Pair(o, i)], header, -2)
  }

  function PassUpTo(ds: seq<Delim>, n: nat): (pass: Pass)
    requires n <= |ds|
    ensures pass.header <= n
  {
    if n == 0 then Pass([], 0, -2) else PassStep(ds, PassUpTo(ds, n - 1), n - 1)
  }

  /** The pairing of a whole delimiter list, in closer order. */
  function Paired(ds: seq<Delim>): seq<Pair> {
    PassUpTo(ds, |ds|).pairs
  }

  // ---------- The pairing is well nested ----------

  ghost predicate WellNested(ds: seq<Delim>, pairs: seq<Pair>, n: nat) {
    && (forall p :: p in pairs ==> p.opener < p.closer < n <= |ds|)
    && (forall p :: p in pairs ==>
          && ds[p.opener].key == ds[p.closer].key && ds[p.opener].canOpen && ds[p.closer].canClose
          && !OddMatch(ds[p.opener], ds[p.closer].canOpen, ds[p.closer].length))
    && (forall a, b :: 0 <= a < b < |pairs| ==> pairs[a].closer < pairs[b].closer)
    && (forall p, q :: p in pairs && q in pairs && p != q ==>
          p.opener != q.opener && p.opener != q.closer && p.closer != q.closer)
    && (forall p, q :: p in pairs && q in pairs ==> !(p.opener < q.opener < p.closer < q.closer))
  }

  lemma AddPair(ds: seq<Delim>, pairs: seq<Pair>, o: nat, c: nat)
    requires WellNested(ds, pairs, c) && o < c < |ds|
    requires ds[c].canClose && ViableFor(ds, pairs, o, c)
    ensures WellNested(ds, pairs + [Pair(o, c)], c + 1)
  {
    var more, added := pairs + [Pair(o, c)], Pair(o, c);
    assert forall p :: p in more <==> p in pairs || p == added;
    AddedApart(ds, pairs, added, more);
    AddedNested(ds, pairs, added, more);
  }

  lemma AddedApart(ds: seq<Delim>, pairs: seq<Pair>, added: Pair, more: seq<Pair>)
    requires WellNested(ds, pairs, added.closer) && added.opener < added.closer < |ds| && !Dead(ds, pairs, added.opener)
    requires forall p :: p in more <==> p in pairs || p == added
    ensures forall p, q :: p in more && q in more && p != q ==>
              p.opener != q.opener && p.opener != q.closer && p.closer != q.closer
  {
    forall p, q | p in more && q in more && p != q
      ensures p.opener != q.opener && p.opener != q.closer && p.closer != q.closer
    {
      if q == added {
        NewPairApart(ds, pairs, added, p);
      } else if p == added {
        NewPairApart(ds, pairs, added, q);
      }
    }
  }

  lemma AddedNested(ds: seq<Delim>, pairs: seq<Pair>, added: Pair, more: seq<Pair>)
    requires WellNested(ds, pairs, added.closer) && added.opener < added.closer < |ds| && !Dead(ds, pairs, added.opener)
    requires forall p :: p in more <==> p in pairs || p == added
    ensures forall p, q :: p in more && q in more ==> !(p.opener < q.opener < p.closer < q.closer)
  {
    forall p, q | p in more && q in more
      ensures !(p.opener < q.opener < p.closer < q.closer)
    {
      if q == added && p in pairs {
        NewPairApart(ds, pairs, added, p);
      }
    }
  }

  lemma NewPairApart(ds: seq<Delim>, pairs: seq<Pair>, added: Pair, p: Pair)
    requires added.opener < |ds| && !Dead(ds, pairs, added.opener) && p in pairs && p.opener < p.closer < added.closer
    ensures p.opener != added.opener && p.opener != added.closer && p.closer != added.opener && p.closer != added.closer
    ensures !(p.opener < added.opener < p.closer)
  {
    assert !IsOpener(pairs, added.opener) && !IsCloser(pairs, added.opener) && !Inside(pairs, added.opener);
  }

  lemma {:induction false} PassIsWellNested(ds: seq<Delim>, n: nat)
    requires n <= |ds|
    ensures WellNested(ds, PassUpTo(ds, n).pairs, n)
  {
    if n == 0 {
      NoPairs(ds);
    } else {
      var m := n - 1;
      var before, after := PassSplits(ds, n);
      PassIsWellNested(ds, m);
      NextIsWellNested(ds, before, m, after, n);
    }
  }

  lemma PassSplits(ds: seq<Delim>, n: nat) returns (before: Pass, after: Pass)
    requires 0 < n <= |ds|
    ensures before == PassUpTo(ds, n - 1) && before.header <= n - 1
    ensures after == PassUpTo(ds, n) == PassStep(ds, before, n - 1)
  {
    before, after := PassUpTo(ds, n - 1), PassUpTo(ds, n);
  }

  lemma {:induction false} NoPairs(ds: seq<Delim>)
    ensures WellNested(ds, PassUpTo(ds, 0).pairs, 0)
  {
  }

  lemma NextIsWellNested(ds: seq<Delim>, before: Pass, m: nat, after: Pass, n: nat)
    requires n == m + 1 <= |ds| && before.header <= m && after == PassStep(ds, before, m)
    requires WellNested(ds, before.pairs, m)
    ensures WellNested(ds, after.pairs, n)
  {
    StepIsWellNested(ds, before, m);
  }

  lemma StepIsWellNested(ds: seq<Delim>, pass: Pass, n: nat)
    requires n < |ds| && pass.header <= n && WellNested(ds, pass.pairs, n)
    ensures WellNested(ds, PassStep(ds, pass, n).pairs, n + 1)
  {
    StepPairs(ds, pass, n);
    if PassStep(ds, pass, n).pairs != pass.pairs {
      AddPair(ds, pass.pairs, Nearest(ds, pass.pairs, n, HeaderAt(ds, pass, n)), n);
    }
  }

  lemma {:induction false} StepPairs(ds: seq<Delim>, pass: Pass, i: nat)
    requires i < |ds| && pass.header <= i
    ensures var o := Nearest(ds, pass.pairs, i, HeaderAt(ds, pass, i)); var next := PassStep(ds, pass, i).pairs;
      next == pass.pairs || (ds[i].canClose && o >= 0 && ViableFor(ds, pass.pairs, o, i)
                             && next == pass.pairs + [Pair(o, i)])
  {
  }

  /** For every delimiter list: each delimiter lies in at most one pair, an opener precedes its
      closer, shares its key and obeys the rule of three, and no two pairs cross. */
  lemma PairedIsWellNested(ds: seq<Delim>)
    ensures WellNested(ds, Paired(ds), |ds|)
  {
    PassIsWellNested(ds, |ds|);
  }

  /** A closer is paired with the nearest delimiter before its run header that it may match, and
      with no other; without one it stays unpaired as a closer. */
  lemma {:induction false} CloserChoice(ds: seq<Delim>, c: nat, n: nat, p: Pair)
    requires c < n <= |ds| && p.closer == c
    ensures var pass := PassUpTo(ds, c); var o := Nearest(ds, pass.pairs, c, HeaderAt(ds, pass, c));
      p in PassUpTo(ds, n).pairs <==> ds[c].canClose && o >= 0 && p.opener == o
  {
    PassIsWellNested(ds, c);
    if n > c + 1 {
      CloserChoice(ds, c, n - 1, p);
    }
  }

  // ---------- The checker's search ----------

  /** One emphasis marker or one exact-width tilde run; matching updates the last three fields. */
  class MarkdownDelimiter {
    const key: Key
    const length: nat
    const token: nat
    var endIndex: int
    var canOpen: bool
    var canClose: bool

    constructor (d: Delim)
      ensures AsDelim() == d && endIndex == -1
    {
      key, length, token := d.key, d.length, d.token;
      endIndex, canOpen, canClose := -1, d.canOpen, d.canClose;
    }

    function AsDelim(): Delim
      reads this
    {
      Delim(key, length, token, canOpen, canClose)
    }
  }

  /** The object `m`, born as `d` at index `i`, after the matches in `pairs`. */
  ghost predicate Reflects(m: MarkdownDelimiter, d: Delim, pairs: seq<Pair>, i: int)
    reads m
  {
    && m.key == d.key && m.length == d.length && m.token == d.token
    && m.canOpen == (d.canOpen && !IsCloser(pairs, i))
    && m.canClose == (d.canClose && !IsOpener(pairs, i))
    && (if IsOpener(pairs, i) then m.endIndex >= 0 && Pair(i, m.endIndex) in pairs else m.endIndex == -1)
  }

  ghost predicate Synced(ms: seq<MarkdownDelimiter>, ds: seq<Delim>, pairs: seq<Pair>)
    reads ms
  {
    && |ms| == |ds|
    && forall i {:trigger ms[i]} :: 0 <= i < |ms| ==> Reflects(ms[i], ds[i], pairs, i)
  }

  /** The jump table: an index jumps over dead delimiters only, never out of a pair it has not
      jumped over entirely, and a matched closer jumps at least to its opener. */
  ghost predicate JumpsOk(ds: seq<Delim>, pairs: seq<Pair>, jumps: seq<nat>) {
    && |jumps| <= |ds|
    && (forall i :: 0 <= i < |jumps| ==> jumps[i] <= i)
    && (forall i, j :: 0 <= i < |jumps| && i - jumps[i] <= j < i ==> Dead(ds, pairs, j))
    && (forall i, p :: 0 <= i < |jumps| && p in pairs && i - jumps[i] <= p.closer < i ==> i - jumps[i] <= p.opener)
    && (forall i, p :: 0 <= i < |jumps| && p in pairs && p.closer == i ==> i - jumps[i] <= p.opener)
  }

  function Slot(opens: bool, residue: nat): nat {
    (if opens then 3 else 0) + residue
  }

  /** Six lower bounds a key: at or below a bound nothing can match a closer of that class. */
  ghost predicate BoundsOk(ds: seq<Delim>, pairs: seq<Pair>, bottoms: map<Key, seq<int>>) {
    && (forall k :: k in bottoms ==> |bottoms[k]| == 6)
    && (forall k, s :: k in bottoms && 0 <= s < 6 ==> bottoms[k][s] >= -1)
    && (forall k, opens, r: nat, j {:trigger Viable(ds, pairs, j, k, opens, r)} ::
          k in bottoms && r < 3 && 0 <= j < |ds| && j <= bottoms[k][Slot(opens, r)]
          ==> !Viable(ds, pairs, j, k, opens, r))
  }

  /** No closer was matched inside the run that the next delimiter may continue. */
  ghost predicate RunOk(pass: Pass, n: nat) {
    pass.lastToken != -2 ==> forall p :: p in pass.pairs ==> !(pass.header <= p.closer < n)
  }

  lemma ResidueOnly(opener: Delim, opens: bool, length: nat)
    ensures OddMatch(opener, opens, length) == OddMatch(opener, opens, length % 3)
  {
    assert (opener.length + length) % 3 == (opener.length + length % 3) % 3;
  }

  lemma ClassOnly(ds: seq<Delim>, pairs: seq<Pair>, o: int, c: int)
    requires 0 <= o < |ds| && 0 <= c < |ds|
    ensures ViableFor(ds, pairs, o, c) <==> Viable(ds, pairs, o, ds[c].key, ds[c].canOpen, ds[c].length % 3)
  {
    ResidueOnly(ds[o], ds[c].canOpen, ds[c].length);
  }

  /** A jump from outside every pair lands outside every pair, over dead delimiters only. */
  lemma JumpLands(ds: seq<Delim>, pairs: seq<Pair>, jumps: seq<nat>, q: nat)
    requires JumpsOk(ds, pairs, jumps) && q < |jumps| && !Inside(pairs, q)
    ensures q - jumps[q] - 1 >= -1
    ensures !Inside(pairs, q - jumps[q] - 1)
    ensures forall j :: q - jumps[q] <= j < q ==> Dead(ds, pairs, j)
  {
    var t := q - jumps[q] - 1;
    forall p | p in pairs
      ensures !(p.opener < t < p.closer)
    {
      assert !(p.opener < q < p.closer);
    }
  }

  lemma DeadStays(ds: seq<Delim>, pairs: seq<Pair>, extra: Pair)
    ensures forall i :: 0 <= i < |ds| && Dead(ds, pairs, i) ==> Dead(ds, pairs + [extra], i)
  {
    var more := pairs + [extra];
    assert forall p :: p in pairs ==> p in more;
  }

  lemma BoundsStay(ds: seq<Delim>, pairs: seq<Pair>, extra: Pair, bottoms: map<Key, seq<int>>)
    requires BoundsOk(ds, pairs, bottoms)
    ensures BoundsOk(ds, pairs + [extra], bottoms)
  {
    DeadStays(ds, pairs, extra);
    var more := pairs + [extra];
    forall k, opens, r: nat, j | k in bottoms && r < 3 && 0 <= j < |ds| && j <= bottoms[k][Slot(opens, r)]
      ensures !Viable(ds, more, j, k, opens, r)
    {
      assert !Viable(ds, pairs, j, k, opens, r);
    }
  }

  lemma DeadAfterMatch(ds: seq<Delim>, pairs: seq<Pair>, jumps: seq<nat>, o: nat, c: nat, last: nat)
    requires WellNested(ds, pairs, c) && JumpsOk(ds, pairs, jumps)
    requires o < c < |ds| && |jumps| == c + 1 && !Dead(ds, pairs, o)
    requires last == 0 || (o > 0 && last == jumps[o - 1] + 1 && Dead(ds, pairs, o - 1))
    requires WellNested(ds, pairs + [Pair(o, c)], c + 1)
    ensures c - o + last >= 0
    ensures var js := jumps[c := c - o + last][o := last];
      forall i, j :: 0 <= i < |js| && i - js[i] <= j < i ==> Dead(ds, pairs + [Pair(o, c)], j)
  {
    var more := pairs + [Pair(o, c)];
    var js := jumps[c := c - o + last][o := last];
    DeadStays(ds, pairs, Pair(o, c));
    assert Pair(o, c) in more;
    forall i, j | 0 <= i < |js| && i - js[i] <= j < i
      ensures Dead(ds, more, j)
    {
      if i == c && j > o {
        assert Inside(more, j);
      } else if i == c && j == o {
        assert IsOpener(more, j);
      } else if i == c || i == o {
        assert j == o - 1 || (o - 1) - jumps[o - 1] <= j < o - 1;
      }
    }
  }

  /** What matching closer `c` with the opener `o` found outside every pair does to the table. */
  lemma JumpsAfterMatch(ds: seq<Delim>, pairs: seq<Pair>, jumps: seq<nat>, o: nat, c: nat, last: nat)
    requires WellNested(ds, pairs, c) && JumpsOk(ds, pairs, jumps)
    requires o < c < |ds| && |jumps| == c + 1 && !Dead(ds, pairs, o)
    requires last == 0 || (o > 0 && last == jumps[o - 1] + 1 && Dead(ds, pairs, o - 1))
    requires WellNested(ds, pairs + [Pair(o, c)], c + 1)
    ensures c - o + last >= 0
    ensures JumpsOk(ds, pairs + [Pair(o, c)], jumps[c := c - o + last][o := last])
  {
    var more := pairs + [Pair(o, c)];
    var js := jumps[c := c - o + last][o := last];
    assert forall p :: p in more <==> p in pairs || p == Pair(o, c);
    DeadAfterMatch(ds, pairs, jumps, o, c, last);
    assert Pair(o, c) in more;
    forall i, p | 0 <= i < |js| && p in more && i - js[i] <= p.closer < i
      ensures i - js[i] <= p.opener
    {
      if i == c || i == o {
        assert p in pairs;
        assert p.closer != o by { assert !IsCloser(pairs, o); }
        assert !(p.opener < o < p.closer) by { assert !Inside(pairs, o); }
        assert p.opener != o by { assert !IsOpener(pairs, o); }
      }
    }
  }

  /** What holds before delimiter `n` is looked at. */
  ghost predicate SearchOk(ds: seq<Delim>, pass: Pass, jumps: seq<nat>, bottoms: map<Key, seq<int>>, n: nat) {
    && n <= |ds| && pass == PassUpTo(ds, n) && |jumps| == n
    && WellNested(ds, pass.pairs, n)
    && JumpsOk(ds, pass.pairs, jumps)
    && BoundsOk(ds, pass.pairs, bottoms)
    && RunOk(pass, n)
  }

  lemma JumpsExtend(ds: seq<Delim>, pairs: seq<Pair>, jumps: seq<nat>)
    requires |jumps| < |ds| && JumpsOk(ds, pairs, jumps) && WellNested(ds, pairs, |jumps|)
    ensures JumpsOk(ds, pairs, jumps + [0])
  {
  }

  lemma HeaderOutside(ds: seq<Delim>, pass: Pass, n: nat)
    requires n < |ds| && pass.header <= n && WellNested(ds, pass.pairs, n) && RunOk(pass, n)
    ensures !Inside(pass.pairs, HeaderAt(ds, pass, n))
  {
    var h := HeaderAt(ds, pass, n);
    forall p | p in pass.pairs
      ensures !(p.opener < h < p.closer)
    {
    }
  }

  lemma AdvanceUnmatched(ds: seq<Delim>, pass: Pass, jumps: seq<nat>, bottoms: map<Key, seq<int>>, n: nat)
    requires n < |ds| && SearchOk(ds, pass, jumps, bottoms, n)
    requires PassStep(ds, pass, n).pairs == pass.pairs
    ensures SearchOk(ds, PassStep(ds, pass, n), jumps + [0], bottoms, n + 1)
  {
    JumpsExtend(ds, pass.pairs, jumps);
    PassIsWellNested(ds, n + 1);
  }

  lemma MatchedPass(ds: seq<Delim>, pass: Pass, n: nat, o: nat)
    requires n < |ds| && pass == PassUpTo(ds, n) && ds[n].canClose
        && o == Nearest(ds, pass.pairs, n, HeaderAt(ds, pass, n))
    ensures var next := PassStep(ds, pass, n);
      next == PassUpTo(ds, n + 1) && next.pairs == pass.pairs + [Pair(o, n)] && next.lastToken == -2
    ensures o < n && ViableFor(ds, pass.pairs, o, n) && WellNested(ds, pass.pairs + [Pair(o, n)], n + 1)
  {
    PassIsWellNested(ds, n + 1);
  }

  lemma MatchedJumps(ds: seq<Delim>, pairs: seq<Pair>, jumps: seq<nat>, o: nat, c: nat, last: nat)
    requires WellNested(ds, pairs, c) && JumpsOk(ds, pairs, jumps) && o < c < |ds| && |jumps| == c
        && !Dead(ds, pairs, o)
    requires last == 0 || (o > 0 && last == jumps[o - 1] + 1 && Dead(ds, pairs, o - 1))
    requires WellNested(ds, pairs + [Pair(o, c)], c + 1)
    ensures JumpsOk(ds, pairs + [Pair(o, c)], (jumps + [0])[c := c - o + last][o := last])
  {
    JumpsExtend(ds, pairs, jumps);
    JumpsAfterMatch(ds, pairs, jumps + [0], o, c, last);
  }

  lemma {:induction false} AdvanceMatched(ds: seq<Delim>, pass: Pass, jumps: seq<nat>, bottoms: map<Key, seq<int>>,
                                          n: nat, o: nat, last: nat)
    requires n < |ds| && SearchOk(ds, pass, jumps, bottoms, n) && ds[n].canClose
    requires o == Nearest(ds, pass.pairs, n, HeaderAt(ds, pass, n))
    requires last == 0 || (o > 0 && last == jumps[o - 1] + 1 && Dead(ds, pass.pairs, o - 1))
    ensures o < n && n - o + last >= 0
    ensures SearchOk(ds, PassStep(ds, pass, n), (jumps + [0])[n := n - o + last][o := last], bottoms, n + 1)
  {
    MatchedPass(ds, pass, n, o);
    MatchedJumps(ds, pass.pairs, jumps, o, n, last);
    BoundsStay(ds, pass.pairs, Pair(o, n), bottoms);
  }

  lemma RaiseBound(ds: seq<Delim>, pairs: seq<Pair>, bottoms: map<Key, seq<int>>, c: nat, bounds: seq<int>, bound: int)
    requires c < |ds| && BoundsOk(ds, pairs, bottoms) && -1 <= bound
    requires bounds == if ds[c].key in bottoms then bottoms[ds[c].key] else [-1, -1, -1, -1, -1, -1]
    requires forall j :: 0 <= j < |ds| && j <= bound ==> !ViableFor(ds, pairs, j, c)
    ensures BoundsOk(ds, pairs, bottoms[ds[c].key := bounds])
    ensures BoundsOk(ds, pairs, bottoms[ds[c].key := bounds[Slot(ds[c].canOpen, ds[c].length % 3) := bound]])
  {
    var raised := bottoms[ds[c].key := bounds[Slot(ds[c].canOpen, ds[c].length % 3) := bound]];
    forall k, opens, r: nat, j | k in raised && r < 3 && 0 <= j < |ds| && j <= raised[k][Slot(opens, r)]
      ensures !Viable(ds, pairs, j, k, opens, r)
    {
      ClassOnly(ds, pairs, j, c);
    }
  }

  /** The backward search for closer `c` below the run header. */
  method FindOpener(delimiters: seq<MarkdownDelimiter>, jumps: seq<nat>, headerIndex: nat, closerIndex: nat,
                    minimumOpener: int, ghost ds: seq<Delim>, ghost pairs: seq<Pair>)
    returns (openerIndex: int)
    requires closerIndex < |delimiters| && headerIndex <= closerIndex
    requires Synced(delimiters, ds, pairs) && WellNested(ds, pairs, closerIndex)
    requires |jumps| == closerIndex + 1 && JumpsOk(ds, pairs, jumps) && -1 <= minimumOpener
    requires forall j :: 0 <= j < |ds| && j <= minimumOpener ==> !ViableFor(ds, pairs, j, closerIndex)
    requires !Inside(pairs, headerIndex)
    ensures if openerIndex > minimumOpener then openerIndex == Nearest(ds, pairs, closerIndex, headerIndex)
            else Nearest(ds, pairs, closerIndex, headerIndex) == -1
  {
    var closer := delimiters[closerIndex];
    assert Reflects(closer, ds[closerIndex], pairs, closerIndex) && !IsCloser(pairs, closerIndex);
    JumpLands(ds, pairs, jumps, headerIndex);
    openerIndex := headerIndex - jumps[headerIndex] - 1;
    while openerIndex > minimumOpener
      invariant -1 <= openerIndex < headerIndex && !Inside(pairs, openerIndex)
      invariant forall j :: openerIndex < j < headerIndex ==> !ViableFor(ds, pairs, j, closerIndex)
    {
      var opener := delimiters[openerIndex];
      assert Reflects(opener, ds[openerIndex], pairs, openerIndex);
      JumpLands(ds, pairs, jumps, openerIndex);
      if opener.key != closer.key {
        openerIndex := openerIndex - (jumps[openerIndex] + 1);
        continue;
      }
      if opener.canOpen && opener.endIndex < 0 {
        var oddMatch :=
          && opener.length != 0
          && (opener.canClose || closer.canOpen)
          && (opener.length + closer.length) % 3 == 0
          && (opener.length % 3 != 0 || closer.length % 3 != 0);
        if !oddMatch {
          assert ViableFor(ds, pairs, openerIndex, closerIndex);
          return;
        }
      }
      openerIndex := openerIndex - (jumps[openerIndex] + 1);
    }
  }

  /** Records the match of closer `c` with opener `o` in the two objects. */
  method Pairup(delimiters: seq<MarkdownDelimiter>, o: nat, c: nat, ghost ds: seq<Delim>, ghost pairs: seq<Pair>)
    requires forall i, j :: 0 <= i < j < |delimiters| ==> delimiters[i] != delimiters[j]
    requires Synced(delimiters, ds, pairs) && o < c < |ds|
    requires !IsOpener(pairs, o) && !IsCloser(pairs, o) && !IsOpener(pairs, c) && !IsCloser(pairs, c)
    modifies delimiters[o], delimiters[c]
    ensures Synced(delimiters, ds, pairs + [Pair(o, c)])
  {
    ghost var more := pairs + [Pair(o, c)];
    assert forall p :: p in more <==> p in pairs || p == Pair(o, c);
    assert Pair(o, c) in more;
    forall i | 0 <= i < |ds|
      ensures IsOpener(more, i) == (IsOpener(pairs, i) || i == o)
      ensures IsCloser(more, i) == (IsCloser(pairs, i) || i == c)
    {
    }
    assert Reflects(delimiters[o], ds[o], pairs, o) && Reflects(delimiters[c], ds[c], pairs, c);
    delimiters[c].canOpen := false;
    delimiters[o].endIndex := c;
    delimiters[o].canClose := false;
    forall i | 0 <= i < |ds|
      ensures Reflects(delimiters[i], ds[i], more, i)
    {
      assert old(Reflects(delimiters[i], ds[i], pairs, i));
    }
  }

  lemma BoundHolds(ds: seq<Delim>, pairs: seq<Pair>, bottoms: map<Key, seq<int>>, c: nat, bounds: seq<int>)
    requires c < |ds| && BoundsOk(ds, pairs, bottoms)
    requires bounds == if ds[c].key in bottoms then bottoms[ds[c].key] else [-1, -1, -1, -1, -1, -1]
    ensures |bounds| == 6 && bounds[Slot(ds[c].canOpen, ds[c].length % 3)] >= -1
    ensures forall j :: 0 <= j < |ds| && j <= bounds[Slot(ds[c].canOpen, ds[c].length % 3)]
              ==> !ViableFor(ds, pairs, j, c)
  {
    forall j | 0 <= j < |ds| && j <= bounds[Slot(ds[c].canOpen, ds[c].length % 3)]
      ensures !ViableFor(ds, pairs, j, c)
    {
      ClassOnly(ds, pairs, j, c);
    }
  }

  lemma {:induction false} SkippedAreDead(ds: seq<Delim>, pairs: seq<Pair>, jumps: seq<nat>, h: nat, c: nat)
    requires JumpsOk(ds, pairs, jumps) && h < |jumps| && !Inside(pairs, h) && h <= c < |ds|
    requires Nearest(ds, pairs, c, h) == -1
    ensures -1 <= h - jumps[h] - 1
    ensures forall j :: 0 <= j < |ds| && j <= h - jumps[h] - 1 ==> !ViableFor(ds, pairs, j, c)
  {
  }

  /** The opener found is paired with the closer; both jump over the whole pair. */
  method TakeOpener(delimiters: seq<MarkdownDelimiter>, started: seq<nat>, closerIndex: nat, openerIndex: nat,
                    ghost ds: seq<Delim>, ghost pass0: Pass, ghost jumps0: seq<nat>, ghost bottoms: map<Key, seq<int>>)
    returns (jumps: seq<nat>)
    requires forall i, j :: 0 <= i < j < |delimiters| ==> delimiters[i] != delimiters[j]
    requires closerIndex < |delimiters| == |ds| && SearchOk(ds, pass0, jumps0, bottoms, closerIndex)
    requires started == jumps0 + [0] && ds[closerIndex].canClose
    requires openerIndex == Nearest(ds, pass0.pairs, closerIndex, HeaderAt(ds, pass0, closerIndex))
    requires openerIndex < closerIndex && ViableFor(ds, pass0.pairs, openerIndex, closerIndex)
    requires !IsOpener(pass0.pairs, closerIndex) && !IsCloser(pass0.pairs, closerIndex)
    requires Synced(delimiters, ds, pass0.pairs)
    modifies delimiters
    ensures SearchOk(ds, PassStep(ds, pass0, closerIndex), jumps, bottoms, closerIndex + 1)
    ensures PassStep(ds, pass0, closerIndex).lastToken == -2
    ensures Synced(delimiters, ds, PassStep(ds, pass0, closerIndex).pairs)
  {
    assert openerIndex > 0 ==> Reflects(delimiters[openerIndex - 1], ds[openerIndex - 1], pass0.pairs, openerIndex - 1);
    var lastJump := if openerIndex > 0 && !delimiters[openerIndex - 1].canOpen
                    then started[openerIndex - 1] + 1 else 0;
    AdvanceMatched(ds, pass0, jumps0, bottoms, closerIndex, openerIndex, lastJump);
    jumps := started[closerIndex := closerIndex - openerIndex + lastJump];
    jumps := jumps[openerIndex := lastJump];
    Pairup(delimiters, openerIndex, closerIndex, ds, pass0.pairs);
  }

  /** A delimiter that can close searches, and either pairs up or raises its class's bound. */
  method SearchAsCloser(delimiters: seq<MarkdownDelimiter>, headerIndex: nat, jumps0: seq<nat>,
                        bottoms0: map<Key, seq<int>>, closerIndex: nat, ghost ds: seq<Delim>, ghost pass0: Pass)
    returns (lastToken: int, jumps: seq<nat>, openersBottom: map<Key, seq<int>>)
    requires forall i, j :: 0 <= i < j < |delimiters| ==> delimiters[i] != delimiters[j]
    requires closerIndex < |delimiters| == |ds| && SearchOk(ds, pass0, jumps0, bottoms0, closerIndex)
    requires pass0.header <= closerIndex && headerIndex == HeaderAt(ds, pass0, closerIndex)
    requires ds[closerIndex].canClose && !Inside(pass0.pairs, headerIndex)
    requires Synced(delimiters, ds, pass0.pairs)
    modifies delimiters
    ensures SearchOk(ds, PassStep(ds, pass0, closerIndex), jumps, openersBottom, closerIndex + 1)
    ensures PassStep(ds, pass0, closerIndex).lastToken == lastToken
    ensures Synced(delimiters, ds, PassStep(ds, pass0, closerIndex).pairs)
  {
    ghost var pairs := pass0.pairs;
    var closer := delimiters[closerIndex];
    assert Reflects(closer, ds[closerIndex], pairs, closerIndex);
    assert !IsOpener(pairs, closerIndex) && !IsCloser(pairs, closerIndex);
    jumps := jumps0 + [0];
    JumpsExtend(ds, pairs, jumps0);
    var bounds := if closer.key in bottoms0 then bottoms0[closer.key] else [-1, -1, -1, -1, -1, -1];
    openersBottom := bottoms0[closer.key := bounds];
    var slot := (if closer.canOpen then 3 else 0) + closer.length % 3;
    BoundHolds(ds, pairs, bottoms0, closerIndex, bounds);
    var minimumOpener := bounds[slot];
    var openerIndex := FindOpener(delimiters, jumps, headerIndex, closerIndex, minimumOpener, ds, pairs);
    if openerIndex > minimumOpener {
      RaiseBound(ds, pairs, bottoms0, closerIndex, bounds, minimumOpener);
      jumps := TakeOpener(delimiters, jumps, closerIndex, openerIndex, ds, pass0, jumps0, openersBottom);
      lastToken := -2;
    } else {
      lastToken := closer.token;
      var newMinimum := headerIndex - jumps[headerIndex] - 1;
      SkippedAreDead(ds, pairs, jumps, headerIndex, closerIndex);
      RaiseBound(ds, pairs, bottoms0, closerIndex, bounds, newMinimum);
      if newMinimum != -1 {
        openersBottom := openersBottom[closer.key := bounds[slot := newMinimum]];
        assert openersBottom == bottoms0[closer.key := bounds[slot := newMinimum]];
      }
      AdvanceUnmatched(ds, pass0, jumps0, bottoms0, closerIndex);
    }
  }

  /** Pairs the delimiters in place.  For every list the outcome is that of the plain scan. */
  method MatchDelimiters(delimiters: seq<MarkdownDelimiter>, ghost ds: seq<Delim>)
    requires forall i, j :: 0 <= i < j < |delimiters| ==> delimiters[i] != delimiters[j]
    requires Synced(delimiters, ds, [])
    modifies delimiters
    ensures Synced(delimiters, ds, Paired(ds))
  {
    var openersBottom: map<Key, seq<int>> := map[];
    var headerIndex := 0;
    var lastToken: int := -2;
    var jumps: seq<nat> := [];
    ghost var pass := PassUpTo(ds, 0);
    for closerIndex := 0 to |delimiters|
      invariant SearchOk(ds, pass, jumps, openersBottom, closerIndex)
      invariant pass.header == headerIndex <= closerIndex && pass.lastToken == lastToken
      invariant Synced(delimiters, ds, pass.pairs)
    {
      headerIndex, lastToken, jumps, openersBottom, pass :=
        MatchCloser(delimiters, headerIndex, lastToken, jumps, openersBottom, closerIndex, ds, pass);
    }
  }

  /** The loop body of the matcher: one delimiter is looked at as a closer. */
  method MatchCloser(delimiters: seq<MarkdownDelimiter>, header: nat, last: int, jumps0: seq<nat>,
                     bottoms0: map<Key, seq<int>>, closerIndex: nat, ghost ds: seq<Delim>, ghost pass0: Pass)
    returns (headerIndex: nat, lastToken: int, jumps: seq<nat>, openersBottom: map<Key, seq<int>>, ghost pass: Pass)
    requires forall i, j :: 0 <= i < j < |delimiters| ==> delimiters[i] != delimiters[j]
    requires closerIndex < |delimiters| == |ds| && SearchOk(ds, pass0, jumps0, bottoms0, closerIndex)
    requires pass0.header == header <= closerIndex && pass0.lastToken == last
    requires Synced(delimiters, ds, pass0.pairs)
    modifies delimiters
    ensures pass == PassStep(ds, pass0, closerIndex)
    ensures SearchOk(ds, pass, jumps, openersBottom, closerIndex + 1)
    ensures pass.header == headerIndex && pass.lastToken == lastToken
    ensures Synced(delimiters, ds, pass.pairs)
  {
    headerIndex, lastToken, jumps, openersBottom := header, last, jumps0 + [0], bottoms0;
    pass := PassStep(ds, pass0, closerIndex);
    ghost var pairs := pass0.pairs;
    var closer := delimiters[closerIndex];
    assert Reflects(closer, ds[closerIndex], pairs, closerIndex);
    assert Reflects(delimiters[headerIndex], ds[headerIndex], pairs, headerIndex);
    assert !IsOpener(pairs, closerIndex) && !IsCloser(pairs, closerIndex);
    if delimiters[headerIndex].key != closer.key || lastToken != closer.token - 1 {
      headerIndex := closerIndex;
    }
    lastToken := closer.token;
    assert headerIndex == HeaderAt(ds, pass0, closerIndex);
    if !closer.canClose {
      AdvanceUnmatched(ds, pass0, jumps0, bottoms0, closerIndex);
      return;
    }
    HeaderOutside(ds, pass0, closerIndex);
    lastToken, jumps, openersBottom := SearchAsCloser(delimiters, headerIndex, jumps0, openersBottom, closerIndex, ds,
                                                      pass0);
  }
}
