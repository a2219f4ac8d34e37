/** What the pairing of `Delimiters` is, in the words of CommonMark 0.31.2 section 6.2: runs of
    adjacent markers, the rule of three, and the nearest delimiter before the run that fits. */
module Pairings {
  import opened Delimiters

  // ---------- Runs ----------

  /** Delimiters `k` and `k + 1` are adjacent markers of one kind. */
  predicate Adjacent(ds: seq<Delim>, k: int)
    requires 0 <= k && k + 1 < |ds|
  {
    ds[k].key == ds[k + 1].key && ds[k + 1].token == ds[k].token + 1
  }

  /** The run that delimiter `c` continues begins at `h`: up to `c` all are adjacent and none closes a
      pair, and before `h` the run is broken or ends in the closer of a pair. */
  ghost predicate RunBegins(ds: seq<Delim>, pairs: seq<Pair>, h: nat, c: nat)
    requires c < |ds|
  {
    && h <= c
    && (forall k :: h <= k < c ==> Adjacent(ds, k) && !IsCloser(pairs, k))
    && (h == 0 || !Adjacent(ds, h - 1) || IsCloser(pairs, h - 1))
  }

  lemma RunBeginsOnce(ds: seq<Delim>, pairs: seq<Pair>, h: nat, j: nat, c: nat)
    requires c < |ds| && RunBegins(ds, pairs, h, c) && RunBegins(ds, pairs, j, c)
    ensures h == j
  {
  }

  lemma {:induction false} SameKey(ds: seq<Delim>, h: nat, c: nat)
    requires h <= c < |ds| && forall k :: h <= k < c ==> Adjacent(ds, k)
    ensures ds[h].key == ds[c].key
    decreases c - h
  {
    if h < c {
      SameKey(ds, h, c - 1);
      assert Adjacent(ds, c - 1);
    }
  }

  /** What the pass remembers after delimiter `n - 1`. */
  ghost predicate Remembers(ds: seq<Delim>, pass: Pass, n: nat)
    requires n <= |ds|
  {
    if n == 0 then pass == Pass([], 0, -2)
    else RunBegins(ds, pass.pairs, pass.header, n - 1)
         && pass.lastToken == if IsCloser(pass.pairs, n - 1) then -2 else ds[n - 1].token
  }

  /** The header the pass computes is the beginning of the run. */
  lemma {:induction false} HeaderBegins(ds: seq<Delim>, pass: Pass, n: nat)
    requires n < |ds| && Remembers(ds, pass, n) && pass.header <= n
    ensures RunBegins(ds, pass.pairs, HeaderAt(ds, pass, n), n)
  {
    if n > 0 {
      SameKey(ds, pass.header, n - 1);
    }
  }

  lemma {:induction false} StepRemembers(ds: seq<Delim>, pass: Pass, n: nat, next: Pass)
    requires n < |ds| && pass.header <= n && Remembers(ds, pass, n) && WellNested(ds, pass.pairs, n)
    requires next == PassStep(ds, pass, n)
    ensures Remembers(ds, next, n + 1)
  {
    HeaderBegins(ds, pass, n);
    var h := HeaderAt(ds, pass, n);
    StepPairs(ds, pass, n);
    forall k | 0 <= k < n
      ensures IsCloser(next.pairs, k) == IsCloser(pass.pairs, k)
    {
    }
    assert !IsCloser(pass.pairs, n);
    if next.pairs != pass.pairs {
      assert next.pairs[|pass.pairs|].closer == n;
    }
  }

  lemma {:induction false} PassRemembers(ds: seq<Delim>, n: nat)
    requires n <= |ds|
    ensures Remembers(ds, PassUpTo(ds, n), n)
  {
    if n > 0 {
      var m := n - 1;
      var before, after := PassSplits(ds, n);
      PassRemembers(ds, m);
      PassIsWellNested(ds, m);
      StepRemembers(ds, before, m, after);
    }
  }

  // ---------- Pairs of earlier closers ----------

  lemma {:induction false} EarlierPairs(ds: seq<Delim>, c: nat, n: nat, p: Pair)
    requires c <= n <= |ds| && p.closer < c
    ensures p in PassUpTo(ds, n).pairs <==> p in PassUpTo(ds, c).pairs
  {
    if c < n {
      var m := n - 1;
      var before, after := PassSplits(ds, n);
      EarlierPairs(ds, c, m, p);
      StepPairs(ds, before, m);
    }
  }

  /** The pairs before closer `c` are those of the whole list that close before it. */
  lemma {:induction false} PairsBefore(ds: seq<Delim>, c: nat, early: seq<Pair>)
    requires c < |ds| && early == PassUpTo(ds, c).pairs
    ensures forall p :: p in early <==> p in Paired(ds) && p.closer < c
    ensures forall k :: 0 <= k < c ==> IsCloser(early, k) == IsCloser(Paired(ds), k)
  {
    PassIsWellNested(ds, c);
    forall p
      ensures p in early <==> p in Paired(ds) && p.closer < c
    {
      if p.closer < c {
        EarlierPairs(ds, c, |ds|, p);
      }
    }
  }

  // ---------- The law ----------

  /** One kind, an opener and a closer, and the rule of three: if one of the two can be both, the sum
      of the run lengths is no multiple of three, or both lengths are.  Tildes have length 0. */
  predicate MayMatch(o: Delim, c: Delim) {
    && o.key == c.key && o.canOpen && c.canClose
    && (o.length == 0 || (!o.canClose && !c.canOpen) || (o.length + c.length) % 3 != 0
        || (o.length % 3 == 0 && c.length % 3 == 0))
  }

  /** No pair that closes before `c` uses `o` or encloses it. */
  ghost predicate Unclaimed(pairs: seq<Pair>, o: nat, c: nat) {
    forall p :: p in pairs && p.closer < c ==> p.opener != o && p.closer != o && !(p.opener < o < p.closer)
  }

  ghost predicate Fits(ds: seq<Delim>, pairs: seq<Pair>, o: nat, c: nat)
    requires o < |ds| && c < |ds|
  {
    MayMatch(ds[o], ds[c]) && Unclaimed(pairs, o, c)
  }

  lemma {:induction false} FitsIsViable(ds: seq<Delim>, early: seq<Pair>, o: nat, c: nat)
    requires o < |ds| && c < |ds| && forall p :: p in early <==> p in Paired(ds) && p.closer < c
    ensures Fits(ds, Paired(ds), o, c) <==> ds[c].canClose && ViableFor(ds, early, o, c)
  {
    assert Unclaimed(Paired(ds), o, c) <==> !IsOpener(early, o) && !IsCloser(early, o) && !Inside(early, o);
  }

  /** For every list of delimiters: `o` and `c` are paired exactly when `o` is the nearest delimiter
      before the run of `c` that fits it. */
  lemma {:induction false} PairedExactly(ds: seq<Delim>, h: nat, o: nat, c: nat)
    requires o < |ds| && c < |ds| && RunBegins(ds, Paired(ds), h, c)
    ensures Pair(o, c) in Paired(ds) <==>
              && o < h && Fits(ds, Paired(ds), o, c)
              && forall j :: o < j < h ==> !Fits(ds, Paired(ds), j, c)
  {
    var pass := PassUpTo(ds, c);
    var early, header := pass.pairs, HeaderAt(ds, pass, c);
    PairsBefore(ds, c, early);
    PassRemembers(ds, c);
    HeaderBegins(ds, pass, c);
    RunBeginsOnce(ds, early, h, header, c);
    CloserChoice(ds, c, |ds|, Pair(o, c));
    forall j: nat | j < |ds|
      ensures Fits(ds, Paired(ds), j, c) <==> ds[c].canClose && ViableFor(ds, early, j, c)
    {
      FitsIsViable(ds, early, j, c);
    }
  }

  /** Every delimiter continues a run that begins somewhere. */
  lemma {:induction false} SomeRun(ds: seq<Delim>, c: nat) returns (h: nat)
    requires c < |ds|
    ensures RunBegins(ds, Paired(ds), h, c)
  {
    var pass := PassUpTo(ds, c);
    PairsBefore(ds, c, pass.pairs);
    PassRemembers(ds, c);
    HeaderBegins(ds, pass, c);
    h := HeaderAt(ds, pass, c);
  }

  /** No pair joins two markers of one run: between the two some neighbours are not adjacent. */
  lemma {:induction false} NoPairInRun(ds: seq<Delim>, p: Pair) returns (k: nat)
    requires p in Paired(ds)
    ensures p.opener <= k < p.closer < |ds| && !Adjacent(ds, k)
    decreases p.closer
  {
    PairedIsWellNested(ds);
    var h := SomeRun(ds, p.closer);
    PairedExactly(ds, h, p.opener, p.closer);
    k := h - 1;
    if Adjacent(ds, k) {
      var q :| q in Paired(ds) && q.closer == k;
      assert q.opener > p.opener;
      k := NoPairInRun(ds, q);
    }
  }
}
