/** `linear_contains` of scripts/check_specs.py: substring search with a failure table. */
module Kmp {

  /** The first `k` characters of `s` are the last `k` of `h[..i]`. */
  ghost predicate EndsWith(h: string, i: int, s: string, k: int) {
    0 <= k <= i <= |h| && k <= |s| && h[i - k..i] == s[..k]
  }

  /** `k` is a proper border of `s[..n]`. */
  ghost predicate Border(s: string, n: int, k: int) {
    k < n && EndsWith(s, n, s, k)
  }

  ghost predicate LongestBorder(s: string, n: int, k: int) {
    Border(s, n, k) && forall j :: Border(s, n, j) ==> j <= k
  }

  ghost predicate OccursAt(h: string, s: string, at: int) {
    0 <= at && at + |s| <= |h| && h[at..at + |s|] == s
  }

  /** `prefix[i]` is the longest proper border of `s[..i + 1]`, for the first `n` entries. */
  ghost predicate TableOk(s: string, prefix: seq<nat>, n: int) {
    n <= |prefix| == |s| && forall i :: 0 <= i < n ==> LongestBorder(s, i + 1, prefix[i])
  }

  /** Every suffix match of `h[..i]` longer than `k`, other than a full `limit`, is stuck on `c`. */
  ghost predicate OnlyStuckAbove(h: string, i: int, s: string, k: int, limit: int, c: char) {
    forall j :: k < j < limit <= |s| && EndsWith(h, i, s, j) ==> s[j] != c
  }

  ghost predicate NoneAbove(h: string, i: int, s: string, k: int, limit: int) {
    forall j :: k < j <= limit ==> !EndsWith(h, i, s, j)
  }

  lemma Extend(h: string, i: int, s: string, k: int)
    requires 0 <= i < |h| && 0 <= k < |s|
    ensures EndsWith(h, i + 1, s, k + 1) <==> EndsWith(h, i, s, k) && h[i] == s[k]
  {
    if k <= i {
      var a, b := h[i - k..i + 1], s[..k + 1];
      assert a == h[i - k..i] + [h[i]] && b == s[..k] + [s[k]];
      assert a[..k] == h[i - k..i] && b[..k] == s[..k] && a[k] == h[i] && b[k] == s[k];
    }
  }

  /** Below a match, the shorter matches are exactly its borders. */
  lemma Nest(h: string, i: int, s: string, k: int, j: int)
    requires EndsWith(h, i, s, k) && 0 <= j < k
    ensures EndsWith(h, i, s, j) <==> Border(s, k, j)
  {
    assert h[i - j..i] == h[i - k..i][k - j..];
    assert s[..k][k - j..] == s[k - j..k];
  }

  /** Falling back along the table skips no match that could be extended by `c`. */
  lemma FallBack(h: string, i: int, s: string, k: int, next: int, limit: int, c: char)
    requires 0 < k < limit <= |s| && EndsWith(h, i, s, k) && LongestBorder(s, k, next)
    requires OnlyStuckAbove(h, i, s, k, limit, c) && s[k] != c
    ensures 0 <= next < k && EndsWith(h, i, s, next) && OnlyStuckAbove(h, i, s, next, limit, c)
  {
    Nest(h, i, s, k, next);
    forall j | next < j < limit && EndsWith(h, i, s, j)
      ensures s[j] != c
    {
      if j < k {
        Nest(h, i, s, k, j);
      }
    }
  }

  /** After the fallback loop, taking `c` or not gives the longest match ending one later. */
  lemma Advance(h: string, i: int, s: string, k: int, limit: int)
    requires 0 <= i < |h| && 0 <= k < limit <= |s| && EndsWith(h, i, s, k)
    requires OnlyStuckAbove(h, i, s, k, limit, h[i]) && (k == 0 || s[k] == h[i])
    ensures var m := if s[k] == h[i] then k + 1 else k;
      EndsWith(h, i + 1, s, m) && NoneAbove(h, i + 1, s, m, limit)
  {
    Extend(h, i, s, k);
    assert h[i + 1..i + 1] == s[..0];
    var m := if s[k] == h[i] then k + 1 else k;
    var next := i + 1;
    forall j | m < j <= limit
      ensures !EndsWith(h, next, s, j)
    {
      Extend(h, i, s, j - 1);
    }
  }

  lemma NoneAboveIsLongest(s: string, index: int, k: int)
    requires 0 < index < |s| && 0 <= k <= index && EndsWith(s, index + 1, s, k) && NoneAbove(s, index + 1, s, k, index)
    ensures LongestBorder(s, index + 1, k)
  {
    var n := index + 1;
    forall j | Border(s, n, j)
      ensures j <= k
    {
      assert EndsWith(s, n, s, j);
    }
  }

  /** The failure table, and the number of character comparisons made to build it. */
  method FailureTable(needle: string) returns (prefix: seq<nat>, ghost comparisons: nat)
    requires needle != ""
    ensures TableOk(needle, prefix, |needle|)
    ensures comparisons <= 3 * |needle|
  {
    prefix := seq(|needle|, _ => 0);
    comparisons := 0;
    var matched := 0;
    assert LongestBorder(needle, 1, 0) by {
      assert needle[1..1] == needle[..0];
    }
    for index := 1 to |needle|
      invariant TableOk(needle, prefix, index) && matched == prefix[index - 1]
      invariant forall i :: index <= i < |needle| ==> prefix[i] == 0
      invariant comparisons + matched <= 3 * index
    {
      ghost var cost: nat;
      matched, cost := NextEntry(needle, prefix, index, matched);
      comparisons := comparisons + cost;
      if matched > 0 {
        prefix := prefix[index := matched];
      }
    }
  }

  /** One entry of the table, from the one before. */
  method NextEntry(needle: string, prefix: seq<nat>, index: nat, before: nat) returns (matched: nat, ghost cost: nat)
    requires 0 < index < |needle| && TableOk(needle, prefix, index) && before == prefix[index - 1]
    ensures LongestBorder(needle, index + 1, matched) && cost + matched <= before + 3
  {
    matched, cost := before, 0;
    var character := needle[index];
    assert OnlyStuckAbove(needle, index, needle, matched, index, character) by {
      assert forall j :: EndsWith(needle, index, needle, j) && j < index ==> Border(needle, index, j);
    }
    while matched != 0 && character != needle[matched]
      invariant Border(needle, index, matched) && cost + matched <= before
      invariant OnlyStuckAbove(needle, index, needle, matched, index, character)
    {
      FallBack(needle, index, needle, matched, prefix[matched - 1], index, character);
      matched, cost := prefix[matched - 1], cost + 1;
    }
    Advance(needle, index, needle, matched, index);
    cost := cost + if matched != 0 then 2 else 1;
    if character == needle[matched] {
      matched := matched + 1;
    }
    NoneAboveIsLongest(needle, index, matched);
  }

  lemma OccursEnding(h: string, s: string, at: int)
    ensures OccursAt(h, s, at) <==> EndsWith(h, at + |s|, s, |s|)
  {
    assert s[..|s|] == s;
  }

  /** True exactly when the needle is a contiguous part of the haystack; the comparisons of both
      phases together are linear in the two lengths. */
  method LinearContains(haystack: string, needle: string) returns (found: bool, ghost comparisons: nat)
    ensures found <==> exists at :: OccursAt(haystack, needle, at)
    ensures comparisons <= 3 * (|needle| + |haystack|)
  {
    comparisons := 0;
    if needle == "" {
      assert OccursAt(haystack, needle, 0);
      return true, 0;
    }
    var prefix;
    prefix, comparisons := FailureTable(needle);
    ghost var built := comparisons;
    var matched := 0;
    for i := 0 to |haystack|
      invariant matched < |needle| && EndsWith(haystack, i, needle, matched)
      invariant NoneAbove(haystack, i, needle, matched, |needle|)
      invariant forall at :: at + |needle| <= i ==> !OccursAt(haystack, needle, at)
      invariant comparisons + matched <= built + 3 * i
    {
      ghost var spent: nat;
      matched, spent := Feed(haystack, i, needle, prefix, matched);
      comparisons := comparisons + spent;
      if matched == |needle| {
        assert OccursAt(haystack, needle, i + 1 - |needle|);
        return true, comparisons;
      }
      forall at | at + |needle| <= i + 1
        ensures !OccursAt(haystack, needle, at)
      {
        if at + |needle| == i + 1 {
          OccursEnding(haystack, needle, at);
        }
      }
    }
    return false, comparisons;
  }

  /** One haystack character: the new longest match, and the comparisons it took. */
  method Feed(haystack: string, i: nat, needle: string, prefix: seq<nat>, before: nat)
    returns (matched: nat, ghost comparisons: nat)
    requires i < |haystack| && before < |needle| && TableOk(needle, prefix, |needle|)
    requires EndsWith(haystack, i, needle, before) && NoneAbove(haystack, i, needle, before, |needle|)
    ensures EndsWith(haystack, i + 1, needle, matched) && NoneAbove(haystack, i + 1, needle, matched, |needle|)
    ensures comparisons + matched <= before + 3
  {
    matched, comparisons := before, 0;
    var character := haystack[i];
    while matched != 0 && character != needle[matched]
      invariant matched < |needle| && EndsWith(haystack, i, needle, matched)
      invariant OnlyStuckAbove(haystack, i, needle, matched, |needle|, character)
      invariant comparisons + matched <= before
    {
      FallBack(haystack, i, needle, matched, prefix[matched - 1], |needle|, character);
      matched, comparisons := prefix[matched - 1], comparisons + 1;
    }
    Advance(haystack, i, needle, matched, |needle|);
    comparisons := comparisons + if matched != 0 then 2 else 1;
    if character == needle[matched] {
      matched := matched + 1;
    }
  }
}
