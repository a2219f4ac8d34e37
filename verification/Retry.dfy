/** Retry arithmetic: crates/msgriver-core/src/retry.rs and crates/msgriver/src/jitter_source.rs. */
module Retry {
  import opened Wrappers
  import opened Bytes
  import Mac
  import RetryAfter

  datatype Result<+T> = Ok(value: T) | Rejected

  function Min(a: int, b: int): int { if a < b then a else b }
  function Max(a: int, b: int): int { if a > b then a else b }

  // ---------- Backoff ----------

  datatype DelayInput = DelayInput(base: nat, factorMilli: nat, cap: nat, ordinal: nat, multiplierMilli: nat,
                                   retryAfter: Option<int>)

  predicate ValidPolicy(base: nat, factorMilli: nat, cap: nat) {
    1_000 <= base <= 3_600_000 && 1_001 <= factorMilli <= 16_000 && base <= cap <= 3_600_000
  }

  /** `retry_delay_input_is_valid`. */
  predicate ValidInput(i: DelayInput) {
    && ValidPolicy(i.base, i.factorMilli, i.cap) && 1 <= i.ordinal <= 1_023 && 500 <= i.multiplierMilli <= 1_500
    && (i.retryAfter.Some? ==> 1_000 <= i.retryAfter.value <= 3_600_000)
  }

  /** The capped recurrence, never cut short: e_1 = base, e_n = min(e_(n-1) * factor / 1000, cap). */
  function Exponential(base: nat, factorMilli: nat, cap: nat, n: nat): nat
    requires n >= 1
  {
    if n == 1 then Min(base, cap) else Min(Exponential(base, factorMilli, cap, n - 1) * factorMilli / 1_000, cap)
  }

  function Delay(i: DelayInput): int
    requires i.ordinal >= 1
  {
    var jittered := Max(Min(Exponential(i.base, i.factorMilli, i.cap, i.ordinal) * i.multiplierMilli / 1_000, i.cap),
                        1);
    Max(jittered, if i.retryAfter.Some? then i.retryAfter.value else 0)
  }

  lemma Grows(e: nat, factorMilli: nat)
    requires e >= 1_000 && factorMilli >= 1_001
    ensures e * factorMilli / 1_000 > e
  {
    assert e * factorMilli >= e * 1_001;
  }

  lemma {:induction false} ExponentialRange(base: nat, factorMilli: nat, cap: nat, n: nat)
    requires ValidPolicy(base, factorMilli, cap) && n >= 1
    ensures 1_000 <= Exponential(base, factorMilli, cap, n) <= cap
  {
    if n > 1 {
      ExponentialRange(base, factorMilli, cap, n - 1);
      Grows(Exponential(base, factorMilli, cap, n - 1), factorMilli);
    }
  }

  /** Strict growth until the cap, and the cap is never left: what makes the early break sound. */
  lemma ExponentialStep(base: nat, factorMilli: nat, cap: nat, n: nat)
    requires ValidPolicy(base, factorMilli, cap) && n >= 1
    ensures var e, f := Exponential(base, factorMilli, cap, n), Exponential(base, factorMilli, cap, n + 1);
      if e == cap then f == cap else e < f <= cap
  {
    ExponentialRange(base, factorMilli, cap, n);
    Grows(Exponential(base, factorMilli, cap, n), factorMilli);
  }

  lemma {:induction false} ExponentialMonotone(base: nat, factorMilli: nat, cap: nat, m: nat, n: nat)
    requires ValidPolicy(base, factorMilli, cap) && 1 <= m <= n
    ensures Exponential(base, factorMilli, cap, m) <= Exponential(base, factorMilli, cap, n)
    ensures Exponential(base, factorMilli, cap, m) == cap ==> Exponential(base, factorMilli, cap, n) == cap
    decreases n - m
  {
    if m < n {
      ExponentialMonotone(base, factorMilli, cap, m, n - 1);
      ExponentialStep(base, factorMilli, cap, n - 1);
    }
  }

  function Power(b: nat, n: nat): nat {
    if n == 0 then 1 else Power(b, n - 1) * b
  }

  /** Rounding down at every step never exceeds the exact power: 1000^(n-1) e_n <= base factor^(n-1). */
  lemma {:induction false} ExponentialBelowPower(base: nat, factorMilli: nat, cap: nat, n: nat)
    requires ValidPolicy(base, factorMilli, cap) && n >= 1
    ensures Power(1_000, n - 1) * Exponential(base, factorMilli, cap, n) <= base * Power(factorMilli, n - 1)
  {
    if n > 1 {
      ExponentialBelowPower(base, factorMilli, cap, n - 1);
      var p, q := Power(1_000, n - 2), Power(factorMilli, n - 2);
      assert Power(1_000, n - 1) == p * 1_000 && Power(factorMilli, n - 1) == q * factorMilli;
      PowerStep(p, Exponential(base, factorMilli, cap, n - 1), Exponential(base, factorMilli, cap, n), factorMilli,
                base, q);
    }
  }

  lemma PowerStep(p: nat, e: nat, f: nat, factorMilli: nat, base: nat, q: nat)
    requires p * e <= base * q && f <= e * factorMilli / 1_000
    ensures (p * 1_000) * f <= base * (q * factorMilli)
  {
    assert 1_000 * f <= e * factorMilli;
    MulLe(p, 1_000 * f, e * factorMilli);
    Associate(p, 1_000, f);
    Associate(p, e, factorMilli);
    MulLe(factorMilli, p * e, base * q);
    Associate(base, q, factorMilli);
  }

  lemma Associate(a: nat, b: nat, c: nat)
    ensures (a * b) * c == a * (b * c)
  {
  }

  lemma MulLe(k: nat, a: nat, b: nat)
    requires a <= b
    ensures k * a <= k * b && a * k <= b * k
  {
  }

  /** `retry_delay_v1`: the loop stops at the cap, the result is that of the whole recurrence. */
  method RetryDelayV1(i: DelayInput) returns (r: Result<int>)
    ensures r == if ValidInput(i) then Ok(Delay(i)) else Rejected
  {
    if !ValidInput(i) {
      return Rejected;
    }
    var exponential := Min(i.base, i.cap);
    var n := 1;
    while n < i.ordinal
      invariant 1 <= n <= i.ordinal
      invariant exponential == Exponential(i.base, i.factorMilli, i.cap, n)
    {
      exponential := Min(exponential * i.factorMilli / 1_000, i.cap);
      n := n + 1;
      if exponential == i.cap {
        ExponentialMonotone(i.base, i.factorMilli, i.cap, n, i.ordinal);
        break;
      }
    }
    assert exponential == Exponential(i.base, i.factorMilli, i.cap, i.ordinal);
    var jittered := Max(Min(exponential * i.multiplierMilli / 1_000, i.cap), 1);
    return Ok(Max(jittered, if i.retryAfter.Some? then i.retryAfter.value else 0));
  }

  lemma ScaleMonotone(a: nat, b: nat, m: nat, n: nat)
    requires a <= b && m <= n
    ensures a * m / 1_000 <= b * n / 1_000
  {
    MulLe(m, a, b);
    MulLe(b, m, n);
    assert a * m <= b * n;
  }

  /** The delay grows with the ordinal, the multiplier and the provider's wish. */
  lemma DelayMonotone(i: DelayInput, j: DelayInput)
    requires ValidInput(i) && ValidInput(j) && i.base == j.base && i.factorMilli == j.factorMilli && i.cap == j.cap
    requires i.ordinal <= j.ordinal && i.multiplierMilli <= j.multiplierMilli
    requires i.retryAfter.Some? ==> j.retryAfter.Some? && i.retryAfter.value <= j.retryAfter.value
    ensures Delay(i) <= Delay(j)
  {
    ExponentialMonotone(i.base, i.factorMilli, i.cap, i.ordinal, j.ordinal);
    ScaleMonotone(Exponential(i.base, i.factorMilli, i.cap, i.ordinal),
                  Exponential(j.base, j.factorMilli, j.cap, j.ordinal),
                  i.multiplierMilli, j.multiplierMilli);
  }

  /** The delay is the larger of the provider's wish and the smaller of the cap and the jittered
      exponential, rounded down. */
  lemma DelayExact(i: DelayInput, e: nat, d: int)
    requires ValidInput(i) && e == Exponential(i.base, i.factorMilli, i.cap, i.ordinal) && d == Delay(i)
    ensures i.retryAfter.Some? ==> d >= i.retryAfter.value
    ensures i.retryAfter == Some(d) || (d <= i.cap && 1_000 * d <= e * i.multiplierMilli)
    ensures d >= i.cap || 1_000 * (d + 1) > e * i.multiplierMilli
  {
    ExponentialRange(i.base, i.factorMilli, i.cap, i.ordinal);
    ScaleMonotone(1_000, e, 500, i.multiplierMilli);
  }

  // ---------- Admission ----------

  datatype Admission = Exhausted | Eligible(retryIndex: nat)

  function RetryAdmissionV1(completed: nat, maxAttempts: nat): Result<Admission> {
    if !(1 <= maxAttempts <= 1_024) || completed == 0 || completed > maxAttempts then Rejected
    else if completed >= maxAttempts then Ok(Exhausted)
    else Ok(Eligible(completed - 1))
  }

  // ---------- Wake boundary ----------

  const I64_MIN: int := -0x8000_0000_0000_0000
  const I64_MAX: int := 0x7FFF_FFFF_FFFF_FFFF

  function Checked(x: int): Result<int> {
    if I64_MIN <= x <= I64_MAX then Ok(x) else Rejected
  }

  datatype WakeInput = WakeInput(safeNow: int, retryMs: int, expiresAt: Option<int>, createdAt: int, maxAgeMs: int)
  datatype Wake = Wake(selected: int, retryIsStrictlyEarliest: bool)

  predicate WakeDomain(i: WakeInput) {
    1 <= i.retryMs <= 3_600_000 && 1_000 <= i.maxAgeMs <= 2_592_000_000
  }

  /** The boundaries in play: retry, maximum age, and expiry if there is one. */
  function Deadlines(i: WakeInput): seq<int> {
    [i.safeNow + i.retryMs, i.createdAt + i.maxAgeMs] + if i.expiresAt.Some? then [i.expiresAt.value] else []
  }

  /** `durable_wake_boundary_v1`: refused exactly outside the domain or when a sum overflows,
      else the earliest boundary, with the flag set exactly when the retry beats all the others. */
  method DurableWakeBoundaryV1(i: WakeInput) returns (r: Result<Wake>)
    ensures r.Ok? <==> WakeDomain(i) && I64_MIN <= i.safeNow + i.retryMs <= I64_MAX
                       && I64_MIN <= i.createdAt + i.maxAgeMs <= I64_MAX
    ensures r.Ok? ==> r.value.selected in Deadlines(i) && forall k ::
        0 <= k < |Deadlines(i)| ==> r.value.selected <= Deadlines(i)[k]
    ensures r.Ok? ==> (r.value.retryIsStrictlyEarliest <==>
                       forall k :: 0 < k < |Deadlines(i)| ==> i.safeNow + i.retryMs < Deadlines(i)[k])
  {
    if !(1 <= i.retryMs <= 3_600_000) || !(1_000 <= i.maxAgeMs <= 2_592_000_000) {
      return Rejected;
    }
    var retryDeadline := Checked(i.safeNow + i.retryMs);
    if retryDeadline.Rejected? {
      return Rejected;
    }
    var maximumAgeDeadline := Checked(i.createdAt + i.maxAgeMs);
    if maximumAgeDeadline.Rejected? {
      return Rejected;
    }
    ghost var all := Deadlines(i);
    assert all[0] == retryDeadline.value && all[1] == maximumAgeDeadline.value;
    assert i.expiresAt.Some? ==> all[2] == i.expiresAt.value;
    var selected, strictlyEarliest := retryDeadline.value, true;
    if i.expiresAt.Some? && i.expiresAt.value <= selected {
      selected, strictlyEarliest := i.expiresAt.value, false;
    }
    if maximumAgeDeadline.value <= selected {
      selected, strictlyEarliest := maximumAgeDeadline.value, false;
    }
    return Ok(Wake(selected, strictlyEarliest));
  }

  // ---------- Jitter ----------

  const REJECTION_LIMIT: nat := 0xffff_fd94

  /** Candidates below `n` that draw the multiplier `m`. */
  function Hits(m: nat, n: nat): nat {
    if n == 0 then 0 else Hits(m, n - 1) + if 500 + (n - 1) % 1_001 == m then 1 else 0
  }

  lemma {:induction false} HitsClosed(m: nat, n: nat)
    requires 500 <= m <= 1_500
    ensures Hits(m, n) == (n + 1_500 - m) / 1_001
  {
    if n > 0 {
      HitsClosed(m, n - 1);
      CycleStep(n - 1, m - 500);
    }
  }

  lemma CycleStep(c: nat, r: nat)
    requires r <= 1_000
    ensures (c + 1 + 1_000 - r) / 1_001 == (c + 1_000 - r) / 1_001 + if c % 1_001 == r then 1 else 0
  {
    var q, s := c / 1_001, c % 1_001;
    assert c == 1_001 * q + s;
    assert (c + 1_000 - r) / 1_001 == if s <= r then q else q + 1;
    assert (c + 1 + 1_000 - r) / 1_001 == if s < r then q else q + 1;
  }

  /** Below the rejection limit every multiplier is drawn by equally many 32-bit values. */
  lemma {:induction false} JitterIsUniform(m: nat)
    requires 500 <= m <= 1_500
    ensures Hits(m, REJECTION_LIMIT) == 4_290_676 && REJECTION_LIMIT == 1_001 * 4_290_676
  {
    HitsClosed(m, REJECTION_LIMIT);
  }

  type messageid = b: bytes | |b| == 16 witness seq(16, _ => 0)
  type tagbytes = b: bytes | |b| == 32 witness seq(32, _ => 0)

  datatype JitterRequest = JitterRequest(version: nat, key: Mac.KeyRef, messageId: messageid, ordinal: nat)
  datatype JitterOutcome = MultiplierMilli(value: nat) | InvalidDerivation | Unavailable
  datatype JitterTag = JitterTag(key: Mac.KeyRef, tag: tagbytes)

  predicate IsUuidV7(id: messageid) { id[6] / 16 == 7 && id[8] / 64 == 2 }

  predicate ValidRequest(r: JitterRequest) {
    r.version == 1 && 1 <= r.ordinal <= 1_023 && r.key.purpose == Mac.RetryJitter && IsUuidV7(r.messageId)
  }

  const JITTER_DOMAIN: bytes := Mac.Canon.Ascii("msgriver/retry-jitter/v1") + [0]

  function FramedInput(r: JitterRequest, counter: byte): bytes {
    JITTER_DOMAIN + (r.key.keyId + (r.messageId + (BigEndian(r.ordinal, 2) + [counter])))
  }

  function Candidate(tag: tagbytes): nat {
    var b0: int, b1: int, b2: int, b3: int := tag[0], tag[1], tag[2], tag[3];
    ((b0 * 256 + b1) * 256 + b2) * 256 + b3
  }

  /** The candidate is the big-endian number of the first four bytes of the tag. */
  lemma {:induction false} CandidateIsBigEndian(tag: tagbytes)
    ensures Candidate(tag) == FromBigEndian(tag[..4])
  {
    var b := tag[..4];
    var b3, b2, b1 := b[..3], b[..2], b[..1];
    assert b3[..2] == b2 && b2[..1] == b1 && b1[..0] == [];
    assert FromBigEndian(b3) == FromBigEndian(b2) * 256 + b[2];
    assert FromBigEndian(b2) == FromBigEndian(b1) * 256 + b[1];
  }

  type Provider = (Mac.KeyRef, bytes) -> Option<JitterTag>

  predicate Answers(provider: Provider, r: JitterRequest, counter: byte) {
    var t := provider(r.key, FramedInput(r, counter)); t.Some? && t.value.key == r.key
  }

  predicate Accepts(provider: Provider, r: JitterRequest, counter: byte) {
    Answers(provider, r, counter) && Candidate(provider(r.key, FramedInput(r, counter)).value.tag) < REJECTION_LIMIT
  }

  /** Counter `c` is the first accepted one, after tags that all answered, and draws `m`. */
  ghost predicate DrawnAt(provider: Provider, r: JitterRequest, c: byte, m: nat) {
    && Accepts(provider, r, c)
    && (forall d: byte :: d < c ==> Answers(provider, r, d) && !Accepts(provider, r, d))
    && m == 500 + Candidate(provider(r.key, FramedInput(r, c)).value.tag) % 1_001
  }

  ghost predicate NeverAccepts(provider: Provider, r: JitterRequest) {
    forall c: byte :: !Accepts(provider, r, c)
  }

  /** No usable tag for counter `c`, and nothing accepted before it. */
  ghost predicate SilentAt(provider: Provider, r: JitterRequest, c: byte) {
    !Answers(provider, r, c) && forall d: byte :: d < c ==> !Accepts(provider, r, d)
  }

  /** `derive_retry_jitter`: the first of 256 counters whose tag is below the limit decides; a
      missing or mis-keyed tag before it, or no such counter, is unavailable. */
  method DeriveRetryJitter(provider: Provider, r: JitterRequest) returns (out: JitterOutcome)
    ensures out.InvalidDerivation? <==> !ValidRequest(r)
    ensures out.MultiplierMilli? ==> 500 <= out.value <= 1_500 && exists c: byte :: DrawnAt(provider, r, c, out.value)
    ensures out.Unavailable? ==>
        ValidRequest(r) && (NeverAccepts(provider, r) || exists c: byte :: SilentAt(provider, r, c))
  {
    if !ValidRequest(r) {
      return InvalidDerivation;
    }
    for counter := 0 to 256
      invariant forall d: byte :: d < counter ==> Answers(provider, r, d) && !Accepts(provider, r, d)
    {
      var c: byte := counter;
      var tag := provider(r.key, FramedInput(r, c));
      if tag.None? || tag.value.key != r.key {
        assert SilentAt(provider, r, c);
        return Unavailable;
      }
      var candidate := Candidate(tag.value.tag);
      if candidate < REJECTION_LIMIT {
        assert DrawnAt(provider, r, c, 500 + candidate % 1_001);
        return MultiplierMilli(500 + candidate % 1_001);
      }
    }
    return Unavailable;
  }

  /** No two derivations share a framed input: key id, message, ordinal and counter all show. */
  lemma FramedInputInjective(r: JitterRequest, c: byte, s: JitterRequest, d: byte)
    requires r.ordinal <= 1_023 && s.ordinal <= 1_023 && FramedInput(r, c) == FramedInput(s, d)
    ensures r.key.keyId == s.key.keyId && r.messageId == s.messageId && r.ordinal == s.ordinal && c == d
  {
    var ro, so := BigEndian(r.ordinal, 2) + [c], BigEndian(s.ordinal, 2) + [d];
    SplitEqual(JITTER_DOMAIN, r.key.keyId + (r.messageId + ro), JITTER_DOMAIN, s.key.keyId + (s.messageId + so));
    SplitEqual(r.key.keyId, r.messageId + ro, s.key.keyId, s.messageId + so);
    SplitEqual(r.messageId, ro, s.messageId, so);
    SplitEqual(BigEndian(r.ordinal, 2), [c], BigEndian(s.ordinal, 2), [d]);
    PowersOf256();
    BigEndianInjective(r.ordinal, s.ordinal, 2);
    assert [c][0] == [d][0];
  }

  // ---------- The pieces fit together ----------

  /** An eligible attempt, a derived multiplier and a parsed `Retry-After` are valid delay input
      under every valid policy, and the resulting delay is valid wake input. */
  lemma PipelineFits(base: nat, factorMilli: nat, cap: nat, completed: nat, maxAttempts: nat, multiplier: nat,
                     header: bytes, now: int)
    requires ValidPolicy(base, factorMilli, cap) && RetryAdmissionV1(completed, maxAttempts).Ok?
    requires RetryAdmissionV1(completed, maxAttempts).value.Eligible? && 500 <= multiplier <= 1_500
    ensures var i := DelayInput(base, factorMilli, cap, completed, multiplier, RetryAfter.ParseRetryAfter(header, now));
      ValidInput(i) && 1 <= Delay(i) <= 3_600_000
          && completed == RetryAdmissionV1(completed, maxAttempts).value.retryIndex + 1
  {
    ExponentialRange(base, factorMilli, cap, completed);
  }
}
