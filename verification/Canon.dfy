/** Canonical request bytes of crates/msgriver-core/src/canon.rs: two length-prefixed layouts
    over normalised requests. */
module Canon {
  import opened Wrappers
  import opened Bytes

  // ---------- Ordered sets of byte strings ----------

  predicate Less(a: bytes, b: bytes) {
    if b == [] then false
    else if a == [] then true
    else a[0] < b[0] || (a[0] == b[0] && Less(a[1..], b[1..]))
  }

  lemma {:induction false} LessTotal(a: bytes, b: bytes)
    requires a != b
    ensures Less(a, b) || Less(b, a)
  {
    if a != [] && b != [] && a[0] == b[0] {
      assert a == [a[0]] + a[1..] && b == [b[0]] + b[1..];
      LessTotal(a[1..], b[1..]);
    }
  }

  lemma {:induction false} LessTransitive(a: bytes, b: bytes, c: bytes)
    requires Less(a, b) && Less(b, c)
    ensures Less(a, c)
  {
    if a != [] && b != [] && c != [] && a[0] == b[0] == c[0] {
      LessTransitive(a[1..], b[1..], c[1..]);
    }
  }

  lemma {:induction false} LessIrreflexive(a: bytes)
    ensures !Less(a, a)
  {
    if a != [] {
      LessIrreflexive(a[1..]);
    }
  }

  ghost predicate Increasing(tags: seq<bytes>) {
    forall i, j :: 0 <= i < j < |tags| ==> Less(tags[i], tags[j])
  }

  function InsertTag(tag: bytes, tags: seq<bytes>): seq<bytes> {
    if tags == [] then [tag]
    else if tag == tags[0] then tags
    else if Less(tag, tags[0]) then [tag] + tags
    else [tags[0]] + InsertTag(tag, tags[1..])
  }

  /** `sort` and `dedup`. */
  function SortDedup(tags: seq<bytes>): seq<bytes> {
    if tags == [] then [] else InsertTag(tags[0], SortDedup(tags[1..]))
  }

  lemma {:induction false} InsertTagOk(tag: bytes, tags: seq<bytes>)
    requires Increasing(tags)
    ensures Increasing(InsertTag(tag, tags))
    ensures forall t :: t in InsertTag(tag, tags) <==> t == tag || t in tags
  {
    if tags != [] && tag != tags[0] {
      if Less(tag, tags[0]) {
        forall i | 0 < i < |tags|
          ensures Less(tag, tags[i])
        {
          LessTransitive(tag, tags[0], tags[i]);
        }
      } else {
        LessTotal(tag, tags[0]);
        InsertTagOk(tag, tags[1..]);
        var rest := InsertTag(tag, tags[1..]);
        assert forall t :: t in tags <==> t == tags[0] || t in tags[1..];
        forall i | 0 <= i < |rest|
          ensures Less(tags[0], rest[i])
        {
          assert rest[i] in rest;
        }
      }
    }
  }

  lemma {:induction false} SortDedupOk(tags: seq<bytes>)
    ensures Increasing(SortDedup(tags))
    ensures forall t :: t in SortDedup(tags) <==> t in tags
  {
    if tags != [] {
      SortDedupOk(tags[1..]);
      InsertTagOk(tags[0], SortDedup(tags[1..]));
      assert tags == [tags[0]] + tags[1..];
    }
  }

  lemma TailElements(a: seq<bytes>, t: bytes)
    requires Increasing(a) && a != []
    ensures t in a[1..] <==> t in a && t != a[0]
  {
    assert a == [a[0]] + a[1..];
    if t in a[1..] {
      var i :| 0 <= i < |a[1..]| && a[1..][i] == t;
      assert Less(a[0], a[i + 1]);
      LessIrreflexive(a[0]);
    }
  }

  /** A strictly increasing list is determined by its elements. */
  lemma {:induction false} IncreasingUnique(a: seq<bytes>, b: seq<bytes>)
    requires Increasing(a) && Increasing(b) && forall t :: t in a <==> t in b
    ensures a == b
  {
    assert a != [] ==> a[0] in a;
    assert b != [] ==> b[0] in b;
    if a != [] && b != [] {
      if a[0] != b[0] {
        var i :| 0 <= i < |b| && b[i] == a[0];
        var j :| 0 <= j < |a| && a[j] == b[0];
        LessTransitive(a[0], b[0], a[0]);
        LessIrreflexive(a[0]);
      }
      forall t
        ensures t in a[1..] <==> t in b[1..]
      {
        TailElements(a, t);
        TailElements(b, t);
      }
      IncreasingUnique(a[1..], b[1..]);
      assert a == [a[0]] + a[1..] && b == [b[0]] + b[1..];
    }
  }

  /** Order and repetition of tags do not matter. */
  lemma {:induction false} SameTagsSameList(a: seq<bytes>, b: seq<bytes>)
    ensures SortDedup(a) == SortDedup(b) <==> forall t :: t in a <==> t in b
  {
    SortDedupOk(a);
    SortDedupOk(b);
    if forall t :: t in a <==> t in b {
      IncreasingUnique(SortDedup(a), SortDedup(b));
    }
  }

  // ---------- UTF-8 (RFC 3629, section 4) ----------

  predicate Tail(b: byte) { 0x80 <= b <= 0xBF }

  /** Bytes of the well-formed character `b` starts with, or 0. */
  function CharWidth(b: bytes): (n: nat)
    ensures n <= |b|
  {
    if |b| >= 1 && b[0] <= 0x7F then 1
    else if |b| >= 2 && 0xC2 <= b[0] <= 0xDF && Tail(b[1]) then 2
    else if |b| >= 3 && Tail(b[2])
      && ((b[0] == 0xE0 && 0xA0 <= b[1] <= 0xBF) || (0xE1 <= b[0] <= 0xEC && Tail(b[1]))
          || (b[0] == 0xED && 0x80 <= b[1] <= 0x9F) || (0xEE <= b[0] <= 0xEF && Tail(b[1]))) then 3
    else if |b| >= 4 && Tail(b[2]) && Tail(b[3])
      && ((b[0] == 0xF0 && 0x90 <= b[1] <= 0xBF) || (0xF1 <= b[0] <= 0xF3 && Tail(b[1]))
          || (b[0] == 0xF4 && 0x80 <= b[1] <= 0x8F)) then 4
    else 0
  }

  predicate FromUtf8(b: bytes)
    decreases |b|
  {
    b == [] || (CharWidth(b) > 0 && FromUtf8(b[CharWidth(b)..]))
  }

  predicate ValidAscii(b: bytes) {
    b != [] && forall i :: 0 <= i < |b| ==> b[i] < 0x80
  }

  // ---------- Requests ----------

  datatype CanonicalInput = CanonicalInput(
    provider: bytes, destinationKind: bytes, destinationSchemaVersion: nat, destinationFields: seq<bytes>,
    contentKind: bytes, contentSchemaVersion: nat, contentFields: seq<bytes>,
    optionsKind: Option<bytes>, optionsSchemaVersion: Option<nat>, optionsFields: seq<bytes>, optionsSetLike: bool,
    expiresAtMillis: Option<int>, correlationId: Option<bytes>)

  /** ASCII text as bytes. */
  function Ascii(s: string): bytes
    requires forall i :: 0 <= i < |s| ==> s[i] as int < 0x80
  {
    seq(|s|, i requires 0 <= i < |s| => s[i] as int)
  }

  const NTFY: bytes := Ascii("ntfy")
  const NTFY_TOPIC: bytes := Ascii("ntfy_topic")
  const TEXT: bytes := Ascii("text")
  const DEFAULT: bytes := Ascii("default")

  /** What a request means once its layout is chosen.  The older layout keeps all option fields as
      one set; the newer one knows a priority and a set of tags, and expands defaults. */
  datatype NormalForm =
    | Older(topic: bytes, title: bytes, text: bytes, options: Option<seq<bytes>>)
    | Newer(topic: bytes, optionalTitle: Option<bytes>, text: bytes, priority: bytes, tags: seq<bytes>,
            expiry: Option<int>, correlation: Option<bytes>)

  predicate NtfyTextKinds(input: CanonicalInput) {
    && input.provider == NTFY && input.destinationKind == NTFY_TOPIC && input.destinationSchemaVersion == 1
    && |input.destinationFields| == 1 && input.contentKind == TEXT && input.contentSchemaVersion == 1
  }

  predicate NoOptions(input: CanonicalInput) {
    input.optionsKind == None && input.optionsSchemaVersion == None && !input.optionsSetLike
        && input.optionsFields == []
  }

  predicate NtfyOptions(input: CanonicalInput) {
    input.optionsKind == Some(NTFY) && input.optionsSchemaVersion == Some(1) && input.optionsSetLike
  }

  predicate AllAscii(fields: seq<bytes>) { forall i :: 0 <= i < |fields| ==> ValidAscii(fields[i]) }

  /** What `legacy_canonical_request_v1` accepts. */
  predicate OlderAccepts(input: CanonicalInput) {
    && input.expiresAtMillis == None && input.correlationId == None && NtfyTextKinds(input)
    && |input.contentFields| == 2 && AllAscii(input.destinationFields) && AllAscii(input.contentFields)
    && (NoOptions(input) || (NtfyOptions(input) && input.optionsFields != [] && AllAscii(input.optionsFields)))
  }

  /** `normalized_transition_tags`. */
  predicate TransitionTags(input: CanonicalInput) {
    && NtfyOptions(input) && input.optionsFields != [] && input.optionsFields[0] == DEFAULT
    && SortDedup(input.optionsFields[1..]) == [Ascii("apple"), Ascii("mango"), Ascii("zebra")]
  }

  /** `admitted_first_slice_profile`. */
  predicate Admitted(input: CanonicalInput) {
    || (input.expiresAtMillis.Some? && input.correlationId.Some? && NtfyOptions(input))
    || (input.destinationFields == [Ascii("alerts")] && input.contentFields == [Ascii("hello")]
        && input.expiresAtMillis == None && input.correlationId == None && (NoOptions(input) || TransitionTags(input)))
  }

  predicate ContentAccepted(input: CanonicalInput) {
    && 1 <= |input.contentFields| <= 2
    && input.contentFields[|input.contentFields| - 1] != []
    && forall i :: 0 <= i < |input.contentFields| ==> FromUtf8(input.contentFields[i])
  }

  predicate NewerAccepts(input: CanonicalInput) {
    && Admitted(input) && NtfyTextKinds(input) && ValidAscii(input.destinationFields[0]) && ContentAccepted(input)
    && (NoOptions(input) || (NtfyOptions(input) && input.optionsFields != [] && AllAscii(input.optionsFields)))
    && (input.correlationId.Some? ==> ValidAscii(input.correlationId.value))
  }

  function Normalize(input: CanonicalInput): Option<NormalForm> {
    if OlderAccepts(input) then
      Some(Older(input.destinationFields[0], input.contentFields[0], input.contentFields[1],
                 if NoOptions(input) then None else Some(SortDedup(input.optionsFields))))
    else if NewerAccepts(input) then
      Some(Newer(input.destinationFields[0],
                 if |input.contentFields| == 2 then Some(input.contentFields[0]) else None,
                 input.contentFields[|input.contentFields| - 1],
                 if NoOptions(input) then DEFAULT else input.optionsFields[0],
                 if NoOptions(input) then [] else SortDedup(input.optionsFields[1..]),
                 input.expiresAtMillis, input.correlationId))
    else None
  }

  // ---------- The two layouts ----------

  function U32(x: nat): bytes { BigEndian(x % TWO_32, 4) }

  function Frames(fields: seq<bytes>): bytes {
    if fields == [] then [] else Lp32(fields[0]) + Frames(fields[1..])
  }

  const MAGIC: bytes := Ascii("msgriver-request") + [0]

  function SegmentHead(role: byte, schema: bytes, kind: bytes): bytes {
    [role] + Lp32(schema) + Lp32(kind) + U32(1)
  }

  const DESTINATION_HEAD: bytes := SegmentHead(1, Ascii("msgriver://schema/ntfy-topic/1"), NTFY_TOPIC)
  const CONTENT_HEAD: bytes := SegmentHead(2, Ascii("msgriver://schema/text/1"), TEXT)
  const NEWER_HEAD: bytes := U32(1) + Lp32(NTFY) + DESTINATION_HEAD
  const OPTIONS_START: bytes := [1] + OPTIONS_HEAD
  const OPTIONS_HEAD: bytes := SegmentHead(3, Ascii("msgriver://schema/ntfy-options/1"), NTFY)

  function ContentPayload(title: Option<bytes>, text: bytes): bytes {
    (if title.Some? then [1] + Lp32(title.value) else [0]) + Lp32(text)
  }

  function OptionsPayload(priority: bytes, tags: seq<bytes>): bytes {
    Lp32(priority) + U32(|tags|) + Frames(tags)
  }

  /** i64 in two's complement. */
  function Signed64(x: int): bytes { BigEndian(x % TWO_64, 8) }

  function ExpiryPart(expiry: Option<int>): bytes {
    if expiry.Some? then [1] + Signed64(expiry.value) else [0]
  }

  function CorrelationPart(correlation: Option<bytes>): bytes {
    if correlation.Some? then [1] + Lp32(correlation.value) else [0]
  }

  function OlderOptions(options: Option<seq<bytes>>): bytes {
    if options.Some? then [1] + Lp32(NTFY) + U32(4) + U32(1) + U32(|options.value|) + Frames(options.value) else [0]
  }

  const OLDER_HEAD: bytes := Lp32(NTFY) + Lp32(NTFY_TOPIC) + U32(4) + U32(1) + U32(1)
  const OLDER_CONTENT: bytes := Lp32(TEXT) + U32(4) + U32(1) + U32(2)

  function Trailer(expiry: Option<int>, correlation: Option<bytes>): bytes {
    ExpiryPart(expiry) + CorrelationPart(correlation)
  }

  function Encode(form: NormalForm): bytes {
    match form
    case Older(topic, title, text, options) =>
      MAGIC + ([1] + (OLDER_HEAD + (Lp32(topic) + (OLDER_CONTENT + (Lp32(title) + (Lp32(text)
      + (OlderOptions(options) + [0, 0])))))))
    case Newer(topic, title, text, priority, tags, expiry, correlation) =>
      MAGIC + (NEWER_HEAD + (Lp32(Lp32(topic))
      + (CONTENT_HEAD + (Lp32(ContentPayload(title, text))
      + (OPTIONS_START + (Lp32(OptionsPayload(priority, tags))
      + Trailer(expiry, correlation)))))))
  }

  /** `canonical_request_v1`, as a function of the normal form. */
  function CanonicalRequest(input: CanonicalInput): Option<bytes> {
    match Normalize(input)
    case None => None
    case Some(form) => Some(Encode(form))
  }

  // ---------- No two normal forms collide ----------

  /** Field sizes a 32-bit length can hold, and an i64 expiry. */
  ghost predicate Fits(form: NormalForm) {
    match form
    case Older(topic, title, text, options) =>
      && |topic| < TWO_32 && |title| < TWO_32 && |text| < TWO_32
      && (options.Some? ==> TagsFit(options.value))
    case Newer(topic, title, text, priority, tags, expiry, correlation) =>
      && |topic| < TWO_32 && (title.Some? ==> |title.value| < TWO_32) && |text| < TWO_32
      && |priority| < TWO_32 && TagsFit(tags)
      && (expiry.Some? ==> -0x8000_0000_0000_0000 <= expiry.value <= 0x7FFF_FFFF_FFFF_FFFF)
      && (correlation.Some? ==> |correlation.value| < TWO_32)
  }

  ghost predicate TagsFit(tags: seq<bytes>) {
    |tags| < TWO_32 && forall i :: 0 <= i < |tags| ==> |tags[i]| < TWO_32
  }

  lemma {:induction false} FramesSplit(a: seq<bytes>, x: bytes, b: seq<bytes>, y: bytes)
    requires |a| == |b| && Frames(a) + x == Frames(b) + y
    requires forall i :: 0 <= i < |a| ==> |a[i]| < TWO_32 && |b[i]| < TWO_32
    ensures a == b && x == y
  {
    if a != [] {
      Reassociate(Lp32(a[0]), Frames(a[1..]), x);
      Reassociate(Lp32(b[0]), Frames(b[1..]), y);
      Lp32Split(a[0], Frames(a[1..]) + x, b[0], Frames(b[1..]) + y);
      FramesSplit(a[1..], x, b[1..], y);
      assert a == [a[0]] + a[1..] && b == [b[0]] + b[1..];
    } else {
      assert Frames(a) + x == x && Frames(b) + y == y;
    }
  }

  lemma {:induction false} CountedSplit(a: seq<bytes>, x: bytes, b: seq<bytes>, y: bytes)
    requires TagsFit(a) && TagsFit(b) && U32(|a|) + (Frames(a) + x) == U32(|b|) + (Frames(b) + y)
    ensures a == b && x == y
  {
    SplitEqual(U32(|a|), Frames(a) + x, U32(|b|), Frames(b) + y);
    CountHeader(|a|, |b|);
    FramesSplit(a, x, b, y);
  }

  lemma CountHeader(a: nat, b: nat)
    requires a < TWO_32 && b < TWO_32 && U32(a) == U32(b)
    ensures a == b
  {
    assert a % TWO_32 == a && b % TWO_32 == b;
    LengthHeader(a, b);
  }

  lemma ContentParts(t: Option<bytes>, a: bytes, x: bytes)
    ensures t.Some? ==> ContentPayload(t, a) + x == [1] + (Lp32(t.value) + (Lp32(a) + x))
    ensures t.None? ==> ContentPayload(t, a) + x == [0] + (Lp32(a) + x)
  {
    if t.Some? {
      Reassociate([1] + Lp32(t.value), Lp32(a), x);
      Reassociate([1], Lp32(t.value), Lp32(a) + x);
    } else {
      Reassociate([0], Lp32(a), x);
    }
  }

  lemma ContentSplit(t: Option<bytes>, a: bytes, x: bytes, u: Option<bytes>, b: bytes, y: bytes)
    requires (t.Some? ==> |t.value| < TWO_32) && (u.Some? ==> |u.value| < TWO_32) && |a| < TWO_32 && |b| < TWO_32
    requires ContentPayload(t, a) + x == ContentPayload(u, b) + y
    ensures t == u && a == b && x == y
  {
    ContentParts(t, a, x);
    ContentParts(u, b, y);
    assert (ContentPayload(t, a) + x)[0] == if t.Some? then 1 else 0;
    assert (ContentPayload(u, b) + y)[0] == if u.Some? then 1 else 0;
    if t.Some? {
      SplitEqual([1], Lp32(t.value) + (Lp32(a) + x), [1], Lp32(u.value) + (Lp32(b) + y));
      Lp32Split(t.value, Lp32(a) + x, u.value, Lp32(b) + y);
    } else {
      SplitEqual([0], Lp32(a) + x, [0], Lp32(b) + y);
    }
    Lp32Split(a, x, b, y);
  }

  lemma {:induction false} OptionsParts(p: bytes, a: seq<bytes>, x: bytes)
    ensures OptionsPayload(p, a) + x == Lp32(p) + (U32(|a|) + (Frames(a) + x))
  {
    Reassociate(Lp32(p) + U32(|a|), Frames(a), x);
    Reassociate(Lp32(p), U32(|a|), Frames(a) + x);
  }

  lemma OptionsSplit(p: bytes, a: seq<bytes>, x: bytes, q: bytes, b: seq<bytes>, y: bytes)
    requires |p| < TWO_32 && |q| < TWO_32 && TagsFit(a) && TagsFit(b)
    requires OptionsPayload(p, a) + x == OptionsPayload(q, b) + y
    ensures p == q && a == b && x == y
  {
    OptionsParts(p, a, x);
    OptionsParts(q, b, y);
    Lp32Split(p, U32(|a|) + (Frames(a) + x), q, U32(|b|) + (Frames(b) + y));
    CountedSplit(a, x, b, y);
  }

  /** A payload whose own length may exceed 32 bits is still delimited by its parts. */
  lemma OuterHeader(p: bytes, x: bytes, q: bytes, y: bytes)
    requires Lp32(p) + x == Lp32(q) + y
    ensures p + x == q + y
  {
    HeaderSplit(BigEndian(|p| % TWO_32, 4), p, x, BigEndian(|q| % TWO_32, 4), q, y);
  }

  lemma SignedInjective(a: int, b: int)
    requires -0x8000_0000_0000_0000 <= a <= 0x7FFF_FFFF_FFFF_FFFF
        && -0x8000_0000_0000_0000 <= b <= 0x7FFF_FFFF_FFFF_FFFF
    requires Signed64(a) == Signed64(b)
    ensures a == b
  {
    LongHeader(a % TWO_64, b % TWO_64);
    SignedResidue(a, b);
  }

  lemma SignedResidue(a: int, b: int)
    requires -0x8000_0000_0000_0000 <= a <= 0x7FFF_FFFF_FFFF_FFFF
        && -0x8000_0000_0000_0000 <= b <= 0x7FFF_FFFF_FFFF_FFFF
    requires a % TWO_64 == b % TWO_64
    ensures a == b
  {
  }

  lemma TrailerInjective(e: Option<int>, c: Option<bytes>, f: Option<int>, d: Option<bytes>)
    requires e.Some? ==> -0x8000_0000_0000_0000 <= e.value <= 0x7FFF_FFFF_FFFF_FFFF
    requires f.Some? ==> -0x8000_0000_0000_0000 <= f.value <= 0x7FFF_FFFF_FFFF_FFFF
    requires (c.Some? ==> |c.value| < TWO_32) && (d.Some? ==> |d.value| < TWO_32)
    requires ExpiryPart(e) + CorrelationPart(c) == ExpiryPart(f) + CorrelationPart(d)
    ensures e == f && c == d
  {
    assert (ExpiryPart(e) + CorrelationPart(c))[0] == if e.Some? then 1 else 0;
    assert (ExpiryPart(f) + CorrelationPart(d))[0] == if f.Some? then 1 else 0;
    SplitEqual(ExpiryPart(e), CorrelationPart(c), ExpiryPart(f), CorrelationPart(d));
    if e.Some? {
      SplitEqual([1], Signed64(e.value), [1], Signed64(f.value));
      SignedInjective(e.value, f.value);
    }
    assert CorrelationPart(c)[0] == if c.Some? then 1 else 0;
    assert CorrelationPart(d)[0] == if d.Some? then 1 else 0;
    if c.Some? {
      SplitEqual([1], Lp32(c.value), [1], Lp32(d.value));
      assert Lp32(c.value) + [] == Lp32(c.value) && Lp32(d.value) + [] == Lp32(d.value);
      Lp32Split(c.value, [], d.value, []);
    }
  }

  lemma OlderOptionsSplit(a: Option<seq<bytes>>, x: bytes, b: Option<seq<bytes>>, y: bytes)
    requires (a.Some? ==> TagsFit(a.value)) && (b.Some? ==> TagsFit(b.value))
    requires OlderOptions(a) + x == OlderOptions(b) + y
    ensures a == b && x == y
  {
    assert (OlderOptions(a) + x)[0] == if a.Some? then 1 else 0;
    assert (OlderOptions(b) + y)[0] == if b.Some? then 1 else 0;
    if a.Some? {
      var head := [1] + Lp32(NTFY) + U32(4) + U32(1);
      OlderTags(head, a.value, x);
      OlderTags(head, b.value, y);
      SplitEqual(head, U32(|a.value|) + (Frames(a.value) + x), head, U32(|b.value|) + (Frames(b.value) + y));
      CountedSplit(a.value, x, b.value, y);
    } else {
      SplitEqual([0], x, [0], y);
    }
  }

  lemma {:induction false} OlderTags(head: bytes, tags: seq<bytes>, x: bytes)
    ensures head + U32(|tags|) + Frames(tags) + x == head + (U32(|tags|) + (Frames(tags) + x))
  {
    Reassociate(head + U32(|tags|), Frames(tags), x);
    Reassociate(head, U32(|tags|), Frames(tags) + x);
  }

  lemma OlderInjective(f: NormalForm, g: NormalForm)
    requires f.Older? && g.Older? && Fits(f) && Fits(g) && Encode(f) == Encode(g)
    ensures f == g
  {
    var fo, go := OlderOptions(f.options) + [0, 0], OlderOptions(g.options) + [0, 0];
    var ft, gt := Lp32(f.title) + (Lp32(f.text) + fo), Lp32(g.title) + (Lp32(g.text) + go);
    var fb, gb := Lp32(f.topic) + (OLDER_CONTENT + ft), Lp32(g.topic) + (OLDER_CONTENT + gt);
    SplitEqual(MAGIC, [1] + (OLDER_HEAD + fb), MAGIC, [1] + (OLDER_HEAD + gb));
    SplitEqual([1], OLDER_HEAD + fb, [1], OLDER_HEAD + gb);
    SplitEqual(OLDER_HEAD, fb, OLDER_HEAD, gb);
    Lp32Split(f.topic, OLDER_CONTENT + ft, g.topic, OLDER_CONTENT + gt);
    SplitEqual(OLDER_CONTENT, ft, OLDER_CONTENT, gt);
    Lp32Split(f.title, Lp32(f.text) + fo, g.title, Lp32(g.text) + go);
    Lp32Split(f.text, fo, g.text, go);
    OlderOptionsSplit(f.options, [0, 0], g.options, [0, 0]);
  }

  lemma NewerInjective(f: NormalForm, g: NormalForm)
    requires f.Newer? && g.Newer? && Fits(f) && Fits(g) && Encode(f) == Encode(g)
    ensures f == g
  {
    var fe, ge := Trailer(f.expiry, f.correlation), Trailer(g.expiry, g.correlation);
    var fp, gp := OptionsPayload(f.priority, f.tags), OptionsPayload(g.priority, g.tags);
    var fo, go := OPTIONS_START + (Lp32(fp) + fe), OPTIONS_START + (Lp32(gp) + ge);
    var fc, gc := ContentPayload(f.optionalTitle, f.text), ContentPayload(g.optionalTitle, g.text);
    var fb, gb := CONTENT_HEAD + (Lp32(fc) + fo), CONTENT_HEAD + (Lp32(gc) + go);
    SplitEqual(MAGIC, NEWER_HEAD + (Lp32(Lp32(f.topic)) + fb), MAGIC, NEWER_HEAD + (Lp32(Lp32(g.topic)) + gb));
    SplitEqual(NEWER_HEAD, Lp32(Lp32(f.topic)) + fb, NEWER_HEAD, Lp32(Lp32(g.topic)) + gb);
    OuterHeader(Lp32(f.topic), fb, Lp32(g.topic), gb);
    Lp32Split(f.topic, fb, g.topic, gb);
    SplitEqual(CONTENT_HEAD, Lp32(fc) + fo, CONTENT_HEAD, Lp32(gc) + go);
    OuterHeader(fc, fo, gc, go);
    ContentSplit(f.optionalTitle, f.text, fo, g.optionalTitle, g.text, go);
    SplitEqual(OPTIONS_START, Lp32(fp) + fe, OPTIONS_START, Lp32(gp) + ge);
    OuterHeader(fp, fe, gp, ge);
    OptionsSplit(f.priority, f.tags, fe, g.priority, g.tags, ge);
    TrailerInjective(f.expiry, f.correlation, g.expiry, g.correlation);
  }

  /** The byte after the magic is 1 in the older layout and 0 in the newer one. */
  lemma LayoutsDiffer(f: NormalForm, g: NormalForm)
    requires f.Older? && g.Newer?
    ensures Encode(f) != Encode(g)
  {
    assert Encode(f)[|MAGIC|] == 1;
    assert NEWER_HEAD[0] == 0 by {
      assert U32(1)[0] == 0 by {
        LeadingZero();
      }
    }
    assert Encode(g)[|MAGIC|] == NEWER_HEAD[0];
  }

  lemma LeadingZero()
    ensures U32(1) == [0, 0, 0, 1]
  {
    assert BigEndian(1, 4) == BigEndian(0, 3) + [1] && BigEndian(0, 3) == BigEndian(0, 2) + [0];
    assert BigEndian(0, 2) == BigEndian(0, 1) + [0] && BigEndian(0, 1) == BigEndian(0, 0) + [0];
  }

  /** Two accepted requests have the same canonical bytes exactly when they have the same normal
      form. */
  lemma CanonicalExact(a: CanonicalInput, b: CanonicalInput)
    requires Normalize(a).Some? && Normalize(b).Some? && Fits(Normalize(a).value) && Fits(Normalize(b).value)
    ensures CanonicalRequest(a) == CanonicalRequest(b) <==> Normalize(a) == Normalize(b)
  {
    var f, g := Normalize(a).value, Normalize(b).value;
    if Encode(f) == Encode(g) {
      if f.Older? && g.Newer? {
        LayoutsDiffer(f, g);
      } else if f.Newer? && g.Older? {
        LayoutsDiffer(g, f);
      } else if f.Older? {
        OlderInjective(f, g);
      } else {
        NewerInjective(f, g);
      }
    }
  }

  // ---------- What the normal forms say ----------

  /** In either layout, order and repetition among the tags change nothing. */
  lemma TagsAreASet(a: CanonicalInput, fields: seq<bytes>)
    requires NtfyOptions(a) && a.optionsFields != [] && fields != [] && fields[0] == a.optionsFields[0]
    requires forall t :: t in fields[1..] <==> t in a.optionsFields[1..]
    ensures Normalize(a.(optionsFields := fields)) == Normalize(a)
  {
    var b := a.(optionsFields := fields);
    SameTagsSameList(fields[1..], a.optionsFields[1..]);
    assert fields == [fields[0]] + fields[1..] && a.optionsFields == [fields[0]] + a.optionsFields[1..];
    SameTagsSameList(fields, a.optionsFields);
    AllAsciiBySet(fields, a.optionsFields);
    assert TransitionTags(b) == TransitionTags(a);
  }

  lemma AllAsciiBySet(a: seq<bytes>, b: seq<bytes>)
    requires forall t :: t in a <==> t in b
    ensures AllAscii(a) == AllAscii(b)
  {
    if AllAscii(a) {
      forall i | 0 <= i < |b|
        ensures ValidAscii(b[i])
      {
        assert b[i] in a;
      }
    }
    if AllAscii(b) {
      forall i | 0 <= i < |a|
        ensures ValidAscii(a[i])
      {
        assert a[i] in b;
      }
    }
  }

  /** Two requests of the older layout that differ in options only have the same bytes exactly when
      their option fields are the same set.  The first field, a priority in the newer layout, has
      no place of its own: exchanging it with a tag goes unnoticed. */
  lemma OlderOptionsExact(a: CanonicalInput, fields: seq<bytes>)
    requires OlderAccepts(a) && NtfyOptions(a) && OlderAccepts(a.(optionsFields := fields))
    requires Fits(Normalize(a).value) && Fits(Normalize(a.(optionsFields := fields)).value)
    ensures CanonicalRequest(a.(optionsFields := fields)) == CanonicalRequest(a) <==>
              forall t :: t in fields <==> t in a.optionsFields
  {
    CanonicalExact(a, a.(optionsFields := fields));
    SameTagsSameList(fields, a.optionsFields);
  }

  const HIGH: bytes := Ascii("high")
  const URGENT: bytes := Ascii("urgent")

  const SAMPLE := CanonicalInput(NTFY, NTFY_TOPIC, 1, [Ascii("alerts")], TEXT, 1, [Ascii("title"), Ascii("body")],
                                 Some(NTFY), Some(1), [HIGH, URGENT], true, None, None)

  /** A concrete pair: priority high with tag urgent, and priority urgent with tag high. */
  lemma PriorityIsLost()
    ensures var swapped := SAMPLE.(optionsFields := [URGENT, HIGH]);
      SAMPLE != swapped && CanonicalRequest(SAMPLE).Some? && CanonicalRequest(SAMPLE) == CanonicalRequest(swapped)
  {
    assert HIGH[0] != URGENT[0];
    assert OlderAccepts(SAMPLE) && OlderAccepts(SAMPLE.(optionsFields := [URGENT, HIGH]));
    SameTagsSameList([HIGH, URGENT], [URGENT, HIGH]);
  }

  /** The newer layout keeps the priority apart and expands the default. */
  lemma NewerOptionsExact(a: CanonicalInput, fields: seq<bytes>)
    requires !OlderAccepts(a) && NewerAccepts(a) && NtfyOptions(a)
    requires !OlderAccepts(a.(optionsFields := fields)) && NewerAccepts(a.(optionsFields := fields))
    requires Fits(Normalize(a).value) && Fits(Normalize(a.(optionsFields := fields)).value)
    ensures CanonicalRequest(a.(optionsFields := fields)) == CanonicalRequest(a) <==>
              fields[0] == a.optionsFields[0] && forall t :: t in fields[1..] <==> t in a.optionsFields[1..]
  {
    var b := a.(optionsFields := fields);
    CanonicalExact(a, b);
    NewerForm(a);
    NewerForm(b);
    SameTagsSameList(fields[1..], a.optionsFields[1..]);
  }

  lemma NewerForm(a: CanonicalInput)
    requires !OlderAccepts(a) && NewerAccepts(a) && NtfyOptions(a)
    ensures Normalize(a).Some? && Normalize(a).value.Newer?
    ensures Normalize(a).value ==
      Newer(a.destinationFields[0], if |a.contentFields| == 2 then Some(a.contentFields[0]) else None,
            a.contentFields[|a.contentFields| - 1], a.optionsFields[0], SortDedup(a.optionsFields[1..]),
            a.expiresAtMillis, a.correlationId)
  {
  }

  // ---------- One meaning for both layouts ----------

  /** What a request asks for, whatever bytes it gets: the default priority stands for omitted
      options, and the tags are a set. */
  datatype Meaning = Meaning(topic: bytes, title: Option<bytes>, text: bytes, priority: bytes, tags: set<bytes>,
                             expiry: Option<int>, correlation: Option<bytes>)

  ghost predicate Accepted(a: CanonicalInput) { Normalize(a).Some? && Fits(Normalize(a).value) }

  function TagSet(fields: seq<bytes>): set<bytes> { set t | t in fields }

  function MeaningOf(a: CanonicalInput): Meaning
    requires Normalize(a).Some?
  {
    Meaning(a.destinationFields[0], if |a.contentFields| == 2 then Some(a.contentFields[0]) else None,
            a.contentFields[|a.contentFields| - 1],
            if NoOptions(a) then DEFAULT else a.optionsFields[0],
            if NoOptions(a) then {} else TagSet(a.optionsFields[1..]), a.expiresAtMillis, a.correlationId)
  }

  lemma {:induction false} SameSets(a: seq<bytes>, b: seq<bytes>)
    ensures SortDedup(a) == SortDedup(b) <==> TagSet(a) == TagSet(b)
  {
    SameTagsSameList(a, b);
    assert forall t :: (t in a <==> t in TagSet(a)) && (t in b <==> t in TagSet(b));
  }

  /** Only a request of the newer layout lacks a title or has an expiry. */
  lemma NewerIsMarked(a: CanonicalInput)
    requires Normalize(a).Some?
    ensures OlderAccepts(a) <==> |a.contentFields| == 2 && a.expiresAtMillis == None
  {
  }

  /** In the newer layout the bytes are the meaning. */
  lemma NewerMeaning(a: CanonicalInput, b: CanonicalInput)
    requires Accepted(a) && Accepted(b) && !OlderAccepts(a) && !OlderAccepts(b)
    ensures CanonicalRequest(a) == CanonicalRequest(b) <==> MeaningOf(a) == MeaningOf(b)
  {
    CanonicalExact(a, b);
    SortedTags(a, b);
  }

  lemma SortedTags(a: CanonicalInput, b: CanonicalInput)
    requires Normalize(a).Some? && Normalize(b).Some? && !OlderAccepts(a) && !OlderAccepts(b)
    ensures Normalize(a).value.tags == Normalize(b).value.tags <==> MeaningOf(a).tags == MeaningOf(b).tags
  {
    var s := if NoOptions(a) then [] else a.optionsFields[1..];
    var t := if NoOptions(b) then [] else b.optionsFields[1..];
    SameSets(s, t);
    assert SortDedup([]) == [] && TagSet([]) == {};
  }

  /** The same destination and content. */
  predicate SameFront(a: CanonicalInput, b: CanonicalInput) {
    a.destinationFields == b.destinationFields && a.contentFields == b.contentFields
  }

  /** In the older layout the bytes are destination, content, and either no options or the option
      fields as one set. */
  lemma OlderMeaning(a: CanonicalInput, b: CanonicalInput)
    requires Accepted(a) && Accepted(b) && OlderAccepts(a) && OlderAccepts(b)
    ensures CanonicalRequest(a) == CanonicalRequest(b) <==>
              SameFront(a, b) && NoOptions(a) == NoOptions(b) && TagSet(a.optionsFields) == TagSet(b.optionsFields)
  {
    CanonicalExact(a, b);
    SameSets(a.optionsFields, b.optionsFields);
    assert a.destinationFields == [a.destinationFields[0]] && b.destinationFields == [b.destinationFields[0]];
    assert a.contentFields == [a.contentFields[0], a.contentFields[1]];
    assert b.contentFields == [b.contentFields[0], b.contentFields[1]];
  }

  /** One omits its options, the other spells the default out. */
  predicate OmitsDefault(a: CanonicalInput, b: CanonicalInput) {
    NoOptions(a) && !NoOptions(b) && b.optionsFields == [DEFAULT]
  }

  /** One set of option fields, but another priority, or its priority a tag of one of them only. */
  predicate RanksOtherwise(a: CanonicalInput, b: CanonicalInput) {
    && !NoOptions(a) && !NoOptions(b) && a.optionsFields != [] && b.optionsFields != []
    && TagSet(a.optionsFields) == TagSet(b.optionsFields)
    && (a.optionsFields[0] != b.optionsFields[0]
        || (a.optionsFields[0] in a.optionsFields[1..]) != (b.optionsFields[0] in b.optionsFields[1..]))
  }

  /** Where the older layout lets the bytes and the meaning part. */
  predicate Parts(a: CanonicalInput, b: CanonicalInput) {
    && OlderAccepts(a) && OlderAccepts(b) && SameFront(a, b)
    && (OmitsDefault(a, b) || OmitsDefault(b, a) || RanksOtherwise(a, b))
  }

  /** Two accepted requests of either layout have the same bytes exactly when they have the same
      meaning, unless both use the older layout and agree up to their options, and either one omits
      the default the other spells out, or one set of fields is ranked in two ways. */
  lemma MeaningExact(a: CanonicalInput, b: CanonicalInput)
    requires Accepted(a) && Accepted(b)
    ensures (CanonicalRequest(a) == CanonicalRequest(b) <==> MeaningOf(a) == MeaningOf(b)) <==> !Parts(a, b)
  {
    NewerIsMarked(a);
    NewerIsMarked(b);
    if OlderAccepts(a) && OlderAccepts(b) {
      OlderMeaning(a, b);
      OlderParts(a, b);
    } else if !OlderAccepts(a) && !OlderAccepts(b) {
      NewerMeaning(a, b);
    } else {
      CanonicalExact(a, b);
    }
  }

  lemma FirstAndRest(fields: seq<bytes>)
    requires fields != []
    ensures TagSet(fields) == TagSet(fields[1..]) + {fields[0]}
  {
    assert fields == [fields[0]] + fields[1..];
  }

  lemma OlderParts(a: CanonicalInput, b: CanonicalInput)
    requires Accepted(a) && Accepted(b) && OlderAccepts(a) && OlderAccepts(b)
    ensures !SameFront(a, b) ==> MeaningOf(a) != MeaningOf(b)
    ensures SameFront(a, b) && NoOptions(a) && NoOptions(b) ==> MeaningOf(a) == MeaningOf(b)
    ensures SameFront(a, b) && NoOptions(a) && !NoOptions(b) ==> (MeaningOf(a) == MeaningOf(b) <==> OmitsDefault(a, b))
    ensures SameFront(a, b) && !NoOptions(a) && NoOptions(b) ==> (MeaningOf(a) == MeaningOf(b) <==> OmitsDefault(b, a))
    ensures SameFront(a, b) && !NoOptions(a) && !NoOptions(b) ==>
              (MeaningOf(a) == MeaningOf(b) <==>
                  TagSet(a.optionsFields) == TagSet(b.optionsFields) && !RanksOtherwise(a, b))
  {
    if !SameFront(a, b) {
      FrontShows(a, b);
    } else if NoOptions(a) && !NoOptions(b) {
      OnlyDefault(b.optionsFields);
    } else if !NoOptions(a) && NoOptions(b) {
      OnlyDefault(a.optionsFields);
    } else if !NoOptions(a) {
      RankedSets(a.optionsFields, b.optionsFields);
    }
  }

  lemma FrontShows(a: CanonicalInput, b: CanonicalInput)
    requires Normalize(a).Some? && Normalize(b).Some? && OlderAccepts(a) && OlderAccepts(b) && !SameFront(a, b)
    ensures MeaningOf(a) != MeaningOf(b)
  {
    assert a.destinationFields == [a.destinationFields[0]] && b.destinationFields == [b.destinationFields[0]];
    assert a.contentFields == [a.contentFields[0], a.contentFields[1]];
    assert b.contentFields == [b.contentFields[0], b.contentFields[1]];
  }

  lemma OnlyDefault(fields: seq<bytes>)
    requires fields != []
    ensures fields == [DEFAULT] <==> fields[0] == DEFAULT && TagSet(fields[1..]) == {}
  {
    if |fields| > 1 {
      assert fields[1..][0] in TagSet(fields[1..]);
    }
  }

  lemma RankedSets(a: seq<bytes>, b: seq<bytes>)
    requires a != [] && b != []
    ensures a[0] == b[0] && TagSet(a[1..]) == TagSet(b[1..]) <==>
              TagSet(a) == TagSet(b) && a[0] == b[0] && (a[0] in a[1..]) == (b[0] in b[1..])
  {
    FirstAndRest(a);
    FirstAndRest(b);
    if TagSet(a) == TagSet(b) && a[0] == b[0] && (a[0] in a[1..]) == (b[0] in b[1..]) {
      forall t
        ensures t in TagSet(a[1..]) <==> t in TagSet(b[1..])
      {
        assert t in TagSet(a) <==> t in TagSet(b);
      }
    }
    if TagSet(a[1..]) == TagSet(b[1..]) {
      assert a[0] in a[1..] <==> a[0] in TagSet(a[1..]);
      assert b[0] in b[1..] <==> b[0] in TagSet(b[1..]);
    }
  }

  /** The default is expanded into the bytes of the newer layout, but no request that spells it out
      is accepted with those bytes: over both layouts, equal bytes mean options omitted by both
      requests or by neither. */
  lemma OmissionShows(a: CanonicalInput, b: CanonicalInput)
    requires Accepted(a) && Accepted(b) && NoOptions(a) && !NoOptions(b)
    ensures CanonicalRequest(a) != CanonicalRequest(b)
  {
    CanonicalExact(a, b);
    if !OlderAccepts(a) && !OlderAccepts(b) && b.expiresAtMillis == None {
      assert TransitionTags(b);
    }
  }

  /** A concrete pair with one meaning and two encodings: options omitted, and the default alone. */
  lemma DefaultIsLost()
    ensures var omitted := SAMPLE.(optionsKind := None, optionsSchemaVersion := None, optionsSetLike := false,
                                   optionsFields := []);
      var spelled := SAMPLE.(optionsFields := [DEFAULT]);
      Accepted(omitted) && Accepted(spelled) && MeaningOf(omitted) == MeaningOf(spelled)
      && CanonicalRequest(omitted) != CanonicalRequest(spelled)
  {
    var omitted := SAMPLE.(optionsKind := None, optionsSchemaVersion := None, optionsSetLike := false,
                           optionsFields := []);
    var spelled := SAMPLE.(optionsFields := [DEFAULT]);
    assert OlderAccepts(SAMPLE) && OlderAccepts(omitted);
    assert ValidAscii(DEFAULT) && OlderAccepts(spelled);
    assert SortDedup([DEFAULT]) == [DEFAULT];
    OlderMeaning(omitted, spelled);
    OnlyDefault([DEFAULT]);
  }

  /** Why the size bound is needed: the length prefix of a title of 2^32 bytes and more wraps, and
      its tail can pass for the text of another request. */
  lemma OversizeCollision(x: bytes, y: bytes, z: bytes, topic: bytes)
    requires ValidAscii(x) && ValidAscii(y) && ValidAscii(z) && ValidAscii(topic) && |y| == TWO_32 - 4 && |z| < 0x80
    ensures var a, b := SampleWith(topic, x + U32(|z|) + y, z), SampleWith(topic, x, y + Lp32(z));
      Normalize(a).Some? && Normalize(b).Some? && Normalize(a) != Normalize(b)
          && CanonicalRequest(a) == CanonicalRequest(b)
  {
    var title, text := x + U32(|z|) + y, y + Lp32(z);
    OversizeIsAscii(x, y, z);
    OversizeFrames(x, y, z, title, text, OlderOptions(Some(SortDedup(SAMPLE.optionsFields))) + [0, 0]);
    SameSamples(topic, title, z, x, text);
  }

  lemma OversizeFrames(x: bytes, y: bytes, z: bytes, title: bytes, text: bytes, rest: bytes)
    requires |y| == TWO_32 - 4 && title == x + U32(|z|) + y && text == y + Lp32(z)
    ensures Lp32(title) + (Lp32(z) + rest) == Lp32(x) + (Lp32(text) + rest) && |title| > |x|
  {
    Wraps(|x|, |y|, |z|);
    SameFrames(x, y, z, rest);
  }

  /** Samples whose title and text have the same framing have the same bytes. */
  lemma SameSamples(topic: bytes, t: bytes, v: bytes, u: bytes, w: bytes)
    requires ValidAscii(topic) && ValidAscii(t) && ValidAscii(v) && ValidAscii(u) && ValidAscii(w) && |t| != |u|
    requires var rest := OlderOptions(Some(SortDedup(SAMPLE.optionsFields))) + [0, 0];
      Lp32(t) + (Lp32(v) + rest) == Lp32(u) + (Lp32(w) + rest)
    ensures var a, b := SampleWith(topic, t, v), SampleWith(topic, u, w);
      Normalize(a).Some? && Normalize(b).Some? && Normalize(a) != Normalize(b)
          && CanonicalRequest(a) == CanonicalRequest(b)
  {
    SampleForm(topic, t, v);
    SampleForm(topic, u, w);
    SameContent(topic, t, v, u, w, Some(SortDedup(SAMPLE.optionsFields)));
  }

  lemma OversizeIsAscii(x: bytes, y: bytes, z: bytes)
    requires ValidAscii(x) && ValidAscii(y) && ValidAscii(z) && |z| < 0x80
    ensures ValidAscii(x + U32(|z|) + y) && ValidAscii(y + Lp32(z))
  {
    SmallHeader(|z|);
  }

  lemma SameContent(topic: bytes, t: bytes, v: bytes, u: bytes, w: bytes, options: Option<seq<bytes>>)
    requires Lp32(t) + (Lp32(v) + (OlderOptions(options) + [0, 0])) == Lp32(u)
        + (Lp32(w) + (OlderOptions(options) + [0, 0]))
    ensures Encode(Older(topic, t, v, options)) == Encode(Older(topic, u, w, options))
  {
  }

  lemma Wraps(x: nat, y: nat, z: nat)
    requires y == TWO_32 - 4
    ensures (x + 4 + y) % TWO_32 == x % TWO_32 && (y + 4 + z) % TWO_32 == z % TWO_32
  {
  }

  function SampleWith(topic: bytes, title: bytes, text: bytes): CanonicalInput {
    SAMPLE.(destinationFields := [topic], contentFields := [title, text])
  }

  lemma SampleForm(topic: bytes, title: bytes, text: bytes)
    requires ValidAscii(topic) && ValidAscii(title) && ValidAscii(text)
    ensures Normalize(SampleWith(topic, title, text)) == Some(Older(topic, title, text,
                                                                    Some(SortDedup(SAMPLE.optionsFields))))
  {
    assert OlderAccepts(SAMPLE);
  }

  lemma SmallHeader(n: nat)
    requires n < 0x80
    ensures U32(n) == [0, 0, 0, n]
  {
    assert BigEndian(n, 4) == BigEndian(n / 256, 3) + [n] && BigEndian(0, 3) == BigEndian(0, 2) + [0];
    assert BigEndian(0, 2) == BigEndian(0, 1) + [0] && BigEndian(0, 1) == BigEndian(0, 0) + [0];
  }

  lemma SameFrames(x: bytes, y: bytes, z: bytes, rest: bytes)
    requires (|x| + 4 + |y|) % TWO_32 == |x| % TWO_32 && (|y| + 4 + |z|) % TWO_32 == |z| % TWO_32
    ensures Lp32(x + U32(|z|) + y) + (Lp32(z) + rest) == Lp32(x) + (Lp32(y + Lp32(z)) + rest)
  {
    var h, k := BigEndian(|x| % TWO_32, 4), U32(|z|);
    assert |x + k + y| == |x| + 4 + |y| && |y + Lp32(z)| == |y| + 4 + |z|;
    assert Lp32(x + k + y) == h + (x + k + y) && Lp32(y + Lp32(z)) == k + (y + Lp32(z));
    assert (h + (x + k + y)) + (Lp32(z) + rest) == (h + x) + ((k + (y + Lp32(z))) + rest);
  }

  // ---------- The encoder's pushes ----------

  method PushFrames(output: bytes, fields: seq<bytes>) returns (out: bytes)
    ensures out == output + Frames(fields)
  {
    out := output;
    for i := 0 to |fields|
      invariant output + Frames(fields) == out + Frames(fields[i..])
    {
      Reassociate(out, Lp32(fields[i]), Frames(fields[i..][1..]));
      assert fields[i..][1..] == fields[i + 1..];
      out := out + Lp32(fields[i]);
    }
    assert fields[|fields|..] == [];
  }

  /** `canonical_request_v1`: the older layout if it accepts, else the newer one, else refusal;
      every part pushed in order. */
  method CanonicalRequestV1(input: CanonicalInput) returns (encoded: Option<bytes>)
    ensures encoded == CanonicalRequest(input)
  {
    var older := OlderAccepts(input);
    if older {
      var tags := if NoOptions(input) then None else Some(SortDedup(input.optionsFields));
      var bytes := PushOlder(input.destinationFields[0], input.contentFields[0], input.contentFields[1], tags);
      return Some(bytes);
    }
    if !NewerAccepts(input) {
      return None;
    }
    var title := if |input.contentFields| == 2 then Some(input.contentFields[0]) else None;
    var text := input.contentFields[|input.contentFields| - 1];
    var priority := if NoOptions(input) then DEFAULT else input.optionsFields[0];
    var tags := if NoOptions(input) then [] else SortDedup(input.optionsFields[1..]);
    var bytes := PushNewer(input.destinationFields[0], title, text, priority, tags, input.expiresAtMillis,
                           input.correlationId);
    return Some(bytes);
  }

  method PushOlder(topic: bytes, title: bytes, text: bytes, tags: Option<seq<bytes>>) returns (out: bytes)
    ensures out == Encode(Older(topic, title, text, tags))
  {
    out := MAGIC + [1];
    out := out + OLDER_HEAD;
    out := out + Lp32(topic);
    out := out + OLDER_CONTENT;
    out := out + Lp32(title);
    out := out + Lp32(text);
    OlderPushed(topic, title, text, OlderOptions(tags) + [0, 0]);
    Reassociate(out, OlderOptions(tags), [0, 0]);
    var options := PushOlderOptions(tags);
    out := out + options;
    out := out + [0, 0];
  }

  method PushOlderOptions(tags: Option<seq<bytes>>) returns (out: bytes)
    ensures out == OlderOptions(tags)
  {
    match tags
    case None =>
      out := [0];
    case Some(values) =>
      out := PushFrames([1] + Lp32(NTFY) + U32(4) + U32(1) + U32(|values|), values);
  }

  lemma OlderPushed(topic: bytes, title: bytes, text: bytes, rest: bytes)
    ensures MAGIC + [1] + OLDER_HEAD + Lp32(topic) + OLDER_CONTENT + Lp32(title) + Lp32(text) + rest
            == MAGIC + ([1] + (OLDER_HEAD + (Lp32(topic) + (OLDER_CONTENT + (Lp32(title) + (Lp32(text) + rest))))))
  {
    SevenParts(MAGIC, [1], OLDER_HEAD, Lp32(topic), OLDER_CONTENT, Lp32(title), Lp32(text), rest);
  }

  lemma SevenParts(a: bytes, b: bytes, c: bytes, d: bytes, e: bytes, f: bytes, g: bytes, rest: bytes)
    ensures a + b + c + d + e + f + g + rest == a + (b + (c + (d + (e + (f + (g + rest))))))
  {
    Reassociate(a + b + c + d + e + f, g, rest);
    Reassociate(a + b + c + d + e, f, g + rest);
    Reassociate(a + b + c + d, e, f + (g + rest));
    Reassociate(a + b + c, d, e + (f + (g + rest)));
    Reassociate(a + b, c, d + (e + (f + (g + rest))));
    Reassociate(a, b, c + (d + (e + (f + (g + rest)))));
  }

  method PushNewer(topic: bytes, title: Option<bytes>, text: bytes, priority: bytes, tags: seq<bytes>,
                   expiry: Option<int>, correlation: Option<bytes>) returns (out: bytes)
    ensures out == Encode(Newer(topic, title, text, priority, tags, expiry, correlation))
  {
    var options := Lp32(priority) + U32(|tags|);
    options := PushFrames(options, tags);
    out := MAGIC + NEWER_HEAD;
    out := out + Lp32(Lp32(topic));
    out := out + CONTENT_HEAD;
    out := out + Lp32(ContentPayload(title, text));
    out := out + OPTIONS_START;
    out := out + Lp32(options);
    SevenParts(MAGIC, NEWER_HEAD, Lp32(Lp32(topic)), CONTENT_HEAD, Lp32(ContentPayload(title, text)), OPTIONS_START,
               Lp32(options), Trailer(expiry, correlation));
    Reassociate(out, ExpiryPart(expiry), CorrelationPart(correlation));
    match expiry {
      case Some(value) => out := out + ([1] + Signed64(value));
      case None => out := out + [0];
    }
    match correlation {
      case Some(value) => out := out + ([1] + Lp32(value));
      case None => out := out + [0];
    }
  }
}
