/** The tags in canonical requests (crates/msgriver-core/src/canon.rs): in ascending byte order,
    whatever order a request gives them in. */
module CanonOrder {
  import opened Wrappers
  import opened Bytes
  import opened Canon

  /** a is a proper prefix of b, or has the smaller byte where they first differ. */
  ghost predicate Before(a: bytes, b: bytes) {
    exists n: nat :: n <= |a| && n < |b| && a[..n] == b[..n] && (n < |a| ==> a[n] < b[n])
  }

  lemma PrefixGrows(a: bytes, b: bytes, n: nat)
    requires n < |a| && n < |b| && a[0] == b[0] && a[1..][..n] == b[1..][..n]
    ensures a[..n + 1] == b[..n + 1]
  {
    assert a[..n + 1] == [a[0]] + a[1..][..n] && b[..n + 1] == [b[0]] + b[1..][..n];
  }

  lemma {:induction false} LessIsBefore(a: bytes, b: bytes)
    requires Less(a, b)
    ensures Before(a, b)
  {
    if a == [] || a[0] < b[0] {
      assert a[..0] == b[..0];
    } else {
      LessIsBefore(a[1..], b[1..]);
      var n: nat :| n <= |a[1..]| && n < |b[1..]| && a[1..][..n] == b[1..][..n]
                    && (n < |a[1..]| ==> a[1..][n] < b[1..][n]);
      PrefixGrows(a, b, n);
    }
  }

  ghost predicate InOrder(tags: seq<bytes>) {
    forall i, j :: 0 <= i < j < |tags| ==> Before(tags[i], tags[j])
  }

  lemma {:induction false} SortedInOrder(fields: seq<bytes>)
    ensures InOrder(SortDedup(fields))
    ensures forall t :: t in SortDedup(fields) <==> t in fields
  {
    var tags := SortDedup(fields);
    SortDedupOk(fields);
    forall i, j | 0 <= i < j < |tags|
      ensures Before(tags[i], tags[j])
    {
      LessIsBefore(tags[i], tags[j]);
    }
  }

  /** In the older layout all option fields follow their number, in byte order. */
  lemma {:induction false} OlderTagsInOrder(a: CanonicalInput, tags: seq<bytes>) returns (head: bytes)
    requires OlderAccepts(a) && !NoOptions(a) && tags == SortDedup(a.optionsFields)
    ensures InOrder(tags) && forall t :: t in tags <==> t in a.optionsFields
    ensures CanonicalRequest(a) == Some(head + (U32(|tags|) + Frames(tags) + [0, 0]))
  {
    SortedInOrder(a.optionsFields);
    var topic, title, text := a.destinationFields[0], a.contentFields[0], a.contentFields[1];
    var front := MAGIC + [1] + OLDER_HEAD + Lp32(topic) + OLDER_CONTENT + Lp32(title) + Lp32(text);
    OlderPushed(topic, title, text, OlderOptions(Some(tags)) + [0, 0]);
    head := OptionsSplitOff(front, tags);
  }

  lemma OptionsSplitOff(front: bytes, tags: seq<bytes>) returns (head: bytes)
    ensures front + (OlderOptions(Some(tags)) + [0, 0]) == head + (U32(|tags|) + Frames(tags) + [0, 0])
  {
    var start, rest := [1] + Lp32(NTFY) + U32(4) + U32(1), U32(|tags|) + Frames(tags) + [0, 0];
    head := front + start;
    FourParts(start, U32(|tags|), Frames(tags), [0, 0]);
    Reassociate(front, start, rest);
  }

  lemma FourParts(a: bytes, b: bytes, c: bytes, d: bytes)
    ensures a + b + c + d == a + (b + c + d)
  {
  }

  /** In the newer layout the tags after the priority follow their number, in byte order. */
  lemma {:induction false} NewerTagsInOrder(a: CanonicalInput, tags: seq<bytes>) returns (head: bytes, tail: bytes)
    requires !OlderAccepts(a) && NewerAccepts(a) && !NoOptions(a) && tags == SortDedup(a.optionsFields[1..])
    ensures InOrder(tags) && forall t :: t in tags <==> t in a.optionsFields[1..]
    ensures CanonicalRequest(a) == Some(head + (Lp32(a.optionsFields[0]) + U32(|tags|) + Frames(tags) + tail))
  {
    SortedInOrder(a.optionsFields[1..]);
    var topic := a.destinationFields[0];
    var title := if |a.contentFields| == 2 then Some(a.contentFields[0]) else None;
    var content := Lp32(ContentPayload(title, a.contentFields[|a.contentFields| - 1]));
    var front := MAGIC + NEWER_HEAD + Lp32(Lp32(topic)) + CONTENT_HEAD + content + OPTIONS_START;
    tail := Trailer(a.expiresAtMillis, a.correlationId);
    head := PayloadSplit(front, OptionsPayload(a.optionsFields[0], tags), tail);
    SevenParts(MAGIC, NEWER_HEAD, Lp32(Lp32(topic)), CONTENT_HEAD, content, OPTIONS_START,
               Lp32(OptionsPayload(a.optionsFields[0], tags)), tail);
  }

  lemma PayloadSplit(front: bytes, payload: bytes, tail: bytes) returns (head: bytes)
    ensures front + Lp32(payload) + tail == head + (payload + tail)
  {
    head := front + BigEndian(|payload| % TWO_32, 4);
  }

  const APPLE: bytes := Ascii("apple")
  const MANGO: bytes := Ascii("mango")
  const ZEBRA: bytes := Ascii("zebra")

  lemma {:induction false} FruitsIncrease()
    ensures Increasing([APPLE, MANGO, ZEBRA])
  {
    assert APPLE[0] < MANGO[0] < ZEBRA[0];
  }

  /** The one admitted list of tags is admitted in every order and with repetitions. */
  lemma {:induction false} TransitionTagsExact(a: CanonicalInput, tags: seq<bytes>)
    requires a.optionsFields == [DEFAULT] + tags && NtfyOptions(a)
    ensures TransitionTags(a) <==> forall t :: t in tags <==> t == APPLE || t == MANGO || t == ZEBRA
  {
    assert a.optionsFields[1..] == tags;
    SortDedupOk(tags);
    FruitsIncrease();
    var fruits := [APPLE, MANGO, ZEBRA];
    assert forall t :: t in fruits <==> t == APPLE || t == MANGO || t == ZEBRA;
    if forall t :: t in tags <==> t in fruits {
      IncreasingUnique(SortDedup(tags), fruits);
    }
  }

  // ---------- The fixed parts of both layouts, byte by byte ----------

  lemma {:induction false} SmallU32(n: nat)
    requires n < 0x100
    ensures U32(n) == [0, 0, 0, n]
  {
    assert BigEndian(n, 4) == BigEndian(n / 0x100, 3) + [n];
    assert BigEndian(0, 3) == BigEndian(0, 2) + [0] && BigEndian(0, 2) == BigEndian(0, 1) + [0];
    assert BigEndian(0, 1) == [0];
  }

  lemma {:induction false} SmallLp32(field: bytes, n: nat)
    requires |field| == n < 0x100
    ensures Lp32(field) == [0, 0, 0, n] + field
  {
    SmallU32(n);
  }

  lemma {:induction false} SegmentBytes(role: byte, schema: bytes, kind: bytes, m: nat, n: nat)
    requires |schema| == m < 0x100 && |kind| == n < 0x100
    ensures SegmentHead(role, schema, kind) == [role, 0, 0, 0, m] + schema + [0, 0, 0, n] + kind + [0, 0, 0, 1]
  {
    SmallLp32(schema, m);
    SmallLp32(kind, n);
    SmallU32(1);
  }

  /** What stands between the fields in the newer layout. */
  lemma {:induction false} NewerBytes()
    ensures MAGIC == Ascii("msgriver-request") + [0]
    ensures NEWER_HEAD == [0, 0, 0, 1, 0, 0, 0, 4] + Ascii("ntfy")
                          + ([1, 0, 0, 0, 30] + Ascii("msgriver://schema/ntfy-topic/1")
                             + [0, 0, 0, 10] + Ascii("ntfy_topic") + [0, 0, 0, 1])
    ensures CONTENT_HEAD == [2, 0, 0, 0, 24] + Ascii("msgriver://schema/text/1")
                            + [0, 0, 0, 4] + Ascii("text") + [0, 0, 0, 1]
    ensures OPTIONS_START == [1] + ([3, 0, 0, 0, 32] + Ascii("msgriver://schema/ntfy-options/1")
                             + [0, 0, 0, 4] + Ascii("ntfy") + [0, 0, 0, 1])
  {
    SmallU32(1);
    SmallLp32(NTFY, 4);
    SegmentBytes(1, Ascii("msgriver://schema/ntfy-topic/1"), NTFY_TOPIC, 30, 10);
    SegmentBytes(2, Ascii("msgriver://schema/text/1"), TEXT, 24, 4);
    SegmentBytes(3, Ascii("msgriver://schema/ntfy-options/1"), NTFY, 32, 4);
  }

  /** What stands between the fields in the older layout. */
  lemma {:induction false} OlderBytes()
    ensures OLDER_HEAD == [0, 0, 0, 4] + Ascii("ntfy") + ([0, 0, 0, 10] + Ascii("ntfy_topic"))
                          + [0, 0, 0, 4] + [0, 0, 0, 1] + [0, 0, 0, 1]
    ensures OLDER_CONTENT == [0, 0, 0, 4] + Ascii("text") + [0, 0, 0, 4] + [0, 0, 0, 1] + [0, 0, 0, 2]
    ensures OlderOptions(None) == [0]
    ensures forall tags :: OlderOptions(Some(tags)) ==
              [1] + ([0, 0, 0, 4] + Ascii("ntfy")) + [0, 0, 0, 4] + [0, 0, 0, 1] + U32(|tags|) + Frames(tags)
  {
    SmallU32(1);
    SmallU32(2);
    SmallU32(4);
    SmallLp32(NTFY, 4);
    SmallLp32(NTFY_TOPIC, 10);
    SmallLp32(TEXT, 4);
  }
}
