/** What is fed to the keyed digests of crates/msgriver-core/src/canon.rs: the delimited input of
    the raw-key functions and the framed input of the provider functions. */
module Mac {
  import opened Bytes
  import opened Canon
  import Sha256

  const FINGERPRINT_DOMAIN: bytes := Ascii("msgriver-idempotency-fingerprint-v1") + [0]
  const LOOKUP_DOMAIN: bytes := Ascii("msgriver-idempotency-lookup-v1") + [0]

  // ---------- Raw-key functions ----------

  function LookupText(principal: bytes, key: bytes): bytes {
    LOOKUP_DOMAIN + (principal + ([0] + key))
  }

  method LookupDigestV1(principal: bytes, key: bytes, macKey: bytes, keyVersion: nat) returns (version: nat, tag: bytes)
    ensures version == keyVersion && tag == Sha256.Hmac(macKey, LookupText(principal, key))
  {
    version := keyVersion;
    tag := Sha256.HmacSha256(macKey, [LOOKUP_DOMAIN, principal, [0], key]);
    FourParts(LOOKUP_DOMAIN, principal, [0], key);
  }

  lemma FourParts(a: bytes, b: bytes, c: bytes, d: bytes)
    ensures Sha256.Flatten([a, b, c, d]) == a + (b + (c + d))
  {
    assert [a, b, c, d][..3] == [a, b, c] && [a, b, c][..2] == [a, b] && [a, b][..1] == [a] && [a][..0] == [];
    assert Sha256.Flatten([a]) == [] + a == a;
    assert Sha256.Flatten([a, b]) == a + b;
    assert Sha256.Flatten([a, b, c]) == a + b + c;
    assert Sha256.Flatten([a, b, c, d]) == a + b + c + d;
  }

  method SemanticFingerprintV1(canonical: bytes, macKey: bytes, keyVersion: nat) returns (version: nat, tag: bytes)
    ensures version == keyVersion && tag == Sha256.Hmac(macKey, FINGERPRINT_DOMAIN + canonical)
  {
    version := keyVersion;
    tag := Sha256.HmacSha256(macKey, [FINGERPRINT_DOMAIN, canonical]);
    assert [FINGERPRINT_DOMAIN, canonical][..1] == [FINGERPRINT_DOMAIN];
    assert Sha256.Flatten([FINGERPRINT_DOMAIN]) == FINGERPRINT_DOMAIN;
  }

  predicate NulFree(b: bytes) { forall i :: 0 <= i < |b| ==> b[i] != 0 }

  /** Among principals without NUL the delimiter separates principal and key ... */
  lemma LookupInjective(p: bytes, k: bytes, q: bytes, l: bytes)
    requires NulFree(p) && NulFree(q) && LookupText(p, k) == LookupText(q, l)
    ensures p == q && k == l
  {
    SplitEqual(LOOKUP_DOMAIN, p + ([0] + k), LOOKUP_DOMAIN, q + ([0] + l));
    var s := p + ([0] + k);
    FirstNul(p, k, s);
    FirstNul(q, l, s);
    SplitEqual(p, [0] + k, q, [0] + l);
    SplitEqual([0], k, [0], l);
  }

  lemma FirstNul(p: bytes, k: bytes, s: bytes)
    requires NulFree(p) && s == p + ([0] + k)
    ensures s[|p|] == 0 && forall i :: 0 <= i < |p| ==> s[i] != 0
  {
  }

  /** ... but over all pairs an input belongs to one pair alone exactly when neither the principal
      nor the key holds a NUL. */
  lemma LookupExact(p: bytes, k: bytes)
    ensures (forall q, l :: LookupText(q, l) == LookupText(p, k) ==> q == p && l == k) <==> NulFree(p) && NulFree(k)
  {
    if !NulFree(p) {
      var q, l := NulInPrincipal(p, k);
      assert LookupText(q, l) == LookupText(p, k);
    } else if !NulFree(k) {
      var q, l := NulInKey(p, k);
      assert LookupText(q, l) == LookupText(p, k);
    } else {
      forall q, l | LookupText(q, l) == LookupText(p, k)
        ensures q == p && l == k
      {
        OnlyNul(p, k, q, l);
      }
    }
  }

  lemma NulInPrincipal(p: bytes, k: bytes) returns (q: bytes, l: bytes)
    requires !NulFree(p)
    ensures q != p && LookupText(q, l) == LookupText(p, k)
  {
    var i :| 0 <= i < |p| && p[i] == 0;
    q, l := p[..i], p[i + 1..] + ([0] + k);
    assert p == q + ([0] + p[i + 1..]);
    assert p + ([0] + k) == q + ([0] + l);
  }

  lemma NulInKey(p: bytes, k: bytes) returns (q: bytes, l: bytes)
    requires !NulFree(k)
    ensures q != p && LookupText(q, l) == LookupText(p, k)
  {
    var i :| 0 <= i < |k| && k[i] == 0;
    q, l := p + ([0] + k[..i]), k[i + 1..];
    assert k == k[..i] + ([0] + l);
    assert p + ([0] + k) == q + ([0] + l);
  }

  lemma OnlyNul(p: bytes, k: bytes, q: bytes, l: bytes)
    requires NulFree(p) && NulFree(k) && LookupText(q, l) == LookupText(p, k)
    ensures q == p && l == k
  {
    SplitEqual(LOOKUP_DOMAIN, q + ([0] + l), LOOKUP_DOMAIN, p + ([0] + k));
    var s := p + ([0] + k);
    assert s[|q|] == 0;
    assert forall i :: 0 <= i < |s| && i != |p| ==> s[i] != 0;
    SplitEqual(q, [0] + l, p, [0] + k);
    SplitEqual([0], l, [0], k);
  }

  // ---------- Provider functions ----------

  datatype Purpose = ApiKeyVerify | IdempotencyLookup | IdempotencyFingerprint | ReplayLookup | ReplayFingerprint
                   | CommandLookup | CommandSemanticFingerprint | CommandPhaseFingerprint | RetryJitter
                   | ArtifactInternalAuth | PortableReservation

  type keyid = b: bytes | |b| == 40 witness seq(40, _ => 0)

  datatype KeyRef = KeyRef(purpose: Purpose, keyId: keyid)
  datatype VersionedTag = VersionedTag(key: KeyRef, tag: bytes)
  datatype MacError = PurposeMismatch | InputTooLong | ReturnedMismatchedKey | Unavailable
  datatype Result<+T> = Ok(value: T) | Err(error: MacError)

  function AuthText(domain: bytes, keyId: keyid, parts: seq<bytes>): bytes {
    domain + (keyId + Frames(parts))
  }

  predicate Framable(parts: seq<bytes>) { forall i :: 0 <= i < |parts| ==> |parts[i]| < TWO_32 }

  /** `authenticate_idempotency`: wrong purpose and oversize parts never reach the provider; a tag
      is returned only under the key that was asked for. */
  method AuthenticateIdempotency(provider: (KeyRef, bytes) -> Result<VersionedTag>, key: KeyRef, expected: Purpose,
                                 domain: bytes, parts: seq<bytes>) returns (r: Result<VersionedTag>)
    ensures key.purpose != expected ==> r == Err(PurposeMismatch)
    ensures key.purpose == expected && !Framable(parts) ==> r == Err(InputTooLong)
    ensures key.purpose == expected && Framable(parts) ==>
              var answer := provider(key, AuthText(domain, key.keyId, parts));
              r == if answer.Ok? && answer.value.key != key then Err(ReturnedMismatchedKey) else answer
    ensures r.Ok? ==> r.value.key == key
  {
    if key.purpose != expected {
      return Err(PurposeMismatch);
    }
    var input := domain + key.keyId;
    for i := 0 to |parts|
      invariant forall j :: 0 <= j < i ==> |parts[j]| < TWO_32
      invariant domain + (key.keyId + Frames(parts)) == input + Frames(parts[i..])
    {
      if |parts[i]| >= TWO_32 {
        return Err(InputTooLong);
      }
      Reassociate(input, Lp32(parts[i]), Frames(parts[i..][1..]));
      assert parts[i..][1..] == parts[i + 1..];
      input := input + Lp32(parts[i]);
    }
    assert parts[|parts|..] == [] && input + [] == input;
    var result := provider(key, input);
    if result.Err? {
      return result;
    }
    if result.value.key != key {
      return Err(ReturnedMismatchedKey);
    }
    return result;
  }

  /** Framed inputs of one domain agree only on the same key id and the same parts. */
  lemma AuthTextInjective(domain: bytes, i: keyid, a: seq<bytes>, j: keyid, b: seq<bytes>)
    requires Framable(a) && Framable(b) && AuthText(domain, i, a) == AuthText(domain, j, b)
    ensures i == j && a == b
  {
    SplitEqual(domain, i + Frames(a), domain, j + Frames(b));
    SplitEqual(i, Frames(a), j, Frames(b));
    FramesInjective(a, b);
  }

  lemma {:induction false} FramesInjective(a: seq<bytes>, b: seq<bytes>)
    requires Framable(a) && Framable(b) && Frames(a) == Frames(b)
    ensures a == b
  {
    if a != [] && b != [] {
      Lp32Split(a[0], Frames(a[1..]), b[0], Frames(b[1..]));
      FramesInjective(a[1..], b[1..]);
      assert a == [a[0]] + a[1..] && b == [b[0]] + b[1..];
    }
  }

  /** A fingerprint input is never a lookup input. */
  lemma DomainsApart(i: keyid, a: seq<bytes>, j: keyid, b: seq<bytes>)
    ensures AuthText(FINGERPRINT_DOMAIN, i, a) != AuthText(LOOKUP_DOMAIN, j, b)
  {
    assert FINGERPRINT_DOMAIN[21] != LOOKUP_DOMAIN[21];
    assert AuthText(FINGERPRINT_DOMAIN, i, a)[21] == FINGERPRINT_DOMAIN[21];
    assert AuthText(LOOKUP_DOMAIN, j, b)[21] == LOOKUP_DOMAIN[21];
  }
}
