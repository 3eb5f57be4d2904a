/** Public keys, access statuses and typed relationships (src/domain.mjs). */
module Domain {
  import opened Text

  /** A JavaScript number used as a time: a whole number of milliseconds, or one of
      NaN and the infinities, which every gate refuses. */
  datatype Time = Finite(ms: int) | NotFinite

  const MAX_SAFE_INTEGER := 9007199254740991

  predicate IsSafeInteger(n: int) { -MAX_SAFE_INTEGER <= n <= MAX_SAFE_INTEGER }

  datatype AccessStatus = Limited | Full | Operator

  datatype EdgeType = Friend | SponsorTrust

  datatype Edge = Edge(kind: EdgeType, from: string, to: string)

  /** An authority record as read off the wire. */
  datatype Assertion = Assertion(source: string, version: int, subject: string, status: string, expiresAt: Time)

  const CRT_SOURCE := "hodlxxi-crt"

  predicate IsHexKey(value: string) {
    |value| == 64 && forall i :: 0 <= i < |value| ==> IsHexDigit(value[i])
  }

  /** None where the source throws. */
  function NormalizePublicKey(value: string): Option<string> {
    if IsHexKey(value) then Some(ToLower(value)) else None
  }

  /** The check `value === normalizePublicKey(value)` of every strict gate. */
  predicate IsCanonicalKey(value: string) {
    NormalizePublicKey(value) == Some(value)
  }

  /** A key has exactly one canonical spelling, and normalising reaches it at once. */
  lemma NormalizationIsCanonical(value: string)
    ensures IsCanonicalKey(value) <==> IsLowerHex(value, 64)
    ensures NormalizePublicKey(value).Some? ==> IsCanonicalKey(NormalizePublicKey(value).value)
  {
    if IsLowerHex(value, 64) {
      assert ToLower(value) == value;
    }
    if IsCanonicalKey(value) {
      forall i | 0 <= i < |value| ensures IsLowerHexDigit(value[i]) {
        assert value[i] == ToLower(value)[i];
      }
    }
    if IsHexKey(value) {
      var low := ToLower(value);
      assert ToLower(low) == low;
    }
  }

  function DeriveAccess(publicKey: string, assertion: Option<Assertion>, now: Time): AccessStatus {
    var subject := NormalizePublicKey(publicKey);
    if subject.None? || now.NotFinite? || assertion.None? then
      Limited
    else
      var a := assertion.value;
      if a.source != CRT_SOURCE || a.version != 1 || a.expiresAt.NotFinite? || a.expiresAt.ms <= now.ms then
        Limited
      else if NormalizePublicKey(a.subject) != subject then
        Limited
      else if a.status == "full" then
        Full
      else if a.status == "operator" then
        Operator
      else
        Limited
  }

  /** An assertion that grants this status to the key now: from the one source, unexpired,
      for the same key in whatever letter case. */
  ghost predicate Grants(publicKey: string, assertion: Option<Assertion>, now: Time, status: string) {
    && now.Finite? && assertion.Some?
    && var a := assertion.value;
       && a.source == "hodlxxi-crt" && a.version == 1 && a.status == status
       && a.expiresAt.Finite? && now.ms < a.expiresAt.ms
       && |publicKey| == 64 == |a.subject|
       && forall i :: 0 <= i < 64 ==> IsHexDigit(publicKey[i]) && LowerChar(publicKey[i]) == LowerChar(a.subject[i])
  }

  /** Full and Operator access are derived exactly where an assertion grants them; in every
      other case access is Limited. */
  lemma AccessIsGranted(publicKey: string, assertion: Option<Assertion>, now: Time)
    ensures DeriveAccess(publicKey, assertion, now) ==
            if Grants(publicKey, assertion, now, "full") then Full
            else if Grants(publicKey, assertion, now, "operator") then Operator else Limited
  {
    if assertion.Some? {
      var subject := assertion.value.subject;
      if |publicKey| == 64 == |subject| {
        assert (forall i :: 0 <= i < 64 ==> LowerChar(publicKey[i]) == LowerChar(subject[i])) <==>
               ToLower(publicKey) == ToLower(subject);
      }
    }
  }
}
