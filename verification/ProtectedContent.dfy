/** The protected-content boundary (src/protected-content.mjs): who may read and write,
    and the canonical recipient lists. */
module ProtectedContent {
  import opened Permutations
  import opened Text
  import opened Domain
  import Directory = RecipientDirectory

  datatype Audience = Public | FullNetwork | Unsupported

  datatype Decision = AllowPublic | AllowCurrentFull | DenyAudience | DenyAuthority

  /** An authority record with its optional evidence reference. */
  datatype AuthorityRecord = AuthorityRecord(assertion: Assertion, evidenceRef: Option<string>)

  predicate IsWhitespace(c: char) {
    '\t' <= c <= '\r' || c in {' ', '\U{A0}', '\U{1680}', '\U{2028}', '\U{2029}', '\U{202F}', '\U{205F}',
                               '\U{3000}', '\U{FEFF}'} || '\U{2000}' <= c <= '\U{200A}'
  }

  /** `value.trim()` is nonempty. */
  predicate HasText(value: string) {
    exists i :: 0 <= i < |value| && !IsWhitespace(value[i])
  }

  function CanonicalSubject(value: string): Option<string> {
    if IsCanonicalKey(value) then Some(value) else None
  }

  /** The subject is None when the caller's own subject was not canonical. */
  predicate CurrentFullFor(record: Option<AuthorityRecord>, subject: Option<string>, now: Time) {
    if now.NotFinite? || record.None? then false else
    var a := record.value.assertion;
    if a.source != CRT_SOURCE || a.version != 1 || a.status != "full" then false
    else if a.expiresAt.NotFinite? || a.expiresAt.ms <= now.ms then false
    else if record.value.evidenceRef.Some? && !HasText(record.value.evidenceRef.value) then false
    else CanonicalSubject(a.subject) == subject
  }

  function Decide(audience: Audience, authenticatedSubject: string, record: Option<AuthorityRecord>, now: Time)
    : Decision
  {
    match audience
    case Public => AllowPublic
    case Unsupported => DenyAudience
    case FullNetwork =>
      var subject := CanonicalSubject(authenticatedSubject);
      if subject.Some? && CurrentFullFor(record, subject, now) then AllowCurrentFull else DenyAuthority
  }

  /** The full network is open exactly to a canonically spelled subject whose record
      derives Full access now and names that same spelling; nothing weaker passes the
      strict gate, and nothing the lenient derivation refuses. */
  lemma FullNetworkNeedsDerivedFull(subject: string, record: Option<AuthorityRecord>, now: Time)
    ensures Decide(FullNetwork, subject, record, now) == AllowCurrentFull <==>
            && record.Some?
            && DeriveAccess(subject, Some(record.value.assertion), now) == Full
            && IsLowerHex(subject, 64) && record.value.assertion.subject == subject
            && (record.value.evidenceRef.Some? ==> HasText(record.value.evidenceRef.value))
    ensures Decide(FullNetwork, subject, record, now) in {AllowCurrentFull, DenyAuthority}
  {
    NormalizationIsCanonical(subject);
    if record.Some? {
      NormalizationIsCanonical(record.value.assertion.subject);
    }
  }

  /** Public content is open to everyone, whatever record comes along, and an unsupported
      audience to no one; the full network to exactly those whose current Full record is
      their own. */
  lemma DecisionsByAudience(audience: Audience, subject: string, record: Option<AuthorityRecord>, now: Time)
    ensures Decide(audience, subject, record, now) ==
            if audience == Public then AllowPublic
            else if audience == Unsupported then DenyAudience
            else if IsLowerHex(subject, 64) && now.Finite? && record.Some?
                    && record.value.assertion.source == "hodlxxi-crt" && record.value.assertion.version == 1
                    && record.value.assertion.status == "full" && record.value.assertion.subject == subject
                    && record.value.assertion.expiresAt.Finite? && now.ms < record.value.assertion.expiresAt.ms
                    && (record.value.evidenceRef.Some? ==> HasText(record.value.evidenceRef.value))
            then AllowCurrentFull else DenyAuthority
  {
    NormalizationIsCanonical(subject);
    if record.Some? {
      NormalizationIsCanonical(record.value.assertion.subject);
    }
  }

  // --- sorting ---------------------------------------------------------------

  function Insert(x: string, s: seq<string>): seq<string> {
    if s == [] || !Less(s[0], x) then [x] + s else [s[0]] + Insert(x, s[1..])
  }

  /** `sort()` by code unit. */
  function Sort(s: seq<string>): seq<string> {
    if s == [] then [] else Insert(s[0], Sort(s[1..]))
  }

  /** No element comes before a smaller one. */
  ghost predicate Sorted(s: seq<string>) {
    forall i, j :: 0 <= i < j < |s| ==> !Less(s[j], s[i])
  }

  lemma NotLessIsTransitive(a: string, b: string, c: string)
    requires !Less(b, a) && !Less(c, b)
    ensures !Less(c, a)
  {
    LessIsTotal(a, b);
    if Less(c, a) && Less(a, b) {
      LessIsTransitive(c, a, b);
    }
  }

  lemma {:induction false} InsertKeepsOrder(x: string, s: seq<string>)
    requires Sorted(s)
    ensures Sorted(Insert(x, s)) && multiset(Insert(x, s)) == multiset(s) + multiset{x}
  {
    if s != [] {
      assert s == [s[0]] + s[1..];
      if Less(s[0], x) {
        InsertKeepsOrder(x, s[1..]);
        HeadStaysLeast(x, s);
      } else {
        forall j | 0 <= j < |s| ensures !Less(s[j], x) {
          if j > 0 {
            NotLessIsTransitive(x, s[0], s[j]);
          }
        }
      }
    }
  }

  lemma HeadStaysLeast(x: string, s: seq<string>)
    requires s != [] && Sorted(s) && Less(s[0], x)
    requires multiset(Insert(x, s[1..])) == multiset(s[1..]) + multiset{x}
    ensures forall j :: 0 <= j < |Insert(x, s[1..])| ==> !Less(Insert(x, s[1..])[j], s[0])
  {
    var rest := Insert(x, s[1..]);
    LessIsIrreflexive(s[0]);
    forall j | 0 <= j < |rest| ensures !Less(rest[j], s[0]) {
      assert rest[j] in multiset(rest);
      if rest[j] == x {
        if Less(x, s[0]) {
          LessIsTransitive(s[0], x, s[0]);
        }
      } else {
        assert rest[j] in s[1..];
      }
    }
  }

  lemma {:induction false} SortPermutes(s: seq<string>)
    ensures Sorted(Sort(s)) && multiset(Sort(s)) == multiset(s)
  {
    if s != [] {
      assert s == [s[0]] + s[1..];
      SortPermutes(s[1..]);
      InsertKeepsOrder(s[0], Sort(s[1..]));
    }
  }

  /** Sorting permutes every list into code-unit order; which is strict exactly if nothing
      is repeated. */
  lemma SortIsAnOrderedPermutation(s: seq<string>)
    ensures Sorted(Sort(s)) && multiset(Sort(s)) == multiset(s)
    ensures Increasing(Sort(s)) <==> Distinct(s)
  {
    SortPermutes(s);
    SortedIsStrict(Sort(s));
    if Distinct(s) {
      DistinctIgnoresOrder(s, Sort(s));
    }
    if Distinct(Sort(s)) {
      DistinctIgnoresOrder(Sort(s), s);
    }
  }

  lemma SortedIsStrict(s: seq<string>)
    requires Sorted(s)
    ensures Increasing(s) <==> Distinct(s)
  {
    forall i, j | 0 <= i < j < |s| ensures Less(s[i], s[j]) <==> s[i] != s[j] {
      LessIsTotal(s[i], s[j]);
      LessIsIrreflexive(s[i]);
    }
  }

  // --- recipient lists -------------------------------------------------------

  /** What a recipient list comes out as: nothing, or the ordered permutation. */
  ghost predicate IsCanonicalList(subjects: seq<string>, acceptable: bool, result: Option<seq<string>>) {
    && (result.Some? <==> acceptable)
    && (result.Some? ==> Increasing(result.value) && multiset(result.value) == multiset(subjects))
  }

  ghost predicate AreRecipients(subjects: seq<string>) {
    && |subjects| <= Directory.MAX_RECIPIENTS && Distinct(subjects)
    && forall i :: 0 <= i < |subjects| ==> IsLowerHex(subjects[i], 64)
  }

  method RecipientSubjects(value: seq<string>) returns (result: Option<seq<string>>)
    ensures IsCanonicalList(value, AreRecipients(value), result)
  {
    if |value| > Directory.MAX_RECIPIENTS { return None; }
    var subjects: seq<string> := [];
    var seen: set<string> := {};
    for n := 0 to |value|
      invariant subjects == value[..n] && AreRecipients(subjects)
      invariant forall x :: x in seen <==> x in subjects
    {
      NormalizationIsCanonical(value[n]);
      var subject := CanonicalSubject(value[n]);
      if subject.None? || subject.value in seen { return None; }
      seen := seen + {subject.value};
      subjects := subjects + [subject.value];
    }
    assert value[..|value|] == value;
    SortIsAnOrderedPermutation(subjects);
    return Some(Sort(subjects));
  }

  ghost predicate CurrentRecipient(record: Option<AuthorityRecord>, now: Time) {
    record.Some? && Decide(FullNetwork, record.value.assertion.subject, record, now) == AllowCurrentFull
  }

  ghost function RecordSubjects(value: seq<Option<AuthorityRecord>>): (r: seq<string>)
    ensures |r| == |value|
    ensures forall i :: 0 <= i < |value| ==> r[i] == if value[i].Some? then value[i].value.assertion.subject else ""
  {
    seq(|value|, i requires 0 <= i < |value| => if value[i].Some? then value[i].value.assertion.subject else "")
  }

  ghost predicate AreCurrentRecipients(value: seq<Option<AuthorityRecord>>, now: Time, limit: int) {
    && 1 <= limit <= Directory.MAX_RECIPIENTS && |value| <= limit && Distinct(RecordSubjects(value))
    && forall i :: 0 <= i < |value| ==> CurrentRecipient(value[i], now)
  }

  method NormalizeCurrentFullRecipients(value: seq<Option<AuthorityRecord>>, now: Time, limit: int)
    returns (result: Option<seq<string>>)
    ensures IsCanonicalList(RecordSubjects(value), AreCurrentRecipients(value, now, limit), result)
  {
    if !IsSafeInteger(limit) || limit < 1 || limit > Directory.MAX_RECIPIENTS || |value| > limit { return None; }
    var recipients: seq<string> := [];
    var seen: set<string> := {};
    ghost var all := RecordSubjects(value);
    for n := 0 to |value|
      invariant recipients == all[..n] && Distinct(recipients)
      invariant forall i :: 0 <= i < n ==> CurrentRecipient(value[i], now)
      invariant forall x :: x in seen <==> x in recipients
    {
      var subject := if value[n].Some? then CanonicalSubject(value[n].value.assertion.subject) else None;
      if subject.None? || subject.value in seen || !CurrentFullFor(value[n], subject, now) { return None; }
      seen := seen + {subject.value};
      recipients := recipients + [subject.value];
    }
    assert all[..|value|] == all;
    SortIsAnOrderedPermutation(recipients);
    return Some(Sort(recipients));
  }

  /** Two ordered lists of the same elements are the same. */
  lemma CanonicalListsAgree(a: seq<string>, b: seq<string>, acceptable: bool, ra: Option<seq<string>>,
                            rb: Option<seq<string>>)
    requires multiset(a) == multiset(b)
    requires IsCanonicalList(a, acceptable, ra) && IsCanonicalList(b, acceptable, rb)
    ensures ra == rb
  {
    if ra.Some? {
      SameMembers(ra.value, rb.value);
      IncreasingListingIsUnique(ra.value, rb.value);
    }
  }

  lemma AcceptanceIgnoresOrder(a: seq<string>, b: seq<string>)
    requires multiset(a) == multiset(b) && AreRecipients(a)
    ensures AreRecipients(b)
  {
    SameMembers(a, b);
    assert forall i :: 0 <= i < |b| ==> b[i] in a;
    DistinctIgnoresOrder(a, b);
  }

  /** The result does not depend on the order in which the subjects were given. */
  lemma ListingIgnoresOrder(a: seq<string>, b: seq<string>, ra: Option<seq<string>>, rb: Option<seq<string>>)
    requires multiset(a) == multiset(b)
    requires IsCanonicalList(a, AreRecipients(a), ra) && IsCanonicalList(b, AreRecipients(b), rb)
    ensures ra == rb
  {
    if AreRecipients(a) {
      AcceptanceIgnoresOrder(a, b);
    } else if AreRecipients(b) {
      AcceptanceIgnoresOrder(b, a);
    }
    CanonicalListsAgree(a, b, AreRecipients(a), ra, rb);
  }

  lemma RecordSubjectsIgnoreOrder(a: seq<Option<AuthorityRecord>>, b: seq<Option<AuthorityRecord>>)
    requires multiset(a) == multiset(b)
    ensures multiset(RecordSubjects(a)) == multiset(RecordSubjects(b))
  {
    var subject := (r: Option<AuthorityRecord>) => if r.Some? then r.value.assertion.subject else "";
    MappedAlike(subject, a, b);
    assert RecordSubjects(a) == Mapped(subject, a) && RecordSubjects(b) == Mapped(subject, b);
  }

  lemma RecordAcceptanceIgnoresOrder(a: seq<Option<AuthorityRecord>>, b: seq<Option<AuthorityRecord>>, now: Time,
                                     limit: int)
    requires multiset(a) == multiset(b) && AreCurrentRecipients(a, now, limit)
    ensures AreCurrentRecipients(b, now, limit)
  {
    SameMembers(a, b);
    RecordSubjectsIgnoreOrder(a, b);
    DistinctIgnoresOrder(RecordSubjects(a), RecordSubjects(b));
    forall i | 0 <= i < |b| ensures CurrentRecipient(b[i], now) {
      assert b[i] in a;
    }
  }

  /** Nor does that of the gate on authority records depend on the order of the records. */
  lemma RecordListingIgnoresOrder(a: seq<Option<AuthorityRecord>>, b: seq<Option<AuthorityRecord>>, now: Time,
                                  limit: int, ra: Option<seq<string>>, rb: Option<seq<string>>)
    requires multiset(a) == multiset(b)
    requires IsCanonicalList(RecordSubjects(a), AreCurrentRecipients(a, now, limit), ra)
    requires IsCanonicalList(RecordSubjects(b), AreCurrentRecipients(b, now, limit), rb)
    ensures ra == rb
  {
    RecordSubjectsIgnoreOrder(a, b);
    if AreCurrentRecipients(a, now, limit) {
      RecordAcceptanceIgnoresOrder(a, b, now, limit);
    } else if AreCurrentRecipients(b, now, limit) {
      RecordAcceptanceIgnoresOrder(b, a, now, limit);
    }
    CanonicalListsAgree(RecordSubjects(a), RecordSubjects(b), AreCurrentRecipients(a, now, limit), ra, rb);
  }

  /** The subjects of an accepted directory go through the recipient gate unchanged. */
  lemma DirectorySubjectsPassUnchanged(value: Directory.RawSnapshot, limit: int, result: Option<seq<string>>)
    requires Directory.Structural(Some(value), limit)
    requires var subjects := Directory.Subjects(value.recipients.value);
             IsCanonicalList(subjects, AreRecipients(subjects), result)
    ensures result == Some(Directory.Subjects(value.recipients.value))
  {
    var list, subjects := value.recipients.value, Directory.Subjects(value.recipients.value);
    forall i | 0 <= i < |subjects| ensures IsLowerHex(subjects[i], 64) {
      assert Directory.SoundRecipient(list[i], value);
    }
    forall i, j | 0 <= i < j < |subjects| ensures subjects[i] != subjects[j] {
      LessIsIrreflexive(subjects[i]);
    }
    SameMembers(result.value, subjects);
    IncreasingListingIsUnique(result.value, subjects);
  }

  /** Whoever an accepted directory lists has Full access at that time by its own
      authority record. */
  lemma DirectoryAuthorityDerivesFull(value: Directory.RawSnapshot, now: Time, limit: int, i: nat)
    requires Directory.Accepts(Some(value), now, limit) && i < |value.recipients.value|
    ensures var r := value.recipients.value[i];
            && r.Some? && r.value.authority.Some?
            && var a := r.value.authority.value;
               var assertion := Assertion(a.source, a.version, a.subject, a.status, a.expiresAt);
               DeriveAccess(r.value.subject, Some(assertion), now) == Full
  {
    var list := value.recipients.value;
    Directory.AcceptanceWindow(Some(value), limit, now);
    assert Directory.SoundRecipient(list[i], value) && Directory.LiveAt(list[i], now.ms);
    NormalizationIsCanonical(list[i].value.subject);
  }
}
