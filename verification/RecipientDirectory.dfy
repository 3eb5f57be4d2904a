/** The Full recipient directory (src/full-recipient-directory.mjs): a snapshot is
    accepted as a whole or not at all. */
module RecipientDirectory {
  import opened Text
  import opened Domain
  import X25519Keys

  const MAX_RECIPIENTS := 4096
  const MAX_FRESHNESS_MS := 300000
  const SCHEMA := "hodlxxi.full_recipient_directory.v1"
  const ALGORITHM := "x25519-v1"

  // A value whose shape or field types are not the exact ones of the schema is None.

  datatype RawKey = RawKey(
    algorithm: string, version: int, publicKey: string, validFrom: Time, expiresAt: Time, revoked: bool)

  datatype RawAuthority = RawAuthority(
    source: string, version: int, snapshotId: string, subject: string, status: string, expiresAt: Time)

  datatype RawRecipient = RawRecipient(
    snapshotId: string, subject: string, encryptionKey: Option<RawKey>, authority: Option<RawAuthority>)

  datatype RawSnapshot = RawSnapshot(
    schema: string, version: int, source: string, snapshotId: string, complete: bool,
    issuedAt: Time, expiresAt: Time, recipients: Option<seq<Option<RawRecipient>>>)

  datatype Recipient = Recipient(
    subject: string, algorithm: string, version: int, publicKey: string, validFrom: int, expiresAt: int)

  datatype Directory = Available(snapshotId: string, recipients: seq<Recipient>) | Unavailable

  predicate IsIdChar(c: char) {
    IsDigit(c) || 'a' <= c <= 'z' || 'A' <= c <= 'Z' || c in {'.', '_', ':', '-'}
  }

  predicate IsBoundedId(id: string) {
    1 <= |id| <= 128 && forall i :: 0 <= i < |id| ==> IsIdChar(id[i])
  }

  // --- one recipient ---------------------------------------------------------

  function NormalizeRecipient(value: Option<RawRecipient>, snapshot: RawSnapshot, now: int): Option<Recipient>
    requires snapshot.issuedAt.Finite? && snapshot.expiresAt.Finite?
  {
    if value.None? || value.value.encryptionKey.None? || value.value.authority.None? then None else
    var recipient := value.value;
    var key, authority := recipient.encryptionKey.value, recipient.authority.value;
    if recipient.snapshotId != snapshot.snapshotId then None
    else if !IsLowerHex(recipient.subject, 64) || !IsLowerHex(key.publicKey, 64) then None
    else if key.publicKey == recipient.subject then None
    else if X25519Keys.TopBitSet(key.publicKey) || X25519Keys.IsProhibited(key.publicKey) then None
    else if key.algorithm != ALGORITHM || !IsSafeInteger(key.version) || key.version < 1 || key.revoked then None
    else if key.validFrom.NotFinite? || key.expiresAt.NotFinite? then None
    else if key.validFrom.ms > now || key.expiresAt.ms <= now || key.validFrom.ms >= key.expiresAt.ms then None
    else if key.validFrom.ms < snapshot.issuedAt.ms || key.expiresAt.ms > snapshot.expiresAt.ms then None
    else if authority.source != CRT_SOURCE || authority.version != 1 then None
    else if authority.snapshotId != snapshot.snapshotId then None
    else if authority.subject != recipient.subject || authority.status != "full" then None
    else if authority.expiresAt.NotFinite? || authority.expiresAt.ms <= now then None
    else if authority.expiresAt.ms > snapshot.expiresAt.ms then None
    else Some(Recipient(recipient.subject, key.algorithm, key.version, key.publicKey,
                        key.validFrom.ms, key.expiresAt.ms))
  }

  // --- the whole snapshot, declaratively ------------------------------------

  /** What a recipient entry must satisfy whatever the time. */
  ghost predicate SoundRecipient(value: Option<RawRecipient>, s: RawSnapshot) {
    && value.Some? && value.value.encryptionKey.Some? && value.value.authority.Some?
    && s.issuedAt.Finite? && s.expiresAt.Finite?
    && var r := value.value;
       var key, authority := r.encryptionKey.value, r.authority.value;
       && r.snapshotId == authority.snapshotId == s.snapshotId
       && IsLowerHex(r.subject, 64) && authority.subject == r.subject
       && IsLowerHex(key.publicKey, 64) && key.publicKey != r.subject
       && !X25519Keys.TopBitSet(key.publicKey) && !X25519Keys.IsProhibited(key.publicKey)
       && key.algorithm == ALGORITHM && 1 <= key.version <= MAX_SAFE_INTEGER && !key.revoked
       && key.validFrom.Finite? && key.expiresAt.Finite? && authority.expiresAt.Finite?
       && s.issuedAt.ms <= key.validFrom.ms < key.expiresAt.ms <= s.expiresAt.ms
       && authority.expiresAt.ms <= s.expiresAt.ms
       && authority.source == CRT_SOURCE && authority.version == 1 && authority.status == "full"
  }

  ghost function Ms(time: Time): int { if time.Finite? then time.ms else 0 }

  ghost function SubjectOf(value: Option<RawRecipient>): string {
    if value.Some? then value.value.subject else ""
  }

  ghost function TheKey(value: Option<RawRecipient>): RawKey {
    if value.Some? && value.value.encryptionKey.Some? then value.value.encryptionKey.value
    else RawKey("", 0, "", NotFinite, NotFinite, true)
  }

  ghost function KeyOf(value: Option<RawRecipient>): string { TheKey(value).publicKey }

  ghost function ValidFrom(value: Option<RawRecipient>): int { Ms(TheKey(value).validFrom) }

  ghost function KeyExpiry(value: Option<RawRecipient>): int { Ms(TheKey(value).expiresAt) }

  ghost function AuthorityExpiry(value: Option<RawRecipient>): int {
    if value.Some? && value.value.authority.Some? then Ms(value.value.authority.value.expiresAt) else 0
  }

  ghost function Subjects(list: seq<Option<RawRecipient>>): (r: seq<string>)
    ensures |r| == |list| && forall i :: 0 <= i < |list| ==> r[i] == SubjectOf(list[i])
  {
    seq(|list|, i requires 0 <= i < |list| => SubjectOf(list[i]))
  }

  ghost predicate DistinctKeys(list: seq<Option<RawRecipient>>) {
    forall i, j :: 0 <= i < j < |list| ==> KeyOf(list[i]) != KeyOf(list[j])
  }

  ghost predicate AllSound(list: seq<Option<RawRecipient>>, s: RawSnapshot) {
    forall i :: 0 <= i < |list| ==> SoundRecipient(list[i], s)
  }

  ghost predicate LiveAt(value: Option<RawRecipient>, now: int) {
    ValidFrom(value) <= now < KeyExpiry(value) && now < AuthorityExpiry(value)
  }

  ghost predicate AllLive(list: seq<Option<RawRecipient>>, now: int) {
    forall i :: 0 <= i < |list| ==> LiveAt(list[i], now)
  }

  ghost predicate SoundHeader(s: RawSnapshot, limit: int) {
    && s.schema == SCHEMA && s.version == 1 && s.source == CRT_SOURCE && IsBoundedId(s.snapshotId) && s.complete
    && 1 <= limit <= MAX_RECIPIENTS && s.recipients.Some? && |s.recipients.value| <= limit
    && s.issuedAt.Finite? && s.expiresAt.Finite?
    && s.issuedAt.ms < s.expiresAt.ms <= s.issuedAt.ms + MAX_FRESHNESS_MS
  }

  /** A snapshot that is acceptable at some time as far as its structure goes. */
  ghost predicate Structural(value: Option<RawSnapshot>, limit: int) {
    && value.Some? && SoundHeader(value.value, limit)
    && var list := value.value.recipients.value;
       AllSound(list, value.value) && Increasing(Subjects(list)) && DistinctKeys(list)
  }

  ghost function Later(a: int, b: int): int { if a > b then a else b }

  ghost function Earlier(a: int, b: int): int { if a < b then a else b }

  /** The moment from which every validity has begun, and the first at which one has
      ended. */
  ghost function OpensAt(list: seq<Option<RawRecipient>>, s: RawSnapshot): int {
    if list == [] then Ms(s.issuedAt)
    else Later(OpensAt(list[..|list| - 1], s), ValidFrom(list[|list| - 1]))
  }

  ghost function ClosesAt(list: seq<Option<RawRecipient>>, s: RawSnapshot): int {
    if list == [] then Ms(s.expiresAt)
    else
      var last := list[|list| - 1];
      Earlier(ClosesAt(list[..|list| - 1], s), Earlier(KeyExpiry(last), AuthorityExpiry(last)))
  }

  ghost predicate Accepts(value: Option<RawSnapshot>, now: Time, limit: int) {
    && Structural(value, limit) && now.Finite?
    && OpensAt(value.value.recipients.value, value.value) <= now.ms
    && now.ms < ClosesAt(value.value.recipients.value, value.value)
  }

  ghost function Listed(value: Option<RawRecipient>): Recipient {
    var key := TheKey(value);
    Recipient(SubjectOf(value), key.algorithm, key.version, key.publicKey, ValidFrom(value), KeyExpiry(value))
  }

  /** The recipients of an accepted snapshot: all of them, in order, with no authority
      data. It does not depend on the time. */
  ghost function Listing(list: seq<Option<RawRecipient>>): (r: seq<Recipient>)
    ensures |r| == |list| && forall i :: 0 <= i < |list| ==> r[i] == Listed(list[i])
  {
    seq(|list|, i requires 0 <= i < |list| => Listed(list[i]))
  }

  // --- the loop --------------------------------------------------------------

  lemma RecipientIsSoundAndLive(value: Option<RawRecipient>, s: RawSnapshot, now: int)
    requires s.issuedAt.Finite? && s.expiresAt.Finite?
    ensures NormalizeRecipient(value, s, now).Some? <==> SoundRecipient(value, s) && LiveAt(value, now)
    ensures NormalizeRecipient(value, s, now).Some? ==> NormalizeRecipient(value, s, now).value == Listed(value)
  {
  }

  lemma {:induction false} WindowOfAll(list: seq<Option<RawRecipient>>, s: RawSnapshot, now: int)
    ensures OpensAt(list, s) <= now < ClosesAt(list, s) <==>
            Ms(s.issuedAt) <= now < Ms(s.expiresAt) && AllLive(list, now)
    ensures Ms(s.issuedAt) <= OpensAt(list, s) && ClosesAt(list, s) <= Ms(s.expiresAt)
    decreases |list|
  {
    if list != [] {
      var init, last := list[..|list| - 1], list[|list| - 1];
      WindowOfAll(init, s, now);
      assert forall i :: 0 <= i < |list| ==> list[i] == if i < |init| then init[i] else last;
    }
  }

  lemma AppendKeepsIncreasing(s: seq<string>, x: string)
    requires Increasing(s)
    ensures Increasing(s + [x]) <==> s == [] || Less(s[|s| - 1], x)
  {
    if s != [] {
      assert (s + [x])[|s| - 1] == s[|s| - 1] && (s + [x])[|s|] == x;
      if Less(s[|s| - 1], x) {
        forall i | 0 <= i < |s| ensures Less(s[i], x) {
          if i < |s| - 1 {
            LessIsTransitive(s[i], s[|s| - 1], x);
          }
        }
      }
    }
  }

  /** The test on the set of earlier subjects never decides anything: a repeated subject
      already fails the comparison with the previous one. */
  lemma SubjectSetIsRedundant(subjects: seq<string>, x: string)
    requires Increasing(subjects) && x in subjects
    ensures !Less(subjects[|subjects| - 1], x)
  {
    var last := subjects[|subjects| - 1];
    LessIsIrreflexive(x);
    if Less(last, x) && x != last {
      LessIsTransitive(x, last, x);
    }
  }

  lemma NotBothWays(s: string, t: string)
    ensures !Less(s, t) <==> s == t || Less(t, s)
  {
    LessIsTotal(s, t);
    LessIsIrreflexive(s);
    if Less(s, t) && Less(t, s) {
      LessIsTransitive(s, t, s);
    }
  }

  ghost function SubjectList(list: seq<Recipient>): (r: seq<string>)
    ensures |r| == |list| && forall i :: 0 <= i < |list| ==> r[i] == list[i].subject
  {
    seq(|list|, i requires 0 <= i < |list| => list[i].subject)
  }

  ghost predicate Ordered(list: seq<Recipient>) {
    && Increasing(SubjectList(list))
    && forall i, j :: 0 <= i < j < |list| ==> list[i].publicKey != list[j].publicKey
  }

  lemma OrderedExtends(list: seq<Recipient>, next: Recipient)
    requires Ordered(list)
    ensures Ordered(list + [next]) <==>
            && (list == [] || Less(list[|list| - 1].subject, next.subject))
            && forall i :: 0 <= i < |list| ==> list[i].publicKey != next.publicKey
  {
    var longer := list + [next];
    assert SubjectList(longer) == SubjectList(list) + [next.subject];
    AppendKeepsIncreasing(SubjectList(list), next.subject);
    assert longer[|list|] == next;
    assert forall i :: 0 <= i < |list| ==> longer[i] == list[i];
  }

  lemma OrderedPrefix(list: seq<Recipient>, n: nat)
    requires n <= |list| && Ordered(list)
    ensures Ordered(list[..n])
  {
    assert forall i :: 0 <= i < n ==> SubjectList(list[..n])[i] == SubjectList(list)[i];
  }

  ghost predicate Normalized<R>(raw: seq<R>, normalize: R -> Option<Recipient>, list: seq<Recipient>) {
    |list| == |raw| && forall i :: 0 <= i < |raw| ==> normalize(raw[i]) == Some(list[i])
  }

  /** What a completed list begins with is what was collected so far. */
  lemma CollectedIsPrefix<R>(raw: seq<R>, normalize: R -> Option<Recipient>, prefix: seq<Recipient>,
                             list: seq<Recipient>)
    requires |prefix| <= |raw| && Normalized(raw[..|prefix|], normalize, prefix)
    requires Normalized(raw, normalize, list) && Ordered(list)
    ensures Ordered(prefix)
  {
    assert forall i :: 0 <= i < |prefix| ==> raw[..|prefix|][i] == raw[i];
    assert list[..|prefix|] == prefix;
    OrderedPrefix(list, |prefix|);
  }

  /** No ordered list can come of these recipients. */
  ghost predicate IsRefused<R>(raw: seq<R>, normalize: R -> Option<Recipient>) {
    forall list :: Normalized(raw, normalize, list) ==> !Ordered(list)
  }

  lemma UnorderedIsRefused<R>(raw: seq<R>, normalize: R -> Option<Recipient>, prefix: seq<Recipient>)
    requires |prefix| <= |raw| && Normalized(raw[..|prefix|], normalize, prefix) && !Ordered(prefix)
    ensures IsRefused(raw, normalize)
  {
    forall list | Normalized(raw, normalize, list) ensures !Ordered(list) {
      if Ordered(list) {
        CollectedIsPrefix(raw, normalize, prefix, list);
      }
    }
  }

  lemma CollectedExtends<R>(raw: seq<R>, normalize: R -> Option<Recipient>, prefix: seq<Recipient>, next: Recipient)
    requires |prefix| < |raw| && Normalized(raw[..|prefix|], normalize, prefix)
    requires normalize(raw[|prefix|]) == Some(next)
    ensures Normalized(raw[..|prefix| + 1], normalize, prefix + [next])
  {
    assert raw[..|prefix| + 1] == raw[..|prefix|] + [raw[|prefix|]];
  }

  ghost predicate HasKey(list: seq<Recipient>, key: string) {
    exists i :: 0 <= i < |list| && list[i].publicKey == key
  }

  lemma ListsOfAppend(list: seq<Recipient>, next: Recipient, x: string)
    ensures HasKey(list + [next], x) <==> HasKey(list, x) || x == next.publicKey
    ensures x in SubjectList(list) || x == next.subject ==> x in SubjectList(list + [next])
  {
    var longer := list + [next];
    assert longer[|list|] == next && forall i :: 0 <= i < |list| ==> longer[i] == list[i];
    assert SubjectList(longer) == SubjectList(list) + [next.subject];
  }

  ghost predicate BreaksOrder(prefix: seq<Recipient>, subject: string) {
    prefix != [] && !Less(prefix[|prefix| - 1].subject, subject)
  }

  /** The next recipient either extends what was collected in order, or settles that the
      whole list is refused. */
  lemma TurnDecides<R>(raw: seq<R>, normalize: R -> Option<Recipient>, prefix: seq<Recipient>, next: Recipient)
    requires |prefix| < |raw| && Normalized(raw[..|prefix|], normalize, prefix) && Ordered(prefix)
    requires normalize(raw[|prefix|]) == Some(next)
    ensures Normalized(raw[..|prefix| + 1], normalize, prefix + [next])
    ensures if BreaksOrder(prefix, next.subject) || HasKey(prefix, next.publicKey) then IsRefused(raw, normalize)
            else Ordered(prefix + [next])
  {
    CollectedExtends(raw, normalize, prefix, next);
    OrderedExtends(prefix, next);
    if !Ordered(prefix + [next]) {
      UnorderedIsRefused(raw, normalize, prefix + [next]);
    }
  }

  /** The loop over the raw recipients, for whatever check of a single one. */
  method CollectRecipients<R>(raw: seq<R>, normalize: R -> Option<Recipient>) returns (result: Option<seq<Recipient>>)
    ensures result.Some? ==> Normalized(raw, normalize, result.value) && Ordered(result.value)
    ensures result.None? ==> IsRefused(raw, normalize)
  {
    var recipients: seq<Recipient> := [];
    var subjects: set<string> := {};
    var bindings: set<string> := {};
    var previousSubject: Option<string> := None;
    for n := 0 to |raw|
      invariant |recipients| == n && Normalized(raw[..n], normalize, recipients) && Ordered(recipients)
      invariant forall x :: x in subjects ==> x in SubjectList(recipients)
      invariant forall x :: x in bindings <==> HasKey(recipients, x)
      invariant previousSubject == if n == 0 then None else Some(recipients[n - 1].subject)
    {
      var recipient := normalize(raw[n]);
      if recipient.None? {
        return None;
      }
      var subject := recipient.value.subject;
      TurnDecides(raw, normalize, recipients, recipient.value);
      if previousSubject.Some? {
        NotBothWays(previousSubject.value, subject);
      }
      if subject in subjects {
        SubjectSetIsRedundant(SubjectList(recipients), subject);
        return None;
      }
      var binding := recipient.value.publicKey;
      if binding in bindings ||
         (previousSubject.Some? && (subject == previousSubject.value || Less(subject, previousSubject.value)))
      {
        return None;
      }
      forall x { ListsOfAppend(recipients, recipient.value, x); }
      subjects := subjects + {subject};
      bindings := bindings + {binding};
      previousSubject := Some(subject);
      recipients := recipients + [recipient.value];
    }
    assert raw[..|raw|] == raw;
    return Some(recipients);
  }

  ghost predicate Good(list: seq<Option<RawRecipient>>, s: RawSnapshot, now: int) {
    AllSound(list, s) && AllLive(list, now) && Increasing(Subjects(list)) && DistinctKeys(list)
  }

  /** Collecting with the check of a recipient succeeds exactly on the good lists. */
  lemma CollectedIsGood(list: seq<Option<RawRecipient>>, s: RawSnapshot, now: int)
    requires s.issuedAt.Finite? && s.expiresAt.Finite?
    ensures var normalize := (r: Option<RawRecipient>) => NormalizeRecipient(r, s, now);
            && (Good(list, s, now) <==> Normalized(list, normalize, Listing(list)) && Ordered(Listing(list)))
            && forall out :: Normalized(list, normalize, out) ==> out == Listing(list)
  {
    forall i | 0 <= i < |list|
      ensures NormalizeRecipient(list[i], s, now).Some? <==> SoundRecipient(list[i], s) && LiveAt(list[i], now)
      ensures NormalizeRecipient(list[i], s, now).Some? ==>
                NormalizeRecipient(list[i], s, now) == Some(Listing(list)[i])
    {
      RecipientIsSoundAndLive(list[i], s, now);
    }
    assert SubjectList(Listing(list)) == Subjects(list);
    assert DistinctKeys(list) <==>
           forall i, j :: 0 <= i < j < |list| ==> Listing(list)[i].publicKey != Listing(list)[j].publicKey;
  }

  method NormalizeFullRecipientDirectory(value: Option<RawSnapshot>, now: Time, limit: int)
    returns (directory: Directory)
    ensures directory == if Accepts(value, now, limit)
                         then Available(value.value.snapshotId, Listing(value.value.recipients.value))
                         else Unavailable
  {
    if value.None? { return Unavailable; }
    var snapshot := value.value;
    if snapshot.schema != SCHEMA || snapshot.version != 1 { return Unavailable; }
    if snapshot.source != CRT_SOURCE || !IsBoundedId(snapshot.snapshotId) || !snapshot.complete { return Unavailable; }
    if now.NotFinite? || !IsSafeInteger(limit) || limit < 1 || limit > MAX_RECIPIENTS { return Unavailable; }
    if snapshot.issuedAt.NotFinite? || snapshot.expiresAt.NotFinite? { return Unavailable; }
    if snapshot.recipients.Some? {
      WindowOfAll(snapshot.recipients.value, snapshot, now.ms);
    }
    if snapshot.issuedAt.ms > now.ms || snapshot.expiresAt.ms <= now.ms { return Unavailable; }
    if snapshot.expiresAt.ms <= snapshot.issuedAt.ms { return Unavailable; }
    if snapshot.expiresAt.ms - snapshot.issuedAt.ms > MAX_FRESHNESS_MS { return Unavailable; }
    if snapshot.recipients.None? || |snapshot.recipients.value| > limit { return Unavailable; }
    var recipients := CollectRecipients(snapshot.recipients.value, r => NormalizeRecipient(r, snapshot, now.ms));
    CollectedIsGood(snapshot.recipients.value, snapshot, now.ms);
    if recipients.None? { return Unavailable; }
    return Available(snapshot.snapshotId, recipients.value);
  }

  // --- what acceptance means -------------------------------------------------

  /** The times at which a structurally sound snapshot is accepted form one half-open
      interval of at most five minutes, bounded by the snapshot itself and by every key
      and authority in it; no other snapshot is ever accepted. */
  lemma AcceptanceWindow(value: Option<RawSnapshot>, limit: int, now: Time)
    ensures Accepts(value, now, limit) ==> Structural(value, limit)
    ensures Structural(value, limit) ==>
              var s := value.value;
              var opens, closes := OpensAt(s.recipients.value, s), ClosesAt(s.recipients.value, s);
              && (Accepts(value, now, limit) <==> now.Finite? && opens <= now.ms < closes)
              && closes - opens <= MAX_FRESHNESS_MS
    ensures Structural(value, limit) && now.Finite? ==>
              var s := value.value;
              (Accepts(value, now, limit) <==>
               s.issuedAt.ms <= now.ms < s.expiresAt.ms && AllLive(s.recipients.value, now.ms))
  {
    if Structural(value, limit) {
      WindowOfAll(value.value.recipients.value, value.value, Ms(now));
    }
  }

  lemma SubjectsFixTheOrder(s: seq<Option<RawRecipient>>, t: seq<Option<RawRecipient>>)
    requires Increasing(Subjects(s)) && Increasing(Subjects(t)) && forall r :: r in s <==> r in t
    ensures s == t
  {
    SameSubjects(s, t);
    SameSubjects(t, s);
    IncreasingListingIsUnique(Subjects(s), Subjects(t));
    assert |s| == |Subjects(s)| == |Subjects(t)| == |t|;
    forall i | 0 <= i < |s| ensures s[i] == t[i] {
      assert s[i] in t;
      var j :| 0 <= j < |t| && t[j] == s[i];
      assert Subjects(t)[j] == Subjects(s)[i] == Subjects(t)[i];
      IncreasingIsDistinct(Subjects(t), i, j);
    }
  }

  /** A set of recipients has at most one accepted ordering. */
  lemma AcceptedOrderingIsUnique(a: RawSnapshot, b: RawSnapshot, limit: int)
    requires Structural(Some(a), limit) && Structural(Some(b), limit)
    requires forall r :: r in a.recipients.value <==> r in b.recipients.value
    ensures a.recipients.value == b.recipients.value
  {
    SubjectsFixTheOrder(a.recipients.value, b.recipients.value);
  }

  lemma SameSubjects(s: seq<Option<RawRecipient>>, t: seq<Option<RawRecipient>>)
    requires forall r :: r in s ==> r in t
    ensures forall x :: x in Subjects(s) ==> x in Subjects(t)
  {
    forall x | x in Subjects(s) ensures x in Subjects(t) {
      var i :| 0 <= i < |s| && Subjects(s)[i] == x;
      assert s[i] in t;
      var j :| 0 <= j < |t| && t[j] == s[i];
      assert Subjects(t)[j] == x;
    }
  }

  lemma SublistIsStructural(value: RawSnapshot, limit: int, picks: seq<nat>)
    requires Structural(Some(value), limit)
    requires forall k :: 0 <= k < |picks| ==> picks[k] < |value.recipients.value|
    requires forall k, l :: 0 <= k < l < |picks| ==> picks[k] < picks[l]
    ensures Structural(Some(value.(recipients := Some(Pick(value.recipients.value, picks)))), limit)
  {
    var list := value.recipients.value;
    var sub := Pick(list, picks);
    PicksAreFew(picks, |list|);
    forall k | 0 <= k < |sub| ensures SoundRecipient(sub[k], value.(recipients := Some(sub))) {
      assert SoundRecipient(list[picks[k]], value);
    }
    forall k, l | 0 <= k < l < |sub| ensures Less(Subjects(sub)[k], Subjects(sub)[l]) {
      assert Less(Subjects(list)[picks[k]], Subjects(list)[picks[l]]);
    }
    forall k, l | 0 <= k < l < |sub| ensures KeyOf(sub[k]) != KeyOf(sub[l]) {
      assert KeyOf(list[picks[k]]) != KeyOf(list[picks[l]]);
    }
  }

  /** Any subsequence of an accepted list is accepted, whenever the whole is. */
  lemma SublistIsAccepted(value: RawSnapshot, now: Time, limit: int, picks: seq<nat>)
    requires Accepts(Some(value), now, limit)
    requires forall k :: 0 <= k < |picks| ==> picks[k] < |value.recipients.value|
    requires forall k, l :: 0 <= k < l < |picks| ==> picks[k] < picks[l]
    ensures Accepts(Some(value.(recipients := Some(Pick(value.recipients.value, picks)))), now, limit)
  {
    var list := value.recipients.value;
    var sub := Pick(list, picks);
    SublistIsStructural(value, limit, picks);
    WindowOfAll(list, value, now.ms);
    WindowOfAll(sub, value.(recipients := Some(sub)), now.ms);
  }

  ghost function Pick(list: seq<Option<RawRecipient>>, picks: seq<nat>): (sub: seq<Option<RawRecipient>>)
    requires forall k :: 0 <= k < |picks| ==> picks[k] < |list|
    ensures |sub| == |picks| && forall k :: 0 <= k < |picks| ==> sub[k] == list[picks[k]]
  {
    seq(|picks|, k requires 0 <= k < |picks| => list[picks[k]])
  }

  lemma {:induction false} PicksAreFew(picks: seq<nat>, bound: nat)
    requires forall k :: 0 <= k < |picks| ==> picks[k] < bound
    requires forall k, l :: 0 <= k < l < |picks| ==> picks[k] < picks[l]
    ensures |picks| <= bound
    decreases |picks|
  {
    if picks != [] {
      PicksAreFew(picks[..|picks| - 1], picks[|picks| - 1]);
    }
  }

  /** No accepted recipient has a key that denotes one of the listed field elements, in
      any of its encodings. */
  lemma AcceptedKeysAvoidListedElements(value: Option<RawSnapshot>, now: Time, limit: int, i: nat, c: string)
    requires Accepts(value, now, limit) && i < |value.value.recipients.value|
    requires X25519Keys.IsProhibited(c) && IsLowerHex(c, 64)
    ensures var key := KeyOf(value.value.recipients.value[i]);
            IsLowerHex(key, 64) && X25519Keys.Element(key) != X25519Keys.Element(c)
  {
    var s := value.value;
    assert SoundRecipient(s.recipients.value[i], s);
    var key := KeyOf(s.recipients.value[i]);
    X25519Keys.ListIsClosedUnderAliases(key);
  }
}
