/** The two-store browser database of the V2 provisional key
    (web/messaging-device-ed25519-key-v2.mjs): its records and its three write
    transactions. */
module ProvisionalKeyStore {
  import opened Text

  // --- records ---------------------------------------------------------------

  datatype RowState = PendingRegister | OtherState

  /** The X25519 row under the key `current`. `clean` says that it holds no accepted
      binding, authorization, pending authorization or rotation. */
  datatype DeviceRow = DeviceRow(
    state: RowState, clean: bool, subject: string, deviceId: string, publicKey: string, requestId: string,
    pendingProposal: string)

  datatype Pending = Pending(
    subject: string, deviceId: string, publicKey: string, requestId: string, pendingProposal: string)

  datatype Identity = Identity(
    subject: string, deviceId: string, requestId: string, pendingProposal: string, x25519PublicKey: string,
    content: string, contentDigest: string, bindingId: string, commitment: string,
    ed25519PublicKey: string, revision: string)

  /** A durable signing claim: the exact authorization wire and the record it binds. The
      digests of the wire in the stored form are functions of it. */
  datatype Claim = Claim(
    authorizationWire: string, deviceId: string, requestId: string, subject: string, bindingId: string,
    commitment: string, ed25519PublicKey: string, revision: string)

  /** A signed attempt: the approved authorization wire and the signer's event. */
  datatype Attempt = Attempt(authorizationWire: string, event: string)

  /** `privateKey` stands for the non-extractable key object. */
  datatype LocalRecord = LocalRecord(
    identity: Identity, privateKey: nat, signingClaim: Option<Claim>, signedAttempt: Option<Attempt>)

  datatype Database = Database(device: Option<DeviceRow>, keys: map<string, LocalRecord>)

  datatype Envelope = Envelope(
    deviceId: string, requestId: string, bindingId: string, commitment: string, ed25519PublicKey: string,
    contentDigest: string, content: string)

  /** The serializers, parsers, digests and signature checks the module calls, as
      arbitrary functions; None where they throw. */
  datatype Codec = Codec(
    proposal: (string, string, string) -> string,
    bindingId: (string, string, string) -> Option<string>,
    digest: string -> string,
    commitment: string -> string,
    envelope: (string, string, string) -> Option<Envelope>,
    isApproval: (string, string) -> bool)

  /** `projectExactPendingMessagingDeviceRegister`. */
  function ProjectPending(codec: Codec, row: Option<DeviceRow>, subject: string): Option<Pending> {
    if row.None? || row.value.state != PendingRegister || !row.value.clean || row.value.subject != subject then None
    else
      var r := row.value;
      if r.pendingProposal != codec.proposal(r.deviceId, r.publicKey, r.requestId) then None
      else Some(Pending(r.subject, r.deviceId, r.publicKey, r.requestId, r.pendingProposal))
  }

  /** The record the module expects for a pending row and a binding content. */
  function ExpectedIdentity(codec: Codec, pending: Pending, content: string, ed25519PublicKey: string,
                            revision: string): Option<Identity>
  {
    var bindingId := codec.bindingId(content, pending.subject, pending.pendingProposal);
    if bindingId.None? then None
    else Some(Identity(pending.subject, pending.deviceId, pending.requestId, pending.pendingProposal,
                       pending.publicKey, content, codec.digest(content), bindingId.value,
                       codec.commitment(pending.publicKey), ed25519PublicKey, revision))
  }

  /** `matchesExpected`: everything but the Ed25519 key and the revision. */
  predicate MatchesExpected(identity: Identity, expected: Identity) {
    identity == expected.(ed25519PublicKey := identity.ed25519PublicKey, revision := identity.revision)
  }

  /** The checks of `loadBound` on a stored record. */
  predicate IsBound(codec: Codec, pending: Pending, identity: Identity) {
    var expected := ExpectedIdentity(codec, pending, identity.content, identity.ed25519PublicKey, identity.revision);
    expected.Some? && MatchesExpected(identity, expected.value)
  }

  function ClaimOf(codec: Codec, wire: string, identity: Identity): Option<Claim> {
    var envelope := codec.envelope(wire, identity.subject, identity.pendingProposal);
    if envelope.None? then None
    else if envelope.value != Envelope(identity.deviceId, identity.requestId, identity.bindingId, identity.commitment,
                                       identity.ed25519PublicKey, identity.contentDigest, identity.content) then None
    else Some(Claim(wire, identity.deviceId, identity.requestId, identity.subject, identity.bindingId,
                    identity.commitment, identity.ed25519PublicKey, identity.revision))
  }

  // --- the transactions as functions ----------------------------------------

  datatype ClaimOutcome =
    | Aborted
    | AlreadySigned(attempt: Attempt)
    | ExistingClaim(claim: Claim)
    | Claimed(claim: Claim)

  function CreateTx(codec: Codec, db: Database, expected: Pending, record: LocalRecord, guard: bool): (Database, bool) {
    if ProjectPending(codec, db.device, expected.subject) != Some(expected) then (db, false)
    else if !guard then (db, false)
    else if record.identity.deviceId in db.keys then (db, false)
    else (db.(keys := db.keys[record.identity.deviceId := record]), true)
  }

  function ClaimTx(codec: Codec, db: Database, expected: Pending, expectedRecord: LocalRecord, claim: Claim,
                   guard: bool): (Database, ClaimOutcome)
  {
    var deviceId := expectedRecord.identity.deviceId;
    if ProjectPending(codec, db.device, expected.subject) != Some(expected) then (db, Aborted)
    else if deviceId !in db.keys || db.keys[deviceId].identity != expectedRecord.identity then (db, Aborted)
    else if db.keys[deviceId].identity.subject != expected.subject then (db, Aborted)
    else if !guard then (db, Aborted)
    else
      var record := db.keys[deviceId];
      if record.signedAttempt.Some? then (db, AlreadySigned(record.signedAttempt.value))
      else if record.signingClaim.Some? then (db, ExistingClaim(record.signingClaim.value))
      else (db.(keys := db.keys[deviceId := record.(signingClaim := Some(claim))]), Claimed(claim))
  }

  function PersistTx(db: Database, expectedRecord: LocalRecord, claim: Claim, attempt: Attempt)
    : (Database, Option<Attempt>)
  {
    var deviceId := expectedRecord.identity.deviceId;
    if deviceId !in db.keys || db.keys[deviceId].identity != expectedRecord.identity then (db, None)
    else
      var record := db.keys[deviceId];
      if record.signingClaim != Some(claim) then (db, None)
      else if record.signedAttempt.Some? then
        (db, if record.signedAttempt == Some(attempt) then Some(attempt) else None)
      else (db.(keys := db.keys[deviceId := record.(signedAttempt := Some(attempt))]), Some(attempt))
  }

  // --- the database ----------------------------------------------------------

  class SharedDatabase {
    var device: Option<DeviceRow>
    var keys: map<string, LocalRecord>

    function Contents(): Database
      reads this
    {
      Database(device, keys)
    }

    constructor ()
      ensures Contents() == Database(None, map[])
    {
      device, keys := None, map[];
    }

    /** `add` after re-reading the X25519 row and running the session guard. */
    method Create(codec: Codec, expected: Pending, record: LocalRecord, guard: bool) returns (committed: bool)
      modifies this
      ensures (Contents(), committed) == CreateTx(codec, old(Contents()), expected, record, guard)
      ensures old(keys.Keys) <= keys.Keys && forall d :: d in old(keys) ==> keys[d] == old(keys)[d]
    {
      var authoritative := ProjectPending(codec, device, expected.subject);
      if authoritative.None? || authoritative.value != expected { return false; }
      if !guard { return false; }
      if record.identity.deviceId in keys { return false; }
      keys := keys[record.identity.deviceId := record];
      return true;
    }

    /** Compare-and-swap of the signing claim. The guard runs on every path, around the
        write as well; its one value here is the conjunction. */
    method ClaimSigning(codec: Codec, expected: Pending, expectedRecord: LocalRecord, claim: Claim, guard: bool)
      returns (outcome: ClaimOutcome)
      modifies this
      ensures (Contents(), outcome) == ClaimTx(codec, old(Contents()), expected, expectedRecord, claim, guard)
      ensures outcome.Claimed? <==> keys != old(keys)
    {
      var authoritative := ProjectPending(codec, device, expected.subject);
      if authoritative.None? || authoritative.value != expected { return Aborted; }
      if expectedRecord.identity.deviceId !in keys { return Aborted; }
      var record := keys[expectedRecord.identity.deviceId];
      if record.identity.subject != expected.subject || record.identity != expectedRecord.identity { return Aborted; }
      if !guard { return Aborted; }
      if record.signedAttempt.Some? { return AlreadySigned(record.signedAttempt.value); }
      if record.signingClaim.Some? { return ExistingClaim(record.signingClaim.value); }
      var next := record.(signingClaim := Some(claim));
      keys := keys[expectedRecord.identity.deviceId := next];
      assert old(keys)[expectedRecord.identity.deviceId] != next;
      return Claimed(claim);
    }

    /** The evidence-only write, authenticated by the durable claim. */
    method Persist(expectedRecord: LocalRecord, claim: Claim, attempt: Attempt) returns (persisted: Option<Attempt>)
      modifies this
      ensures (Contents(), persisted) == PersistTx(old(Contents()), expectedRecord, claim, attempt)
      ensures device == old(device)
    {
      var deviceId := expectedRecord.identity.deviceId;
      if deviceId !in keys { return None; }
      var record := keys[deviceId];
      if record.identity.revision != expectedRecord.identity.revision || record.signingClaim != Some(claim) ||
         record.identity != expectedRecord.identity { return None; }
      if record.signedAttempt.Some? {
        if record.signedAttempt.value != attempt { return None; }
        return record.signedAttempt;
      }
      keys := keys[deviceId := record.(signedAttempt := Some(attempt))];
      return Some(attempt);
    }
  }

  // --- what every transaction keeps -----------------------------------------

  ghost predicate RecordExtends(before: LocalRecord, after: LocalRecord) {
    && after.identity == before.identity && after.privateKey == before.privateKey
    && (before.signingClaim.Some? ==> after.signingClaim == before.signingClaim)
    && (before.signedAttempt.Some? ==> after.signedAttempt == before.signedAttempt)
  }

  /** No record is lost or re-identified; claims and attempts are written once. */
  ghost predicate Extends(before: Database, after: Database) {
    forall d :: d in before.keys ==> d in after.keys && RecordExtends(before.keys[d], after.keys[d])
  }

  ghost predicate KeyedByDevice(db: Database) {
    forall d :: d in db.keys ==> db.keys[d].identity.deviceId == d
  }

  lemma ExtendsIsTransitive(a: Database, b: Database, c: Database)
    requires Extends(a, b) && Extends(b, c)
    ensures Extends(a, c)
  {
    forall d | d in a.keys ensures d in c.keys && RecordExtends(a.keys[d], c.keys[d]) {
      assert d in b.keys && RecordExtends(a.keys[d], b.keys[d]);
    }
  }

  /** Every write transaction only extends the database, and writes at all only what it
      reports. */
  lemma TransactionsExtend(codec: Codec, db: Database, pending: Pending, record: LocalRecord, claim: Claim,
                           attempt: Attempt, guard: bool)
    requires KeyedByDevice(db)
    ensures var (after, committed) := CreateTx(codec, db, pending, record, guard);
            Extends(db, after) && KeyedByDevice(after) && (after == db <==> !committed)
    ensures var (after, outcome) := ClaimTx(codec, db, pending, record, claim, guard);
            Extends(db, after) && KeyedByDevice(after) && (after == db <==> !outcome.Claimed?)
    ensures var (after, persisted) := PersistTx(db, record, claim, attempt);
            Extends(db, after) && KeyedByDevice(after) &&
            (persisted.Some? ==> after.keys[record.identity.deviceId].signedAttempt == Some(attempt))
  {
    var (created, committed) := CreateTx(codec, db, pending, record, guard);
    if committed {
      assert record.identity.deviceId in created.keys && record.identity.deviceId !in db.keys;
    }
    var (claimed, outcome) := ClaimTx(codec, db, pending, record, claim, guard);
    if outcome.Claimed? {
      assert claimed.keys[record.identity.deviceId].signingClaim != db.keys[record.identity.deviceId].signingClaim;
    }
  }

  // --- what every transaction answers ----------------------------------------

  /** The X25519 row as it must be for a write: pending, clean, and the expected one. */
  ghost predicate RowStands(codec: Codec, row: Option<DeviceRow>, expected: Pending) {
    && row.Some? && row.value.state == PendingRegister && row.value.clean
    && expected == Pending(row.value.subject, row.value.deviceId, row.value.publicKey, row.value.requestId,
                           row.value.pendingProposal)
    && expected.pendingProposal == codec.proposal(expected.deviceId, expected.publicKey, expected.requestId)
  }

  /** A creation commits exactly if the row stands, the guard passes and the device has no
      record; it then adds this record alone. */
  lemma CreationCommits(codec: Codec, db: Database, expected: Pending, record: LocalRecord, guard: bool)
    ensures var (after, committed) := CreateTx(codec, db, expected, record, guard);
            && (committed <==> RowStands(codec, db.device, expected) && guard && record.identity.deviceId !in db.keys)
            && after.device == db.device
            && after.keys == if committed then db.keys[record.identity.deviceId := record] else db.keys
  {
  }

  /** A claim finds the record it was made for only under a standing row and a passing guard;
      it then learns of the artifact, or else of the earlier claim, or else is granted, which
      is the one case that writes. */
  lemma ClaimAnswers(codec: Codec, db: Database, expected: Pending, record: LocalRecord, claim: Claim, guard: bool)
    ensures var (after, outcome) := ClaimTx(codec, db, expected, record, claim, guard);
            var deviceId := record.identity.deviceId;
            && after.device == db.device
            && if RowStands(codec, db.device, expected) && guard && deviceId in db.keys
                  && db.keys[deviceId].identity == record.identity && record.identity.subject == expected.subject
               then var stored := db.keys[deviceId];
                    if stored.signedAttempt.Some? then
                      outcome == AlreadySigned(stored.signedAttempt.value) && after.keys == db.keys
                    else if stored.signingClaim.Some? then
                      outcome == ExistingClaim(stored.signingClaim.value) && after.keys == db.keys
                    else
                      outcome == Claimed(claim)
                      && after.keys == db.keys[deviceId := stored.(signingClaim := Some(claim))]
               else outcome == Aborted && after.keys == db.keys
  {
  }

  /** An artifact is stored exactly under its claim and identity, once: storing it again
      succeeds and changes nothing, storing another one is refused. */
  lemma PersistenceAnswers(db: Database, record: LocalRecord, claim: Claim, attempt: Attempt, again: Attempt)
    ensures var (after, persisted) := PersistTx(db, record, claim, attempt);
            var deviceId := record.identity.deviceId;
            && (persisted == Some(attempt) <==>
                  && deviceId in db.keys && db.keys[deviceId].identity == record.identity
                  && db.keys[deviceId].signingClaim == Some(claim)
                  && db.keys[deviceId].signedAttempt in {None, Some(attempt)})
            && (persisted.None? ==> after == db)
            && (persisted.Some? ==>
                  && persisted == Some(attempt)
                  && after == db.(keys := db.keys[deviceId := db.keys[deviceId].(signedAttempt := Some(attempt))])
                  && PersistTx(after, record, claim, again) == (after, if again == attempt then Some(again) else None))
  {
    var deviceId := record.identity.deviceId;
    if deviceId in db.keys && db.keys[deviceId].signedAttempt == Some(attempt) {
      assert db.keys[deviceId := db.keys[deviceId]] == db.keys;
    }
  }
}
