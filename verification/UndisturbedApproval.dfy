/** What an undisturbed preparation and approval hand out, and what every retry after them
    hands out, whatever the tabs do in between
    (web/mobile-device-authorization-seams-v2.mjs). */
module UndisturbedApproval {
  import opened Text
  import opened ProvisionalKeyStore
  import opened ApprovalProtocol

  /** The steps of one tab, in order, as a schedule. */
  function ByTab(t: nat, steps: seq<Step>): seq<(nat, Step)> {
    seq(|steps|, i requires 0 <= i < |steps| => (t, steps[i]))
  }

  /** A run through the given states. */
  lemma {:induction false} Traced(codec: Codec, start: State, schedule: seq<(nat, Step)>, t: nat, steps: seq<Step>,
                                  states: seq<State>)
    requires |states| == |steps| + 1 && After(codec, start, schedule) == states[0]
    requires forall i :: 0 <= i < |steps| ==> Do(codec, states[i], t, steps[i]) == states[i + 1]
    ensures After(codec, start, schedule + ByTab(t, steps)) == states[|steps|]
    decreases |steps|
  {
    var n := |steps|;
    if n == 0 {
      assert schedule + ByTab(t, steps) == schedule;
    } else {
      Traced(codec, start, schedule, t, steps[..n - 1], states[..n]);
      assert ByTab(t, steps)[..n - 1] == ByTab(t, steps[..n - 1]);
      AfterOneMore(codec, start, schedule, ByTab(t, steps));
    }
  }

  /** Tab `t` of `s` at `progress`, with the given records and log. */
  function At(s: State, t: nat, progress: Progress, keys: map<string, LocalRecord>, log: seq<Event>): State
    requires t < |s.tabs|
  {
    State(Database(s.db.device, keys), s.tabs[t := s.tabs[t].(progress := progress)], log)
  }

  lemma Moved(s: State, t: nat, progress: Progress, keys: map<string, LocalRecord>, log: seq<Event>, next: Progress)
    requires t < |s.tabs|
    ensures Put(At(s, t, progress, keys, log), t, next) == At(s, t, next, keys, log)
  {
  }

  // --- preparation -----------------------------------------------------------

  function Preparing(content: string, key: string, revision: string, privateKey: nat): seq<Step> {
    [BeginPrepare(content), PrepareReadPending, PrepareReadStored(key, revision, privateKey), PrepareCreate,
     PrepareFinish]
  }

  lemma PreparationReads(codec: Codec, s: State, t: nat, content: string, key: string, revision: string,
                         privateKey: nat, pending: Pending, identity: Identity)
    requires t < |s.tabs| && ProjectPending(codec, s.db.device, s.tabs[t].session.subject) == Some(pending)
    requires ExpectedIdentity(codec, pending, content, key, revision) == Some(identity)
    ensures var session, record := s.tabs[t].session, LocalRecord(identity, privateKey, None, None);
            var x1 := At(s, t, PrepareStarted(session, content), map[], []);
            var x2 := At(s, t, PreparePending(session, content, pending), map[], []);
            && Do(codec, At(s, t, Idle, map[], []), t, BeginPrepare(content)) == x1
            && Do(codec, x1, t, PrepareReadPending) == x2
            && Do(codec, x2, t, PrepareReadStored(key, revision, privateKey)) ==
               At(s, t, PrepareReady(session, pending, record), map[], [])
  {
    var session, record := s.tabs[t].session, LocalRecord(identity, privateKey, None, None);
    Moved(s, t, Idle, map[], [], PrepareStarted(session, content));
    Moved(s, t, PrepareStarted(session, content), map[], [], PreparePending(session, content, pending));
    Moved(s, t, PreparePending(session, content, pending), map[], [], PrepareReady(session, pending, record));
  }

  lemma PreparationPublishes(codec: Codec, s: State, t: nat, pending: Pending, record: LocalRecord)
    requires t < |s.tabs| && ProjectPending(codec, s.db.device, s.tabs[t].session.subject) == Some(pending)
    requires pending.subject == s.tabs[t].session.subject
    ensures var session, identity := s.tabs[t].session, record.identity;
            var keys := map[identity.deviceId := record];
            var x4 := At(s, t, PrepareTried(session, record, true), keys, []);
            && Do(codec, At(s, t, PrepareReady(session, pending, record), map[], []), t, PrepareCreate) == x4
            && Do(codec, x4, t, PrepareFinish) == At(s, t, Idle, keys, [PublishedKey(identity.deviceId, identity)])
  {
    var session, keys := s.tabs[t].session, map[record.identity.deviceId := record];
    Moved(s, t, PrepareReady(session, pending, record), keys, [], PrepareTried(session, record, true));
    Moved(s, t, PrepareTried(session, record, true), keys, [], Idle);
  }

  /** A first preparation stores the generated key and publishes exactly that one. */
  lemma Prepared(codec: Codec, start: State, t: nat, content: string, key: string, revision: string, privateKey: nat,
                 pending: Pending, identity: Identity)
    requires Initial(start) && t < |start.tabs|
    requires ProjectPending(codec, start.db.device, start.tabs[t].session.subject) == Some(pending)
    requires ExpectedIdentity(codec, pending, content, key, revision) == Some(identity)
    ensures After(codec, start, ByTab(t, Preparing(content, key, revision, privateKey))) ==
            At(start, t, Idle, map[identity.deviceId := LocalRecord(identity, privateKey, None, None)],
               [PublishedKey(identity.deviceId, identity)])
  {
    var session, record := start.tabs[t].session, LocalRecord(identity, privateKey, None, None);
    var keys := map[identity.deviceId := record];
    PreparationReads(codec, start, t, content, key, revision, privateKey, pending, identity);
    PreparationPublishes(codec, start, t, pending, record);
    assert start == At(start, t, Idle, map[], []);
    Traced(codec, start, [], t, Preparing(content, key, revision, privateKey),
           [start, At(start, t, PrepareStarted(session, content), map[], []),
            At(start, t, PreparePending(session, content, pending), map[], []),
            At(start, t, PrepareReady(session, pending, record), map[], []),
            At(start, t, PrepareTried(session, record, true), keys, []),
            At(start, t, Idle, keys, [PublishedKey(identity.deviceId, identity)])]);
    assert [] + ByTab(t, Preparing(content, key, revision, privateKey)) ==
           ByTab(t, Preparing(content, key, revision, privateKey));
  }

  // --- approval --------------------------------------------------------------

  function Looking(wire: string): seq<Step> {
    [BeginApprove(wire), ApproveReadPending, ApproveReadStored]
  }

  const CLAIMING: seq<Step> := [ClaimReadPending, ClaimReadStored, ClaimCommit, ClaimFinish]

  function Calling(event: string): seq<Step> {
    [CallSigner, SignerReturns(event)]
  }

  const PERSISTING: seq<Step> := [PersistRead, PersistCommit, PersistFinish]

  /** The stored record of the pending row is bound to it and to the authorization wire. */
  ghost predicate IsReady(codec: Codec, s: State, t: nat, wire: string, pending: Pending, record: LocalRecord,
                          claim: Claim)
  {
    && t < |s.tabs| && ProjectPending(codec, s.db.device, s.tabs[t].session.subject) == Some(pending)
    && pending.subject == s.tabs[t].session.subject
    && record.identity.deviceId == pending.deviceId && record.identity.subject == pending.subject
    && IsBound(codec, pending, record.identity) && ClaimOf(codec, wire, record.identity) == Some(claim)
  }

  lemma NothingIsStored(codec: Codec, s: State, t: nat, wire: string, pending: Pending, record: LocalRecord,
                        claim: Claim, keys: map<string, LocalRecord>, log: seq<Event>)
    requires IsReady(codec, s, t, wire, pending, record, claim) && record.signedAttempt.None?
    requires pending.deviceId in keys && keys[pending.deviceId] == record
    ensures var session := s.tabs[t].session;
            var x1 := At(s, t, ApproveStarted(session, wire), keys, log);
            var x2 := At(s, t, ApprovePending(session, wire, pending), keys, log);
            && Do(codec, At(s, t, Idle, keys, log), t, BeginApprove(wire)) == x1
            && Do(codec, x1, t, ApproveReadPending) == x2
            && Do(codec, x2, t, ApproveReadStored) == At(s, t, ClaimStarted(session, wire), keys, log)
  {
    var session := s.tabs[t].session;
    Moved(s, t, Idle, keys, log, ApproveStarted(session, wire));
    Moved(s, t, ApproveStarted(session, wire), keys, log, ApprovePending(session, wire, pending));
    Moved(s, t, ApprovePending(session, wire, pending), keys, log, ClaimStarted(session, wire));
  }

  /** A first approval binds its claim to the stored record. */
  lemma ClaimIsBound(codec: Codec, s: State, t: nat, wire: string, pending: Pending, record: LocalRecord,
                     claim: Claim, keys: map<string, LocalRecord>, log: seq<Event>)
    requires IsReady(codec, s, t, wire, pending, record, claim)
    requires pending.deviceId in keys && keys[pending.deviceId] == record
    ensures var session := s.tabs[t].session;
            var x1 := At(s, t, ClaimPending(session, wire, pending), keys, log);
            && Do(codec, At(s, t, ClaimStarted(session, wire), keys, log), t, ClaimReadPending) == x1
            && Do(codec, x1, t, ClaimReadStored) == At(s, t, ClaimReady(session, pending, record, claim), keys, log)
  {
    var session := s.tabs[t].session;
    Moved(s, t, ClaimStarted(session, wire), keys, log, ClaimPending(session, wire, pending));
    Moved(s, t, ClaimPending(session, wire, pending), keys, log, ClaimReady(session, pending, record, claim));
  }

  /** It then claims the record durably before it may go near the signer. */
  lemma ClaimIsStored(codec: Codec, s: State, t: nat, wire: string, pending: Pending, record: LocalRecord,
                      claim: Claim, keys: map<string, LocalRecord>, log: seq<Event>)
    requires IsReady(codec, s, t, wire, pending, record, claim)
    requires record.signingClaim.None? && record.signedAttempt.None?
    requires pending.deviceId in keys && keys[pending.deviceId] == record
    ensures var session, claimed := s.tabs[t].session, keys[pending.deviceId := record.(signingClaim := Some(claim))];
            var x1 := At(s, t, ClaimTried(session, record, claim, Claimed(claim)), claimed, log);
            && Do(codec, At(s, t, ClaimReady(session, pending, record, claim), keys, log), t, ClaimCommit) == x1
            && Do(codec, x1, t, ClaimFinish) == At(s, t, MaySign(session, claim), claimed, log)
  {
    var session, claimed := s.tabs[t].session, keys[pending.deviceId := record.(signingClaim := Some(claim))];
    var tried := ClaimTried(session, record, claim, Claimed(claim));
    Moved(s, t, ClaimReady(session, pending, record, claim), claimed, log, tried);
    Moved(s, t, tried, claimed, log, MaySign(session, claim));
  }

  /** The holder of the permission calls the signer once and gets its event. */
  lemma SignerIsCalled(codec: Codec, s: State, t: nat, claim: Claim, event: string, keys: map<string, LocalRecord>,
                       log: seq<Event>)
    requires t < |s.tabs|
    ensures var session, called := s.tabs[t].session, log + [SignEventCalled(claim)];
            var x1 := At(s, t, Signing(session, claim), keys, called);
            && Do(codec, At(s, t, MaySign(session, claim), keys, log), t, CallSigner) == x1
            && Do(codec, x1, t, SignerReturns(event)) ==
               At(s, t, HasEvent(session, claim, event, true), keys, called + [SignerReturned(claim, event)])
  {
    var session, called := s.tabs[t].session, log + [SignEventCalled(claim)];
    Moved(s, t, MaySign(session, claim), keys, log, Signing(session, claim));
    Moved(s, t, Signing(session, claim), keys, called, HasEvent(session, claim, event, true));
  }

  /** What the signer returned is stored under the durable claim and then handed out. */
  lemma EventIsStored(codec: Codec, s: State, t: nat, claim: Claim, event: string, record: LocalRecord,
                      keys: map<string, LocalRecord>, log: seq<Event>)
    requires t < |s.tabs| && claim.deviceId in keys && keys[claim.deviceId] == record
    requires record.identity.deviceId == claim.deviceId
    requires record.signingClaim == Some(claim) && record.signedAttempt.None?
    requires ClaimOf(codec, claim.authorizationWire, record.identity) == Some(claim)
    requires codec.isApproval(claim.authorizationWire, event)
    ensures var session, attempt := s.tabs[t].session, Attempt(claim.authorizationWire, event);
            var stored := keys[claim.deviceId := record.(signedAttempt := Some(attempt))];
            var x1 := At(s, t, PersistReady(session, record, claim, attempt, true), keys, log);
            var x2 := At(s, t, Persisted(session, claim, attempt, true), stored, log);
            && Do(codec, At(s, t, HasEvent(session, claim, event, true), keys, log), t, PersistRead) == x1
            && Do(codec, x1, t, PersistCommit) == x2
            && Do(codec, x2, t, PersistFinish) == At(s, t, Idle, stored, log + [HandedOut(claim.deviceId, attempt)])
  {
    var session, attempt := s.tabs[t].session, Attempt(claim.authorizationWire, event);
    var stored := keys[claim.deviceId := record.(signedAttempt := Some(attempt))];
    Moved(s, t, HasEvent(session, claim, event, true), keys, log, PersistReady(session, record, claim, attempt, true));
    Moved(s, t, PersistReady(session, record, claim, attempt, true), stored, log,
          Persisted(session, claim, attempt, true));
    Moved(s, t, Persisted(session, claim, attempt, true), stored, log, Idle);
  }

  // --- the whole run ---------------------------------------------------------

  /** What one tab is given: the binding content, the generated key pair, the authorization
      wire and the event its signer returns. */
  datatype Call = Call(
    content: string, key: string, revision: string, privateKey: nat, wire: string, event: string)

  function Undisturbed(t: nat, call: Call): seq<(nat, Step)> {
    ByTab(t, Preparing(call.content, call.key, call.revision, call.privateKey)) + ByTab(t, Looking(call.wire))
    + ByTab(t, CLAIMING) + ByTab(t, Calling(call.event)) + ByTab(t, PERSISTING)
  }

  /** The row is pending for the subject of the tab, and the content, the wire and the event
      pass the parsers and the signature check. */
  ghost predicate IsAccepted(codec: Codec, start: State, t: nat, call: Call, pending: Pending, identity: Identity,
                             claim: Claim)
  {
    && t < |start.tabs| && ProjectPending(codec, start.db.device, start.tabs[t].session.subject) == Some(pending)
    && ExpectedIdentity(codec, pending, call.content, call.key, call.revision) == Some(identity)
    && ClaimOf(codec, call.wire, identity) == Some(claim) && codec.isApproval(call.wire, call.event)
  }

  function UnsignedRecord(call: Call, identity: Identity): LocalRecord {
    LocalRecord(identity, call.privateKey, None, None)
  }

  function ClaimedRecord(call: Call, identity: Identity, claim: Claim): LocalRecord {
    LocalRecord(identity, call.privateKey, Some(claim), None)
  }

  function SignedRecord(call: Call, identity: Identity, claim: Claim): LocalRecord {
    LocalRecord(identity, call.privateKey, Some(claim), Some(Attempt(call.wire, call.event)))
  }

  lemma AcceptedIsReady(codec: Codec, start: State, t: nat, call: Call, pending: Pending, identity: Identity,
                        claim: Claim)
    requires IsAccepted(codec, start, t, call, pending, identity, claim)
    ensures IsReady(codec, start, t, call.wire, pending, UnsignedRecord(call, identity), claim)
    ensures claim.deviceId == pending.deviceId == identity.deviceId && claim.authorizationWire == call.wire
  {
    ExpectedIsBound(codec, pending, call.content, call.key, call.revision);
  }

  /** The record is claimed before the signer is near. */
  lemma ClaimedFirst(codec: Codec, start: State, t: nat, call: Call, pending: Pending, identity: Identity,
                     claim: Claim, schedule: seq<(nat, Step)>)
    requires IsAccepted(codec, start, t, call, pending, identity, claim)
    requires var log := [PublishedKey(identity.deviceId, identity)];
             After(codec, start, schedule) ==
             At(start, t, Idle, map[identity.deviceId := UnsignedRecord(call, identity)], log)
    ensures var log := [PublishedKey(identity.deviceId, identity)];
            After(codec, start, schedule + ByTab(t, Looking(call.wire)) + ByTab(t, CLAIMING)) ==
            At(start, t, MaySign(start.tabs[t].session, claim),
               map[identity.deviceId := ClaimedRecord(call, identity, claim)], log)
  {
    AcceptedIsReady(codec, start, t, call, pending, identity, claim);
    var session, wire, record := start.tabs[t].session, call.wire, UnsignedRecord(call, identity);
    var keys, log := map[identity.deviceId := record], [PublishedKey(identity.deviceId, identity)];
    NothingIsStored(codec, start, t, wire, pending, record, claim, keys, log);
    Traced(codec, start, schedule, t, Looking(wire),
           [At(start, t, Idle, keys, log), At(start, t, ApproveStarted(session, wire), keys, log),
            At(start, t, ApprovePending(session, wire, pending), keys, log),
            At(start, t, ClaimStarted(session, wire), keys, log)]);
    ClaimIsBound(codec, start, t, wire, pending, record, claim, keys, log);
    ClaimIsStored(codec, start, t, wire, pending, record, claim, keys, log);
    var claimed := map[identity.deviceId := ClaimedRecord(call, identity, claim)];
    assert keys[pending.deviceId := record.(signingClaim := Some(claim))] == claimed;
    Traced(codec, start, schedule + ByTab(t, Looking(wire)), t, CLAIMING,
           [At(start, t, ClaimStarted(session, wire), keys, log),
            At(start, t, ClaimPending(session, wire, pending), keys, log),
            At(start, t, ClaimReady(session, pending, record, claim), keys, log),
            At(start, t, ClaimTried(session, record, claim, Claimed(claim)), claimed, log),
            At(start, t, MaySign(session, claim), claimed, log)]);
  }

  /** Then it signs once, and what the signer returned is stored and handed out. */
  lemma SignedLast(codec: Codec, start: State, t: nat, call: Call, pending: Pending, identity: Identity,
                   claim: Claim, schedule: seq<(nat, Step)>, log: seq<Event>)
    requires IsAccepted(codec, start, t, call, pending, identity, claim)
    requires After(codec, start, schedule) ==
             At(start, t, MaySign(start.tabs[t].session, claim),
                map[identity.deviceId := ClaimedRecord(call, identity, claim)], log)
    ensures After(codec, start, schedule + ByTab(t, Calling(call.event)) + ByTab(t, PERSISTING)) ==
            At(start, t, Idle, map[identity.deviceId := SignedRecord(call, identity, claim)],
               log + [SignEventCalled(claim)] + [SignerReturned(claim, call.event)]
               + [HandedOut(identity.deviceId, Attempt(call.wire, call.event))])
  {
    AcceptedIsReady(codec, start, t, call, pending, identity, claim);
    var session, record, event := start.tabs[t].session, ClaimedRecord(call, identity, claim), call.event;
    var keys, called := map[identity.deviceId := record], log + [SignEventCalled(claim)];
    SignerIsCalled(codec, start, t, claim, event, keys, log);
    var returned := called + [SignerReturned(claim, event)];
    Traced(codec, start, schedule, t, Calling(event),
           [At(start, t, MaySign(session, claim), keys, log), At(start, t, Signing(session, claim), keys, called),
            At(start, t, HasEvent(session, claim, event, true), keys, returned)]);
    EventIsStored(codec, start, t, claim, event, record, keys, returned);
    var attempt, signed := Attempt(call.wire, event), map[identity.deviceId := SignedRecord(call, identity, claim)];
    assert keys[claim.deviceId := record.(signedAttempt := Some(attempt))] == signed;
    Traced(codec, start, schedule + ByTab(t, Calling(event)), t, PERSISTING,
           [At(start, t, HasEvent(session, claim, event, true), keys, returned),
            At(start, t, PersistReady(session, record, claim, attempt, true), keys, returned),
            At(start, t, Persisted(session, claim, attempt, true), signed, returned),
            At(start, t, Idle, signed, returned + [HandedOut(identity.deviceId, attempt)])]);
  }

  /** An undisturbed preparation and approval over an empty store publish the generated
      key, call the signer once and hand out what it returned, all of it stored. */
  lemma UndisturbedRunHandsOut(codec: Codec, start: State, t: nat, call: Call, pending: Pending, identity: Identity,
                               claim: Claim)
    requires Initial(start) && IsAccepted(codec, start, t, call, pending, identity, claim)
    ensures var s := After(codec, start, Undisturbed(t, call));
            && s.tabs == start.tabs && s.db.device == start.db.device
            && s.db.keys == map[identity.deviceId := SignedRecord(call, identity, claim)]
            && s.log == [PublishedKey(identity.deviceId, identity), SignEventCalled(claim),
                         SignerReturned(claim, call.event),
                         HandedOut(identity.deviceId, Attempt(call.wire, call.event))]
  {
    var prepared := ByTab(t, Preparing(call.content, call.key, call.revision, call.privateKey));
    Prepared(codec, start, t, call.content, call.key, call.revision, call.privateKey, pending, identity);
    ClaimedFirst(codec, start, t, call, pending, identity, claim, prepared);
    SignedLast(codec, start, t, call, pending, identity, claim,
               prepared + ByTab(t, Looking(call.wire)) + ByTab(t, CLAIMING),
               [PublishedKey(identity.deviceId, identity)]);
    assert start.tabs[t := start.tabs[t].(progress := Idle)] == start.tabs;
  }

  // --- every retry -----------------------------------------------------------

  /** A retry over a stored artifact hands out that artifact and calls no signer. */
  lemma StoredArtifactIsFound(codec: Codec, s: State, u: nat, wire: string, pending: Pending, claim: Claim,
                              attempt: Attempt)
    requires u < |s.tabs| && s.tabs[u].progress == Idle && pending.deviceId in s.db.keys
    requires IsReady(codec, s, u, wire, pending, s.db.keys[pending.deviceId], claim)
    requires s.db.keys[pending.deviceId].signingClaim == Some(claim)
    requires s.db.keys[pending.deviceId].signedAttempt == Some(attempt) && attempt.authorizationWire == wire
    ensures var session := s.tabs[u].session;
            var x1 := Put(s, u, ApproveStarted(session, wire));
            var x2 := Put(s, u, ApprovePending(session, wire, pending));
            && Do(codec, s, u, BeginApprove(wire)) == x1
            && Do(codec, x1, u, ApproveReadPending) == x2
            && Do(codec, x2, u, ApproveReadStored) == Emit(s, HandedOut(pending.deviceId, attempt))
  {
  }

  /** The undisturbed run leaves its claim and artifact in the record for good. */
  lemma RecordStaysSigned(codec: Codec, start: State, t: nat, call: Call, pending: Pending, identity: Identity,
                          claim: Claim, more: seq<(nat, Step)>)
    requires Initial(start) && IsAccepted(codec, start, t, call, pending, identity, claim)
    ensures var later := After(codec, start, Undisturbed(t, call) + more);
            identity.deviceId in later.db.keys
            && later.db.keys[identity.deviceId] == SignedRecord(call, identity, claim)
  {
    UndisturbedRunHandsOut(codec, start, t, call, pending, identity, claim);
    RunExtends(codec, start, Undisturbed(t, call), more);
    assert RecordExtends(SignedRecord(call, identity, claim),
                         After(codec, start, Undisturbed(t, call) + more).db.keys[identity.deviceId]);
  }

  lemma RetryHandsOut(codec: Codec, start: State, schedule: seq<(nat, Step)>, u: nat, wire: string, pending: Pending,
                      claim: Claim, attempt: Attempt)
    requires var s := After(codec, start, schedule);
             && u < |s.tabs| && s.tabs[u].progress == Idle && pending.deviceId in s.db.keys
             && IsReady(codec, s, u, wire, pending, s.db.keys[pending.deviceId], claim)
             && s.db.keys[pending.deviceId].signingClaim == Some(claim)
             && s.db.keys[pending.deviceId].signedAttempt == Some(attempt) && attempt.authorizationWire == wire
    ensures After(codec, start, schedule + ByTab(u, Looking(wire))) ==
            Emit(After(codec, start, schedule), HandedOut(pending.deviceId, attempt))
  {
    var s := After(codec, start, schedule);
    StoredArtifactIsFound(codec, s, u, wire, pending, claim, attempt);
    Traced(codec, start, schedule, u, Looking(wire),
           [s, Put(s, u, ApproveStarted(s.tabs[u].session, wire)),
            Put(s, u, ApprovePending(s.tabs[u].session, wire, pending)),
            Emit(s, HandedOut(pending.deviceId, attempt))]);
  }

  /** After an undisturbed run there is exactly one artifact: whatever the tabs, the
      sessions and the X25519 row do next, the signer was called once, nothing else is ever
      handed out for the record, and an idle tab that finds the row pending as before and
      asks with the same wire is handed that artifact again without a signer call. */
  lemma ExactlyOneArtifact(codec: Codec, start: State, t: nat, call: Call, pending: Pending, identity: Identity,
                           claim: Claim, more: seq<(nat, Step)>, u: nat)
    requires Initial(start) && IsAccepted(codec, start, t, call, pending, identity, claim)
    ensures var later := After(codec, start, Undisturbed(t, call) + more);
            var attempt := Attempt(call.wire, call.event);
            && SignCalls(later.log, identity.deviceId) == 1
            && (forall other :: HandedOut(identity.deviceId, other) in later.log <==> other == attempt)
            && (u < |later.tabs| && later.tabs[u].progress == Idle
                && ProjectPending(codec, later.db.device, later.tabs[u].session.subject) == Some(pending) ==>
                  After(codec, start, Undisturbed(t, call) + more + ByTab(u, Looking(call.wire))) ==
                  Emit(later, HandedOut(identity.deviceId, attempt)))
  {
    var later, attempt := After(codec, start, Undisturbed(t, call) + more), Attempt(call.wire, call.event);
    UndisturbedRunHandsOut(codec, start, t, call, pending, identity, claim);
    assert HandedOut(identity.deviceId, attempt) == After(codec, start, Undisturbed(t, call)).log[3];
    ArtifactsAreDurableAndUnique(codec, start, Undisturbed(t, call), more, identity.deviceId, attempt);
    RunExtends(codec, start, Undisturbed(t, call), more);
    assert later.log[3] == HandedOut(identity.deviceId, attempt);
    if u < |later.tabs| && later.tabs[u].progress == Idle
       && ProjectPending(codec, later.db.device, later.tabs[u].session.subject) == Some(pending) {
      RecordStaysSigned(codec, start, t, call, pending, identity, claim, more);
      AcceptedIsReady(codec, start, t, call, pending, identity, claim);
      RetryHandsOut(codec, start, Undisturbed(t, call) + more, u, call.wire, pending, claim, attempt);
    }
  }

  // --- calls that find the work done -----------------------------------------

  /** The stored identity is the expected one but for its key: a preparation finds that. */
  predicate HasOtherKey(stored: Identity, expected: Identity) {
    stored == expected.(ed25519PublicKey := stored.ed25519PublicKey, revision := stored.revision)
  }

  /** A later preparation of the same content generates nothing: it publishes the identity
      that is stored. */
  lemma PreparationFindsTheStored(codec: Codec, start: State, schedule: seq<(nat, Step)>, u: nat, content: string,
                                  key: string, revision: string, privateKey: nat, pending: Pending, expected: Identity)
    requires var s := After(codec, start, schedule);
             && u < |s.tabs| && s.tabs[u].progress == Idle
             && ProjectPending(codec, s.db.device, s.tabs[u].session.subject) == Some(pending)
             && ExpectedIdentity(codec, pending, content, key, revision) == Some(expected)
             && pending.deviceId in s.db.keys && HasOtherKey(s.db.keys[pending.deviceId].identity, expected)
    ensures var s := After(codec, start, schedule);
            After(codec, start, schedule + ByTab(u, Preparing(content, key, revision, privateKey)[..3])) ==
            Emit(s, PublishedKey(pending.deviceId, s.db.keys[pending.deviceId].identity))
  {
    var s := After(codec, start, schedule);
    var session, published := s.tabs[u].session, PublishedKey(pending.deviceId, s.db.keys[pending.deviceId].identity);
    var x1, x2 := Put(s, u, PrepareStarted(session, content)), Put(s, u, PreparePending(session, content, pending));
    assert Preparing(content, key, revision, privateKey)[..3] ==
           [BeginPrepare(content), PrepareReadPending, PrepareReadStored(key, revision, privateKey)];
    StoredKeyIsPublished(codec, s, u, content, key, revision, privateKey, pending, expected);
    Traced(codec, start, schedule, u, [BeginPrepare(content), PrepareReadPending,
                                       PrepareReadStored(key, revision, privateKey)],
           [s, x1, x2, Emit(s, published)]);
  }

  lemma StoredKeyIsPublished(codec: Codec, s: State, u: nat, content: string, key: string, revision: string,
                             privateKey: nat, pending: Pending, expected: Identity)
    requires u < |s.tabs| && s.tabs[u].progress == Idle
    requires ProjectPending(codec, s.db.device, s.tabs[u].session.subject) == Some(pending)
    requires ExpectedIdentity(codec, pending, content, key, revision) == Some(expected)
    requires pending.deviceId in s.db.keys && HasOtherKey(s.db.keys[pending.deviceId].identity, expected)
    ensures var session := s.tabs[u].session;
            var x1 := Put(s, u, PrepareStarted(session, content));
            var x2 := Put(s, u, PreparePending(session, content, pending));
            && Do(codec, s, u, BeginPrepare(content)) == x1 && Do(codec, x1, u, PrepareReadPending) == x2
            && Do(codec, x2, u, PrepareReadStored(key, revision, privateKey)) ==
               Emit(s, PublishedKey(pending.deviceId, s.db.keys[pending.deviceId].identity))
  {
  }

  /** Two tabs race to create: the one that comes second changes nothing and publishes the
      identity the first one stored. */
  lemma LoserPublishesTheWinner(codec: Codec, start: State, schedule: seq<(nat, Step)>, u: nat, pending: Pending,
                                record: LocalRecord)
    requires var s, deviceId := After(codec, start, schedule), record.identity.deviceId;
             && u < |s.tabs| && s.tabs[u].progress == PrepareReady(s.tabs[u].session, pending, record)
             && deviceId in s.db.keys && HasOtherKey(s.db.keys[deviceId].identity, record.identity)
    ensures var s, deviceId := After(codec, start, schedule), record.identity.deviceId;
            After(codec, start, schedule + ByTab(u, [PrepareCreate, PrepareFinish])) ==
            Emit(Put(s, u, Idle), PublishedKey(deviceId, s.db.keys[deviceId].identity))
  {
    var s, deviceId := After(codec, start, schedule), record.identity.deviceId;
    var x1 := Put(s, u, PrepareTried(s.tabs[u].session, record, false));
    LostRace(codec, s, u, pending, record);
    Traced(codec, start, schedule, u, [PrepareCreate, PrepareFinish],
           [s, x1, Emit(Put(s, u, Idle), PublishedKey(deviceId, s.db.keys[deviceId].identity))]);
  }

  lemma LostRace(codec: Codec, s: State, u: nat, pending: Pending, record: LocalRecord)
    requires u < |s.tabs| && s.tabs[u].progress == PrepareReady(s.tabs[u].session, pending, record)
    requires record.identity.deviceId in s.db.keys
    requires HasOtherKey(s.db.keys[record.identity.deviceId].identity, record.identity)
    ensures var x1 := Put(s, u, PrepareTried(s.tabs[u].session, record, false));
            && Do(codec, s, u, PrepareCreate) == x1
            && Do(codec, x1, u, PrepareFinish) ==
               Emit(Put(s, u, Idle),
                    PublishedKey(record.identity.deviceId, s.db.keys[record.identity.deviceId].identity))
  {
    assert s.(db := s.db) == s;
  }

  /** An approval that found nothing signed, and comes to claim after another tab has signed,
      is handed the artifact of that tab. */
  lemma LateClaimIsHandedTheArtifact(codec: Codec, start: State, schedule: seq<(nat, Step)>, u: nat, wire: string,
                                     pending: Pending, claim: Claim, attempt: Attempt)
    requires var s := After(codec, start, schedule);
             && u < |s.tabs| && s.tabs[u].progress == ClaimStarted(s.tabs[u].session, wire)
             && pending.deviceId in s.db.keys
             && IsReady(codec, s, u, wire, pending, s.db.keys[pending.deviceId], claim)
             && s.db.keys[pending.deviceId].signedAttempt == Some(attempt) && attempt.authorizationWire == wire
    ensures var s := After(codec, start, schedule);
            After(codec, start, schedule + ByTab(u, CLAIMING)) ==
            Emit(Put(s, u, Idle), HandedOut(pending.deviceId, attempt))
  {
    var s := After(codec, start, schedule);
    var session, record := s.tabs[u].session, s.db.keys[pending.deviceId];
    LateClaimReads(codec, s, u, wire, pending, claim);
    LateClaimEnds(codec, s, u, wire, pending, claim, attempt);
    Traced(codec, start, schedule, u, CLAIMING,
           [s, Put(s, u, ClaimPending(session, wire, pending)), Put(s, u, ClaimReady(session, pending, record, claim)),
            Put(s, u, ClaimTried(session, record, claim, AlreadySigned(attempt))),
            Emit(Put(s, u, Idle), HandedOut(pending.deviceId, attempt))]);
  }

  lemma LateClaimReads(codec: Codec, s: State, u: nat, wire: string, pending: Pending, claim: Claim)
    requires u < |s.tabs| && s.tabs[u].progress == ClaimStarted(s.tabs[u].session, wire)
    requires pending.deviceId in s.db.keys && IsReady(codec, s, u, wire, pending, s.db.keys[pending.deviceId], claim)
    ensures var session := s.tabs[u].session;
            var x1 := Put(s, u, ClaimPending(session, wire, pending));
            && Do(codec, s, u, ClaimReadPending) == x1
            && Do(codec, x1, u, ClaimReadStored) ==
               Put(s, u, ClaimReady(session, pending, s.db.keys[pending.deviceId], claim))
  {
  }

  lemma LateClaimEnds(codec: Codec, s: State, u: nat, wire: string, pending: Pending, claim: Claim, attempt: Attempt)
    requires u < |s.tabs| && pending.deviceId in s.db.keys
    requires IsReady(codec, s, u, wire, pending, s.db.keys[pending.deviceId], claim)
    requires s.db.keys[pending.deviceId].signedAttempt == Some(attempt) && attempt.authorizationWire == wire
    ensures var session, record := s.tabs[u].session, s.db.keys[pending.deviceId];
            var x3 := Put(s, u, ClaimTried(session, record, claim, AlreadySigned(attempt)));
            && Do(codec, Put(s, u, ClaimReady(session, pending, record, claim)), u, ClaimCommit) == x3
            && Do(codec, x3, u, ClaimFinish) == Emit(Put(s, u, Idle), HandedOut(pending.deviceId, attempt))
  {
  }
}
