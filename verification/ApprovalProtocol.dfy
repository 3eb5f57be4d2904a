/** Any number of tabs preparing a provisional key and asking for one external desktop
    approval (web/messaging-device-ed25519-key-v2.mjs and
    web/mobile-device-authorization-seams-v2.mjs). Between two awaits a tab performs one
    step; steps of different tabs interleave freely, a tab may stop or be refused at any
    point, and the X25519 row and every tab's session change at will. */
module ApprovalProtocol {
  import opened Text
  import opened ProvisionalKeyStore

  /** The session a tab currently shows: its revision and subject. */
  datatype Session = Session(revision: string, subject: string)

  /** Where a tab stands. Captured values are those read before the last await. */
  datatype Progress =
    | Idle
    // prepare
    | PrepareStarted(session: Session, content: string)
    | PreparePending(session: Session, content: string, pending: Pending)
    | PrepareReady(session: Session, pending: Pending, record: LocalRecord)
    | PrepareTried(session: Session, record: LocalRecord, committed: bool)
    // approve: look for a stored attempt
    | ApproveStarted(session: Session, wire: string)
    | ApprovePending(session: Session, wire: string, pending: Pending)
    // approve: claim the signing attempt
    | ClaimStarted(session: Session, wire: string)
    | ClaimPending(session: Session, wire: string, pending: Pending)
    | ClaimReady(session: Session, pending: Pending, record: LocalRecord, claim: Claim)
    | ClaimTried(session: Session, record: LocalRecord, claim: Claim, outcome: ClaimOutcome)
    // approve: sign and persist; `intact` says the session was unchanged on return
    | MaySign(session: Session, claim: Claim)
    | Signing(session: Session, claim: Claim)
    | HasEvent(session: Session, claim: Claim, event: string, intact: bool)
    | PersistReady(session: Session, record: LocalRecord, claim: Claim, attempt: Attempt, intact: bool)
    | Persisted(session: Session, claim: Claim, attempt: Attempt, intact: bool)

  datatype Tab = Tab(session: Session, progress: Progress)

  /** What leaves a tab. */
  datatype Event =
    | PublishedKey(deviceId: string, identity: Identity)
    | SignEventCalled(claim: Claim)
    | SignerReturned(claim: Claim, event: string)
    | HandedOut(deviceId: string, attempt: Attempt)

  datatype State = State(db: Database, tabs: seq<Tab>, log: seq<Event>)

  datatype Step =
    | ChangeSession(session: Session)
    | ChangeDevice(row: Option<DeviceRow>)
    | Stop
    | BeginPrepare(content: string)
    | PrepareReadPending
    | PrepareReadStored(ed25519PublicKey: string, revision: string, privateKey: nat)
    | PrepareCreate
    | PrepareFinish
    | BeginApprove(wire: string)
    | ApproveReadPending
    | ApproveReadStored
    | ClaimReadPending
    | ClaimReadStored
    | ClaimCommit
    | ClaimFinish
    | CallSigner
    | SignerReturns(event: string)
    | PersistRead
    | PersistCommit
    | PersistFinish

  // --- steps -----------------------------------------------------------------

  function Put(s: State, t: nat, progress: Progress): State
    requires t < |s.tabs|
  {
    s.(tabs := s.tabs[t := s.tabs[t].(progress := progress)])
  }

  /** The call of the tab fails closed. */
  function Deny(s: State, t: nat): State
    requires t < |s.tabs|
  {
    Put(s, t, Idle)
  }

  function Emit(s: State, event: Event): State {
    s.(log := s.log + [event])
  }

  function PrepareStep(codec: Codec, s: State, t: nat, step: Step): State
    requires t < |s.tabs|
  {
    var tab := s.tabs[t];
    match (step, tab.progress)
    case (BeginPrepare(content), Idle) => Put(s, t, PrepareStarted(tab.session, content))
    case (PrepareReadPending, PrepareStarted(session, content)) =>
      var pending := ProjectPending(codec, s.db.device, session.subject);
      if tab.session != session || pending.None? then Deny(s, t)
      else Put(s, t, PreparePending(session, content, pending.value))
    case (PrepareReadStored(key, revision, privateKey), PreparePending(session, content, pending)) =>
      var expected := ExpectedIdentity(codec, pending, content, key, revision);
      if tab.session != session || expected.None? then Deny(s, t)
      else if pending.deviceId in s.db.keys then
        var identity := s.db.keys[pending.deviceId].identity;
        if MatchesExpected(identity, expected.value)
        then Emit(Deny(s, t), PublishedKey(pending.deviceId, identity))
        else Deny(s, t)
      else Put(s, t, PrepareReady(session, pending, LocalRecord(expected.value, privateKey, None, None)))
    case (PrepareCreate, PrepareReady(session, pending, record)) =>
      var (db, committed) := CreateTx(codec, s.db, pending, record, tab.session == session);
      Put(s.(db := db), t, PrepareTried(session, record, committed))
    case (PrepareFinish, PrepareTried(session, record, committed)) =>
      var deviceId := record.identity.deviceId;
      if tab.session != session || deviceId !in s.db.keys then Deny(s, t)
      else
        var stored := s.db.keys[deviceId].identity;
        if (if committed then stored == record.identity else MatchesExpected(stored, record.identity))
        then Emit(Deny(s, t), PublishedKey(deviceId, stored))
        else Deny(s, t)
    case _ => s
  }

  function LookupStep(codec: Codec, s: State, t: nat, step: Step): State
    requires t < |s.tabs|
  {
    var tab := s.tabs[t];
    match (step, tab.progress)
    case (BeginApprove(wire), Idle) => Put(s, t, ApproveStarted(tab.session, wire))
    case (ApproveReadPending, ApproveStarted(session, wire)) =>
      var pending := ProjectPending(codec, s.db.device, session.subject);
      if tab.session != session || pending.None? then Deny(s, t)
      else Put(s, t, ApprovePending(session, wire, pending.value))
    case (ApproveReadStored, ApprovePending(session, wire, pending)) =>
      if tab.session != session || pending.deviceId !in s.db.keys then Deny(s, t)
      else
        var record := s.db.keys[pending.deviceId];
        var claim := ClaimOf(codec, wire, record.identity);
        if !IsBound(codec, pending, record.identity) || claim.None? then Deny(s, t)
        else if record.signedAttempt.None? then Put(s, t, ClaimStarted(session, wire))
        else if record.signingClaim != claim || record.signedAttempt.value.authorizationWire != wire then Deny(s, t)
        else Emit(Deny(s, t), HandedOut(pending.deviceId, record.signedAttempt.value))
    case _ => s
  }

  function ClaimStep(codec: Codec, s: State, t: nat, step: Step): State
    requires t < |s.tabs|
  {
    var tab := s.tabs[t];
    match (step, tab.progress)
    case (ClaimReadPending, ClaimStarted(session, wire)) =>
      var pending := ProjectPending(codec, s.db.device, session.subject);
      if tab.session != session || pending.None? then Deny(s, t)
      else Put(s, t, ClaimPending(session, wire, pending.value))
    case (ClaimReadStored, ClaimPending(session, wire, pending)) =>
      if tab.session != session || pending.deviceId !in s.db.keys then Deny(s, t)
      else
        var record := s.db.keys[pending.deviceId];
        var claim := ClaimOf(codec, wire, record.identity);
        if !IsBound(codec, pending, record.identity) || claim.None? then Deny(s, t)
        else Put(s, t, ClaimReady(session, pending, record, claim.value))
    case (ClaimCommit, ClaimReady(session, pending, record, claim)) =>
      var (db, outcome) := ClaimTx(codec, s.db, pending, record, claim, tab.session == session);
      Put(s.(db := db), t, ClaimTried(session, record, claim, outcome))
    case (ClaimFinish, ClaimTried(session, record, claim, outcome)) =>
      if tab.session != session then Deny(s, t)
      else if outcome.AlreadySigned? then
        if outcome.attempt.authorizationWire != claim.authorizationWire then Deny(s, t)
        else Emit(Deny(s, t), HandedOut(record.identity.deviceId, outcome.attempt))
      else if outcome == Claimed(claim) then Put(s, t, MaySign(session, claim))
      else Deny(s, t)
    case _ => s
  }

  function SignStep(codec: Codec, s: State, t: nat, step: Step): State
    requires t < |s.tabs|
  {
    var tab := s.tabs[t];
    match (step, tab.progress)
    case (CallSigner, MaySign(session, claim)) =>
      if tab.session != session then Deny(s, t)
      else Emit(Put(s, t, Signing(session, claim)), SignEventCalled(claim))
    case (SignerReturns(event), Signing(session, claim)) =>
      Emit(Put(s, t, HasEvent(session, claim, event, tab.session == session)), SignerReturned(claim, event))
    case (PersistRead, HasEvent(session, claim, event, intact)) =>
      if !codec.isApproval(claim.authorizationWire, event) || claim.deviceId !in s.db.keys then Deny(s, t)
      else
        var record := s.db.keys[claim.deviceId];
        if record.signingClaim != Some(claim) || ClaimOf(codec, claim.authorizationWire, record.identity) != Some(claim)
        then Deny(s, t)
        else Put(s, t, PersistReady(session, record, claim, Attempt(claim.authorizationWire, event), intact))
    case (PersistCommit, PersistReady(session, record, claim, attempt, intact)) =>
      var (db, persisted) := PersistTx(s.db, record, claim, attempt);
      if persisted.None? then Deny(s.(db := db), t)
      else Put(s.(db := db), t, Persisted(session, claim, attempt, intact))
    case (PersistFinish, Persisted(session, claim, attempt, intact)) =>
      if !intact || tab.session != session then Deny(s, t) else Emit(Deny(s, t), HandedOut(claim.deviceId, attempt))
    case _ => s
  }

  /** One step of tab `t`; a step the tab is not ready for does nothing. */
  function Do(codec: Codec, s: State, t: nat, step: Step): State {
    if t >= |s.tabs| then s else
    match step
    case ChangeSession(session) => s.(tabs := s.tabs[t := s.tabs[t].(session := session)])
    case ChangeDevice(row) => s.(db := s.db.(device := row))
    case Stop => Deny(s, t)
    case BeginPrepare(_) => PrepareStep(codec, s, t, step)
    case PrepareReadPending => PrepareStep(codec, s, t, step)
    case PrepareReadStored(_, _, _) => PrepareStep(codec, s, t, step)
    case PrepareCreate => PrepareStep(codec, s, t, step)
    case PrepareFinish => PrepareStep(codec, s, t, step)
    case BeginApprove(_) => LookupStep(codec, s, t, step)
    case ApproveReadPending => LookupStep(codec, s, t, step)
    case ApproveReadStored => LookupStep(codec, s, t, step)
    case ClaimReadPending => ClaimStep(codec, s, t, step)
    case ClaimReadStored => ClaimStep(codec, s, t, step)
    case ClaimCommit => ClaimStep(codec, s, t, step)
    case ClaimFinish => ClaimStep(codec, s, t, step)
    case _ => SignStep(codec, s, t, step)
  }

  // --- runs ------------------------------------------------------------------

  ghost predicate Initial(s: State) {
    s.db.keys == map[] && s.log == [] && forall t :: 0 <= t < |s.tabs| ==> s.tabs[t].progress == Idle
  }

  /** The state after a schedule: which tab performs which step, in order. */
  function After(codec: Codec, start: State, schedule: seq<(nat, Step)>): State {
    if schedule == [] then start
    else
      var last := schedule[|schedule| - 1];
      Do(codec, After(codec, start, schedule[..|schedule| - 1]), last.0, last.1)
  }

  function SignCalls(log: seq<Event>, deviceId: string): nat {
    if log == [] then 0
    else
      var last := log[|log| - 1];
      SignCalls(log[..|log| - 1], deviceId)
      + (if last.SignEventCalled? && last.claim.deviceId == deviceId then 1 else 0)
  }

  lemma SignCallsOfEmit(log: seq<Event>, event: Event, deviceId: string)
    ensures SignCalls(log + [event], deviceId) ==
            SignCalls(log, deviceId) + (if event.SignEventCalled? && event.claim.deviceId == deviceId then 1 else 0)
  {
    assert (log + [event])[..|log|] == log;
  }

  // --- the invariant ---------------------------------------------------------

  ghost predicate ClaimIs(db: Database, claim: Claim) {
    claim.deviceId in db.keys && db.keys[claim.deviceId].signingClaim == Some(claim)
  }

  ghost predicate AttemptIs(db: Database, deviceId: string, attempt: Attempt) {
    deviceId in db.keys && db.keys[deviceId].signedAttempt == Some(attempt)
  }

  /** What a stored record shows was signed, and under which claim. */
  ghost predicate RecordOk(codec: Codec, s: State, deviceId: string)
    requires deviceId in s.db.keys
  {
    var record := s.db.keys[deviceId];
    && record.identity.deviceId == deviceId
    && (record.signingClaim.Some? ==>
          ClaimOf(codec, record.signingClaim.value.authorizationWire, record.identity) == record.signingClaim)
    && (record.signedAttempt.Some? ==>
          && record.signingClaim.Some?
          && record.signedAttempt.value.authorizationWire == record.signingClaim.value.authorizationWire
          && SignerReturned(record.signingClaim.value, record.signedAttempt.value.event) in s.log
          && codec.isApproval(record.signedAttempt.value.authorizationWire, record.signedAttempt.value.event))
  }

  ghost predicate EventOk(db: Database, log: seq<Event>, event: Event) {
    match event
    case PublishedKey(deviceId, identity) => deviceId in db.keys && db.keys[deviceId].identity == identity
    case SignEventCalled(claim) => ClaimIs(db, claim)
    case SignerReturned(claim, _) => ClaimIs(db, claim) && SignEventCalled(claim) in log
    case HandedOut(deviceId, attempt) => AttemptIs(db, deviceId, attempt)
  }

  ghost predicate ProgressOk(codec: Codec, db: Database, log: seq<Event>, progress: Progress) {
    match progress
    case PrepareReady(_, pending, record) =>
      IsBound(codec, pending, record.identity) && record.signingClaim.None? && record.signedAttempt.None?
    case PrepareTried(_, record, committed) => true
    case ClaimReady(_, pending, record, claim) =>
      && IsBound(codec, pending, record.identity)
      && ClaimOf(codec, claim.authorizationWire, record.identity) == Some(claim)
    case ClaimTried(_, record, claim, outcome) =>
      && (outcome.Claimed? ==> ClaimIs(db, outcome.claim))
      && (outcome.AlreadySigned? ==> AttemptIs(db, record.identity.deviceId, outcome.attempt))
    case MaySign(_, claim) => ClaimIs(db, claim)
    case Signing(_, claim) => ClaimIs(db, claim) && SignEventCalled(claim) in log
    case HasEvent(_, claim, event, _) => ClaimIs(db, claim) && SignerReturned(claim, event) in log
    case PersistReady(_, record, claim, attempt, _) =>
      && ClaimIs(db, claim) && record.identity.deviceId == claim.deviceId
      && attempt.authorizationWire == claim.authorizationWire && SignerReturned(claim, attempt.event) in log
      && codec.isApproval(attempt.authorizationWire, attempt.event)
    case Persisted(_, claim, attempt, _) => AttemptIs(db, claim.deviceId, attempt)
    case _ => true
  }

  /** The device whose one permission to sign a tab holds. */
  ghost function Holds(progress: Progress): Option<string> {
    match progress
    case ClaimTried(_, _, claim, Claimed(c)) => Some(c.deviceId)
    case MaySign(_, claim) => Some(claim.deviceId)
    case _ => None
  }

  ghost predicate HeldBy(s: State, t: nat, deviceId: string)
    requires t < |s.tabs|
  {
    Holds(s.tabs[t].progress) == Some(deviceId)
  }

  ghost predicate IsClaimed(db: Database, deviceId: string) {
    deviceId in db.keys && db.keys[deviceId].signingClaim.Some?
  }

  /** The permission to sign for a device: none before its claim, then held by one tab or
      spent by one call or lost. */
  ghost predicate PermissionOk(s: State, deviceId: string) {
    && SignCalls(s.log, deviceId) <= 1
    && (!IsClaimed(s.db, deviceId) ==> SignCalls(s.log, deviceId) == 0)
    && (forall t :: 0 <= t < |s.tabs| && HeldBy(s, t, deviceId) ==>
          SignCalls(s.log, deviceId) == 0 && IsClaimed(s.db, deviceId))
    && (forall t, u :: 0 <= t < u < |s.tabs| ==> !(HeldBy(s, t, deviceId) && HeldBy(s, u, deviceId)))
  }

  ghost predicate Records(codec: Codec, s: State) {
    forall d :: d in s.db.keys ==> RecordOk(codec, s, d)
  }

  ghost predicate Events(s: State) {
    forall e :: e in s.log ==> EventOk(s.db, s.log, e)
  }

  ghost predicate AllProgress(codec: Codec, s: State) {
    forall t :: 0 <= t < |s.tabs| ==> ProgressOk(codec, s.db, s.log, s.tabs[t].progress)
  }

  ghost predicate Permissions(s: State) {
    forall d :: PermissionOk(s, d)
  }

  ghost predicate Inv(codec: Codec, s: State) {
    Records(codec, s) && Events(s) && AllProgress(codec, s) && Permissions(s)
  }

  // --- preservation ----------------------------------------------------------

  /** What holds of a tab keeps holding while the database and the log only grow. */
  lemma ProgressIsStable(codec: Codec, db: Database, log: seq<Event>, later: Database, more: seq<Event>,
                         progress: Progress)
    requires Extends(db, later) && log <= more && ProgressOk(codec, db, log, progress)
    ensures ProgressOk(codec, later, more, progress)
  {
    assert forall e :: e in log ==> e in more;
  }

  lemma EventIsStable(db: Database, log: seq<Event>, later: Database, more: seq<Event>, event: Event)
    requires Extends(db, later) && log <= more && EventOk(db, log, event)
    ensures EventOk(later, more, event)
  {
    assert forall e :: e in log ==> e in more;
  }

  ghost predicate OnlyTab(s: State, next: State, t: nat)
    requires t < |s.tabs|
  {
    |next.tabs| == |s.tabs| && forall u :: 0 <= u < |s.tabs| && u != t ==> next.tabs[u] == s.tabs[u]
  }

  /** A step that extends the database, moves one tab and emits at most one event keeps
      everything but the permissions, if what it adds is in order. */
  lemma StepKeeps(codec: Codec, s: State, next: State, t: nat, emitted: seq<Event>)
    requires Records(codec, s) && Events(s) && AllProgress(codec, s)
    requires t < |s.tabs| && OnlyTab(s, next, t) && Extends(s.db, next.db)
    requires next.log == s.log + emitted && forall e :: e in emitted ==> EventOk(next.db, next.log, e)
    requires ProgressOk(codec, next.db, next.log, next.tabs[t].progress)
    requires forall d :: d in next.db.keys && (d !in s.db.keys || next.db.keys[d] != s.db.keys[d]) ==>
               RecordOk(codec, next, d)
    ensures Records(codec, next) && Events(next) && AllProgress(codec, next)
  {
    forall d | d in next.db.keys ensures RecordOk(codec, next, d) {
      if d in s.db.keys && next.db.keys[d] == s.db.keys[d] {
        assert RecordOk(codec, s, d);
      }
    }
    forall e | e in next.log ensures EventOk(next.db, next.log, e) {
      if e in s.log {
        EventIsStable(s.db, s.log, next.db, next.log, e);
      }
    }
    forall u | 0 <= u < |next.tabs| ensures ProgressOk(codec, next.db, next.log, next.tabs[u].progress) {
      if u != t {
        ProgressIsStable(codec, s.db, s.log, next.db, next.log, s.tabs[u].progress);
      }
    }
  }

  /** A step that calls no signer and takes no new permission keeps the permissions. */
  lemma PermissionsStay(s: State, next: State, t: nat)
    requires Permissions(s) && t < |s.tabs| && OnlyTab(s, next, t) && Extends(s.db, next.db)
    requires forall d :: SignCalls(next.log, d) == SignCalls(s.log, d)
    requires Holds(next.tabs[t].progress) in {None, Holds(s.tabs[t].progress)}
    ensures Permissions(next)
  {
    forall d ensures PermissionOk(next, d) {
      assert PermissionOk(s, d);
      assert forall u :: 0 <= u < |s.tabs| && HeldBy(next, u, d) ==> HeldBy(s, u, d);
      assert IsClaimed(s.db, d) ==> IsClaimed(next.db, d);
    }
  }

  lemma QuietEvents(log: seq<Event>, emitted: seq<Event>)
    requires |emitted| <= 1 && forall e :: e in emitted ==> !e.SignEventCalled?
    ensures forall d :: SignCalls(log + emitted, d) == SignCalls(log, d)
  {
    forall d ensures SignCalls(log + emitted, d) == SignCalls(log, d) {
      if emitted == [] {
        assert log + emitted == log;
      } else {
        assert log + emitted == log + [emitted[0]];
        SignCallsOfEmit(log, emitted[0], d);
      }
    }
  }

  /** The two together, for a step that leaves the database as it is. */
  lemma QuietStep(codec: Codec, s: State, next: State, t: nat, emitted: seq<Event>)
    requires Inv(codec, s) && t < |s.tabs| && OnlyTab(s, next, t) && next.db.keys == s.db.keys
    requires next.log == s.log + emitted && |emitted| <= 1
    requires forall e :: e in emitted ==> EventOk(next.db, next.log, e) && !e.SignEventCalled?
    requires ProgressOk(codec, next.db, next.log, next.tabs[t].progress)
    requires Holds(next.tabs[t].progress) in {None, Holds(s.tabs[t].progress)}
    ensures Inv(codec, next)
  {
    StepKeeps(codec, s, next, t, emitted);
    QuietEvents(s.log, emitted);
    PermissionsStay(s, next, t);
  }

  lemma DenialKeeps(codec: Codec, s: State, t: nat)
    requires Inv(codec, s) && t < |s.tabs|
    ensures Inv(codec, Deny(s, t))
  {
    assert s.log + [] == s.log;
    QuietStep(codec, s, Deny(s, t), t, []);
  }

  lemma ExpectedIsBound(codec: Codec, pending: Pending, content: string, key: string, revision: string)
    requires ExpectedIdentity(codec, pending, content, key, revision).Some?
    ensures IsBound(codec, pending, ExpectedIdentity(codec, pending, content, key, revision).value)
  {
  }

  lemma PrepareCreateKeeps(codec: Codec, s: State, t: nat)
    requires Inv(codec, s) && t < |s.tabs| && s.tabs[t].progress.PrepareReady?
    ensures Inv(codec, PrepareStep(codec, s, t, PrepareCreate))
  {
    var next := PrepareStep(codec, s, t, PrepareCreate);
    assert s.log + [] == s.log;
    assert ProgressOk(codec, s.db, s.log, s.tabs[t].progress);
    StepKeeps(codec, s, next, t, []);
    PermissionsStay(s, next, t);
  }

  lemma PrepareStepKeeps(codec: Codec, s: State, t: nat, step: Step)
    requires Inv(codec, s) && t < |s.tabs|
    ensures Inv(codec, PrepareStep(codec, s, t, step))
  {
    if step == PrepareCreate && s.tabs[t].progress.PrepareReady? {
      PrepareCreateKeeps(codec, s, t);
    } else {
      var next := PrepareStep(codec, s, t, step);
      if next == Deny(s, t) {
        DenialKeeps(codec, s, t);
      } else if next != s {
        QuietStep(codec, s, next, t, next.log[|s.log|..]);
      }
    }
  }

  lemma LookupStepKeeps(codec: Codec, s: State, t: nat, step: Step)
    requires Inv(codec, s) && t < |s.tabs|
    ensures Inv(codec, LookupStep(codec, s, t, step))
  {
    var next := LookupStep(codec, s, t, step);
    if next == Deny(s, t) {
      DenialKeeps(codec, s, t);
    } else if next != s {
      QuietStep(codec, s, next, t, next.log[|s.log|..]);
    }
  }

  /** A granted claim hands the one permission of an unclaimed device to its tab. */
  lemma GrantKeepsPermissions(s: State, next: State, t: nat, deviceId: string)
    requires Permissions(s) && t < |s.tabs| && OnlyTab(s, next, t) && next.log == s.log
    requires !IsClaimed(s.db, deviceId) && Holds(next.tabs[t].progress) == Some(deviceId)
    requires forall d :: IsClaimed(next.db, d) <==> IsClaimed(s.db, d) || d == deviceId
    ensures Permissions(next)
  {
    forall d ensures PermissionOk(next, d) {
      assert PermissionOk(s, d);
      assert forall u :: 0 <= u < |s.tabs| && u != t ==> (HeldBy(next, u, d) <==> HeldBy(s, u, d));
      assert HeldBy(next, t, d) <==> d == deviceId;
    }
  }

  /** Writing a first claim into an unclaimed record and granting it to a tab. */
  lemma GrantKeeps(codec: Codec, s: State, next: State, t: nat, session: Session, record: LocalRecord, claim: Claim)
    requires Inv(codec, s) && t < |s.tabs| && claim.deviceId in s.db.keys
    requires var stored := s.db.keys[claim.deviceId];
             && stored.signingClaim.None? && stored.signedAttempt.None?
             && ClaimOf(codec, claim.authorizationWire, stored.identity) == Some(claim)
             && next == Put(s.(db := s.db.(keys := s.db.keys[claim.deviceId := stored.(signingClaim := Some(claim))])),
                            t, ClaimTried(session, record, claim, Claimed(claim)))
    ensures Inv(codec, next)
  {
    assert s.log + [] == s.log;
    assert RecordOk(codec, s, claim.deviceId);
    StepKeeps(codec, s, next, t, []);
    GrantKeepsPermissions(s, next, t, claim.deviceId);
  }

  lemma ClaimCommitKeeps(codec: Codec, s: State, t: nat)
    requires Inv(codec, s) && t < |s.tabs| && s.tabs[t].progress.ClaimReady?
    ensures Inv(codec, ClaimStep(codec, s, t, ClaimCommit))
  {
    var next := ClaimStep(codec, s, t, ClaimCommit);
    var ClaimReady(session, pending, record, claim) := s.tabs[t].progress;
    assert ProgressOk(codec, s.db, s.log, s.tabs[t].progress);
    if next.tabs[t].progress.outcome.Claimed? {
      GrantKeeps(codec, s, next, t, session, record, claim);
    } else {
      assert s.log + [] == s.log;
      QuietStep(codec, s, next, t, []);
    }
  }

  lemma ClaimStepKeeps(codec: Codec, s: State, t: nat, step: Step)
    requires Inv(codec, s) && t < |s.tabs|
    ensures Inv(codec, ClaimStep(codec, s, t, step))
  {
    if step == ClaimCommit && s.tabs[t].progress.ClaimReady? {
      ClaimCommitKeeps(codec, s, t);
    } else {
      var next := ClaimStep(codec, s, t, step);
      if next == Deny(s, t) {
        DenialKeeps(codec, s, t);
      } else if next != s {
        assert ProgressOk(codec, s.db, s.log, s.tabs[t].progress);
        QuietStep(codec, s, next, t, next.log[|s.log|..]);
      }
    }
  }

  /** Calling the signer spends the permission of the calling tab. */
  lemma CallSpendsPermission(s: State, next: State, t: nat, claim: Claim)
    requires Permissions(s) && t < |s.tabs| && OnlyTab(s, next, t) && next.db == s.db
    requires Holds(s.tabs[t].progress) == Some(claim.deviceId) && Holds(next.tabs[t].progress) == None
    requires next.log == s.log + [SignEventCalled(claim)]
    ensures Permissions(next)
  {
    forall d ensures PermissionOk(next, d) {
      assert PermissionOk(s, d);
      SignCallsOfEmit(s.log, SignEventCalled(claim), d);
      assert forall u :: 0 <= u < |s.tabs| && HeldBy(next, u, d) ==> u != t && HeldBy(s, u, d);
      assert HeldBy(s, t, d) <==> d == claim.deviceId;
    }
  }

  lemma CallSignerKeeps(codec: Codec, s: State, t: nat)
    requires Inv(codec, s) && t < |s.tabs| && s.tabs[t].progress.MaySign?
    requires s.tabs[t].session == s.tabs[t].progress.session
    ensures Inv(codec, SignStep(codec, s, t, CallSigner))
  {
    var next := SignStep(codec, s, t, CallSigner);
    var claim := s.tabs[t].progress.claim;
    assert ProgressOk(codec, s.db, s.log, s.tabs[t].progress);
    StepKeeps(codec, s, next, t, [SignEventCalled(claim)]);
    CallSpendsPermission(s, next, t, claim);
  }

  lemma PersistCommitMoves(codec: Codec, s: State, t: nat)
    requires t < |s.tabs| && s.tabs[t].progress.PersistReady?
    ensures var next := SignStep(codec, s, t, PersistCommit);
            && next.log == s.log && OnlyTab(s, next, t) && Extends(s.db, next.db)
            && Holds(next.tabs[t].progress) == None
  {
  }

  lemma PersistCommitProgress(codec: Codec, s: State, t: nat)
    requires Inv(codec, s) && t < |s.tabs| && s.tabs[t].progress.PersistReady?
    ensures var next := SignStep(codec, s, t, PersistCommit);
            ProgressOk(codec, next.db, next.log, next.tabs[t].progress)
  {
    assert ProgressOk(codec, s.db, s.log, s.tabs[t].progress);
  }

  lemma PersistWritesOneAttempt(db: Database, record: LocalRecord, claim: Claim, attempt: Attempt, d: string)
    requires d in db.keys
    ensures var after := PersistTx(db, record, claim, attempt).0;
            && d in after.keys
            && (after.keys[d] == db.keys[d]
                || (db.keys[d].signingClaim == Some(claim)
                    && after.keys[d] == db.keys[d].(signedAttempt := Some(attempt))))
  {
  }

  lemma PersistCommitWrites(codec: Codec, s: State, t: nat)
    requires t < |s.tabs| && s.tabs[t].progress.PersistReady?
    ensures var p := s.tabs[t].progress;
            SignStep(codec, s, t, PersistCommit).db == PersistTx(s.db, p.record, p.claim, p.attempt).0
  {
  }

  lemma PersistCommitRecords(codec: Codec, s: State, next: State, t: nat, d: string)
    requires Inv(codec, s) && t < |s.tabs| && s.tabs[t].progress.PersistReady?
    requires var p := s.tabs[t].progress; next.db == PersistTx(s.db, p.record, p.claim, p.attempt).0
    requires next.log == s.log && d in s.db.keys && d in next.db.keys
    ensures RecordOk(codec, next, d)
  {
    var p := s.tabs[t].progress;
    assert ProgressOk(codec, s.db, s.log, p);
    assert RecordOk(codec, s, d);
    PersistWritesOneAttempt(s.db, p.record, p.claim, p.attempt, d);
  }

  lemma PersistCommitKeeps(codec: Codec, s: State, t: nat)
    requires Inv(codec, s) && t < |s.tabs| && s.tabs[t].progress.PersistReady?
    ensures Inv(codec, SignStep(codec, s, t, PersistCommit))
  {
    var next := SignStep(codec, s, t, PersistCommit);
    PersistCommitMoves(codec, s, t);
    PersistCommitProgress(codec, s, t);
    PersistCommitWrites(codec, s, t);
    forall d | d in next.db.keys ensures RecordOk(codec, next, d) {
      PersistCommitRecords(codec, s, next, t, d);
    }
    assert s.log + [] == s.log;
    StepKeeps(codec, s, next, t, []);
    PermissionsStay(s, next, t);
  }

  lemma PersistReadKeeps(codec: Codec, s: State, t: nat)
    requires Inv(codec, s) && t < |s.tabs| && s.tabs[t].progress.HasEvent?
    ensures Inv(codec, SignStep(codec, s, t, PersistRead))
  {
    var next := SignStep(codec, s, t, PersistRead);
    assert s.log + [] == s.log;
    assert ProgressOk(codec, s.db, s.log, s.tabs[t].progress);
    assert RecordOk(codec, s, s.tabs[t].progress.claim.deviceId);
    QuietStep(codec, s, next, t, []);
  }

  lemma SignerReturnKeeps(codec: Codec, s: State, t: nat, event: string)
    requires Inv(codec, s) && t < |s.tabs| && s.tabs[t].progress.Signing?
    ensures Inv(codec, SignStep(codec, s, t, SignerReturns(event)))
  {
    var next := SignStep(codec, s, t, SignerReturns(event));
    assert ProgressOk(codec, s.db, s.log, s.tabs[t].progress);
    QuietStep(codec, s, next, t, [SignerReturned(s.tabs[t].progress.claim, event)]);
  }

  /** Handing out a stored artifact ends a call. */
  lemma HandingOutKeeps(codec: Codec, s: State, t: nat, deviceId: string, attempt: Attempt)
    requires Inv(codec, s) && t < |s.tabs| && AttemptIs(s.db, deviceId, attempt)
    ensures Inv(codec, Emit(Deny(s, t), HandedOut(deviceId, attempt)))
  {
    QuietStep(codec, s, Emit(Deny(s, t), HandedOut(deviceId, attempt)), t, [HandedOut(deviceId, attempt)]);
  }

  lemma PersistFinishKeeps(codec: Codec, s: State, t: nat)
    requires Inv(codec, s) && t < |s.tabs| && s.tabs[t].progress.Persisted?
    ensures Inv(codec, SignStep(codec, s, t, PersistFinish))
  {
    var Persisted(session, claim, attempt, intact) := s.tabs[t].progress;
    assert ProgressOk(codec, s.db, s.log, s.tabs[t].progress);
    DenialKeeps(codec, s, t);
    HandingOutKeeps(codec, s, t, claim.deviceId, attempt);
  }

  lemma SignStepKeeps(codec: Codec, s: State, t: nat, step: Step)
    requires Inv(codec, s) && t < |s.tabs|
    ensures Inv(codec, SignStep(codec, s, t, step))
  {
    match (step, s.tabs[t].progress)
    case (CallSigner, MaySign(session, _)) =>
      if s.tabs[t].session == session {
        CallSignerKeeps(codec, s, t);
      } else {
        DenialKeeps(codec, s, t);
      }
    case (SignerReturns(event), Signing(_, _)) => SignerReturnKeeps(codec, s, t, event);
    case (PersistRead, HasEvent(_, _, _, _)) => PersistReadKeeps(codec, s, t);
    case (PersistCommit, PersistReady(_, _, _, _, _)) => PersistCommitKeeps(codec, s, t);
    case (PersistFinish, Persisted(_, _, _, _)) => PersistFinishKeeps(codec, s, t);
    case _ =>
  }

  /** Steps outside the calls: a session or the X25519 row changes, or a tab stops. */
  lemma OutsideStepKeeps(codec: Codec, s: State, t: nat, step: Step)
    requires Inv(codec, s) && t < |s.tabs| && (step.ChangeSession? || step.ChangeDevice? || step.Stop?)
    ensures Inv(codec, Do(codec, s, t, step))
  {
    assert s.log + [] == s.log;
    assert ProgressOk(codec, s.db, s.log, s.tabs[t].progress);
    QuietStep(codec, s, Do(codec, s, t, step), t, []);
  }

  lemma StepKeepsInv(codec: Codec, s: State, t: nat, step: Step)
    requires Inv(codec, s)
    ensures Inv(codec, Do(codec, s, t, step))
  {
    if t < |s.tabs| {
      if step.ChangeSession? || step.ChangeDevice? || step.Stop? {
        OutsideStepKeeps(codec, s, t, step);
      } else {
        PrepareStepKeeps(codec, s, t, step);
        LookupStepKeeps(codec, s, t, step);
        ClaimStepKeeps(codec, s, t, step);
        SignStepKeeps(codec, s, t, step);
      }
    }
  }

  lemma {:induction false} InvOnEveryRun(codec: Codec, start: State, schedule: seq<(nat, Step)>)
    requires Initial(start)
    ensures Inv(codec, After(codec, start, schedule))
    decreases |schedule|
  {
    if schedule != [] {
      var init, last := schedule[..|schedule| - 1], schedule[|schedule| - 1];
      InvOnEveryRun(codec, start, init);
      StepKeepsInv(codec, After(codec, start, init), last.0, last.1);
    }
  }

  // --- main results ----------------------------------------------------------

  /** In every run each provisional record sees at most one call of the signer. */
  lemma SignerIsCalledAtMostOnce(codec: Codec, start: State, schedule: seq<(nat, Step)>, deviceId: string)
    requires Initial(start)
    ensures SignCalls(After(codec, start, schedule).log, deviceId) <= 1
  {
    InvOnEveryRun(codec, start, schedule);
    assert PermissionOk(After(codec, start, schedule), deviceId);
  }

  lemma {:induction false} LoggedCallCounts(log: seq<Event>, claim: Claim)
    requires SignEventCalled(claim) in log
    ensures SignCalls(log, claim.deviceId) >= 1
    decreases |log|
  {
    var init, last := log[..|log| - 1], log[|log| - 1];
    if last != SignEventCalled(claim) {
      var k :| 0 <= k < |log| && log[k] == SignEventCalled(claim);
      assert init[k] == SignEventCalled(claim);
      LoggedCallCounts(init, claim);
    }
  }

  lemma PrepareExtends(codec: Codec, s: State, t: nat, step: Step)
    requires t < |s.tabs|
    ensures Extends(s.db, PrepareStep(codec, s, t, step).db) && s.log <= PrepareStep(codec, s, t, step).log
  {
  }

  lemma LookupExtends(codec: Codec, s: State, t: nat, step: Step)
    requires t < |s.tabs|
    ensures LookupStep(codec, s, t, step).db == s.db && s.log <= LookupStep(codec, s, t, step).log
  {
  }

  lemma ClaimExtends(codec: Codec, s: State, t: nat, step: Step)
    requires t < |s.tabs|
    ensures Extends(s.db, ClaimStep(codec, s, t, step).db) && s.log <= ClaimStep(codec, s, t, step).log
  {
  }

  lemma SignExtends(codec: Codec, s: State, t: nat, step: Step)
    requires t < |s.tabs|
    ensures Extends(s.db, SignStep(codec, s, t, step).db) && s.log <= SignStep(codec, s, t, step).log
  {
  }

  lemma StepExtends(codec: Codec, s: State, t: nat, step: Step)
    ensures Extends(s.db, Do(codec, s, t, step).db) && s.log <= Do(codec, s, t, step).log
  {
    if t < |s.tabs| && !step.ChangeSession? && !step.ChangeDevice? && !step.Stop? {
      PrepareExtends(codec, s, t, step);
      LookupExtends(codec, s, t, step);
      ClaimExtends(codec, s, t, step);
      SignExtends(codec, s, t, step);
    }
  }

  /** Identities and private keys never change, nothing is removed, and claims and
      attempts are written at most once, however long the run goes on. */
  lemma {:induction false} RunExtends(codec: Codec, start: State, schedule: seq<(nat, Step)>, more: seq<(nat, Step)>)
    ensures var s, later := After(codec, start, schedule), After(codec, start, schedule + more);
            Extends(s.db, later.db) && s.log <= later.log
    decreases |more|
  {
    if more == [] {
      assert schedule + more == schedule;
    } else {
      var init, last := more[..|more| - 1], more[|more| - 1];
      RunExtends(codec, start, schedule, init);
      AfterOneMore(codec, start, schedule, more);
      OneMoreExtends(codec, After(codec, start, schedule), After(codec, start, schedule + init), last);
    }
  }

  lemma AfterOneMore(codec: Codec, start: State, schedule: seq<(nat, Step)>, more: seq<(nat, Step)>)
    requires more != []
    ensures var last := more[|more| - 1];
            After(codec, start, schedule + more) ==
            Do(codec, After(codec, start, schedule + more[..|more| - 1]), last.0, last.1)
  {
    assert (schedule + more)[..|schedule + more| - 1] == schedule + more[..|more| - 1];
  }

  lemma OneMoreExtends(codec: Codec, first: State, mid: State, last: (nat, Step))
    requires Extends(first.db, mid.db) && first.log <= mid.log
    ensures Extends(first.db, Do(codec, mid, last.0, last.1).db) && first.log <= Do(codec, mid, last.0, last.1).log
  {
    StepExtends(codec, mid, last.0, last.1);
    ExtendsIsTransitive(first.db, mid.db, Do(codec, mid, last.0, last.1).db);
  }

  /** Whatever artifact was handed out for a record is in the store then and ever after;
      so any two artifacts handed out for it are the same. It carries what the one call
      of the signer returned, under the claim that is still in the record. */
  lemma ArtifactsAreDurableAndUnique(codec: Codec, start: State, schedule: seq<(nat, Step)>, more: seq<(nat, Step)>,
                                     deviceId: string, attempt: Attempt)
    requires Initial(start) && HandedOut(deviceId, attempt) in After(codec, start, schedule).log
    ensures var later := After(codec, start, schedule + more);
            && AttemptIs(later.db, deviceId, attempt)
            && (forall other :: HandedOut(deviceId, other) in later.log ==> other == attempt)
            && SignCalls(later.log, deviceId) == 1
            && later.db.keys[deviceId].signingClaim.Some?
            && var claim := later.db.keys[deviceId].signingClaim.value;
               && SignerReturned(claim, attempt.event) in later.log
               && claim.authorizationWire == attempt.authorizationWire
               && codec.isApproval(attempt.authorizationWire, attempt.event)
  {
    var s, later := After(codec, start, schedule), After(codec, start, schedule + more);
    InvOnEveryRun(codec, start, schedule);
    InvOnEveryRun(codec, start, schedule + more);
    RunExtends(codec, start, schedule, more);
    assert EventOk(s.db, s.log, HandedOut(deviceId, attempt));
    assert RecordOk(codec, later, deviceId);
    var claim := later.db.keys[deviceId].signingClaim.value;
    assert EventOk(later.db, later.log, SignerReturned(claim, attempt.event));
    LoggedCallCounts(later.log, claim);
    SignerIsCalledAtMostOnce(codec, start, schedule + more, deviceId);
    forall other | HandedOut(deviceId, other) in later.log ensures other == attempt {
      assert EventOk(later.db, later.log, HandedOut(deviceId, other));
    }
  }

  /** Concurrent preparations converge: all keys published for a device are the one that
      is stored. */
  lemma PublishedKeysConverge(codec: Codec, start: State, schedule: seq<(nat, Step)>, deviceId: string,
                              a: Identity, b: Identity)
    requires Initial(start)
    requires PublishedKey(deviceId, a) in After(codec, start, schedule).log
    requires PublishedKey(deviceId, b) in After(codec, start, schedule).log
    ensures a == b
  {
    var s := After(codec, start, schedule);
    InvOnEveryRun(codec, start, schedule);
    assert EventOk(s.db, s.log, PublishedKey(deviceId, a)) && EventOk(s.db, s.log, PublishedKey(deviceId, b));
  }

  ghost predicate RowMatches(codec: Codec, row: Option<DeviceRow>, identity: Identity) {
    && row.Some? && row.value.state == PendingRegister && row.value.clean
    && row.value.subject == identity.subject && row.value.deviceId == identity.deviceId
    && row.value.publicKey == identity.x25519PublicKey && row.value.requestId == identity.requestId
    && row.value.pendingProposal == identity.pendingProposal
    && row.value.pendingProposal == codec.proposal(row.value.deviceId, row.value.publicKey, row.value.requestId)
  }

  lemma PreparingSawThePendingRow(codec: Codec, s: State, t: nat, step: Step, deviceId: string)
    requires Inv(codec, s) && t < |s.tabs| && deviceId !in s.db.keys
    requires deviceId in PrepareStep(codec, s, t, step).db.keys
    ensures RowMatches(codec, s.db.device, PrepareStep(codec, s, t, step).db.keys[deviceId].identity)
    ensures s.tabs[t].progress.PrepareReady? && s.tabs[t].session == s.tabs[t].progress.session
  {
    assert ProgressOk(codec, s.db, s.log, s.tabs[t].progress);
  }

  lemma ClaimingSawThePendingRow(codec: Codec, s: State, t: nat, step: Step, deviceId: string)
    requires Inv(codec, s) && t < |s.tabs| && !IsClaimed(s.db, deviceId)
    requires IsClaimed(ClaimStep(codec, s, t, step).db, deviceId)
    ensures RowMatches(codec, s.db.device, ClaimStep(codec, s, t, step).db.keys[deviceId].identity)
    ensures s.tabs[t].progress.ClaimReady? && s.tabs[t].session == s.tabs[t].progress.session
  {
    assert ProgressOk(codec, s.db, s.log, s.tabs[t].progress);
  }

  /** Only creations add records and only claims add claims. */
  lemma SigningAddsNothing(codec: Codec, s: State, t: nat, step: Step, deviceId: string)
    requires t < |s.tabs|
    ensures IsClaimed(SignStep(codec, s, t, step).db, deviceId) ==> IsClaimed(s.db, deviceId)
    ensures deviceId in SignStep(codec, s, t, step).db.keys ==> deviceId in s.db.keys
  {
  }

  lemma ClaimingAddsNoRecord(codec: Codec, s: State, t: nat, step: Step, deviceId: string)
    requires t < |s.tabs|
    ensures deviceId in ClaimStep(codec, s, t, step).db.keys ==> deviceId in s.db.keys
  {
  }

  lemma PreparingChangesNoRecord(codec: Codec, s: State, t: nat, step: Step, deviceId: string)
    requires t < |s.tabs| && deviceId in s.db.keys
    ensures deviceId in PrepareStep(codec, s, t, step).db.keys
    ensures PrepareStep(codec, s, t, step).db.keys[deviceId] == s.db.keys[deviceId]
  {
  }

  /** In every run, the step that creates a record or writes its claim found the X25519
      row pending with exactly the identity of that record, and the session unchanged
      since the call began. */
  lemma CreationAndClaimSawThePendingRow(codec: Codec, start: State, schedule: seq<(nat, Step)>, t: nat, step: Step,
                                         deviceId: string)
    requires Initial(start)
    requires var s := After(codec, start, schedule);
             var next := Do(codec, s, t, step);
             && deviceId in next.db.keys
             && (deviceId in s.db.keys ==> IsClaimed(next.db, deviceId) && !IsClaimed(s.db, deviceId))
    ensures var s := After(codec, start, schedule);
            && RowMatches(codec, s.db.device, Do(codec, s, t, step).db.keys[deviceId].identity)
            && t < |s.tabs| && (s.tabs[t].progress.PrepareReady? || s.tabs[t].progress.ClaimReady?)
            && s.tabs[t].session == s.tabs[t].progress.session
  {
    var s := After(codec, start, schedule);
    InvOnEveryRun(codec, start, schedule);
    var next := Do(codec, s, t, step);
    if t < |s.tabs| {
      SigningAddsNothing(codec, s, t, step, deviceId);
      ClaimingAddsNoRecord(codec, s, t, step, deviceId);
      LookupExtends(codec, s, t, step);
    }
    if deviceId in s.db.keys && t < |s.tabs| {
      PreparingChangesNoRecord(codec, s, t, step, deviceId);
    }
    if next == PrepareStep(codec, s, t, step) && deviceId !in s.db.keys {
      PreparingSawThePendingRow(codec, s, t, step, deviceId);
    } else {
      ClaimingSawThePendingRow(codec, s, t, step, deviceId);
    }
  }

  // --- an abandoned claim ----------------------------------------------------

  /** The device a tab is signing or persisting for. */
  ghost function InFlight(progress: Progress): Option<string> {
    match progress
    case ClaimTried(_, _, _, Claimed(c)) => Some(c.deviceId)
    case MaySign(_, claim) => Some(claim.deviceId)
    case Signing(_, claim) => Some(claim.deviceId)
    case HasEvent(_, claim, _, _) => Some(claim.deviceId)
    case PersistReady(_, _, claim, _, _) => Some(claim.deviceId)
    case Persisted(_, claim, _, _) => Some(claim.deviceId)
    case _ => None
  }

  /** Claimed, not signed, and the claiming tab is gone. */
  ghost predicate Abandoned(s: State, deviceId: string) {
    && IsClaimed(s.db, deviceId) && s.db.keys[deviceId].signedAttempt.None?
    && forall t :: 0 <= t < |s.tabs| ==> InFlight(s.tabs[t].progress) != Some(deviceId)
  }

  lemma {:induction false} AbandonmentKept(s: State, next: State, t: nat, deviceId: string, emitted: seq<Event>)
    requires Abandoned(s, deviceId) && t < |s.tabs| && OnlyTab(s, next, t)
    requires deviceId in next.db.keys && next.db.keys[deviceId] == s.db.keys[deviceId]
    requires InFlight(next.tabs[t].progress) != Some(deviceId)
    requires next.log == s.log + emitted && |emitted| <= 1
    requires forall e :: e in emitted ==> !(e.SignEventCalled? && e.claim.deviceId == deviceId)
    ensures Abandoned(next, deviceId) && SignCalls(next.log, deviceId) == SignCalls(s.log, deviceId)
  {
    if emitted == [] {
      assert next.log == s.log;
    } else {
      assert emitted == [emitted[0]];
      SignCallsOfEmit(s.log, emitted[0], deviceId);
    }
  }

  lemma AbandonmentOfPreparing(codec: Codec, s: State, t: nat, step: Step, deviceId: string)
    requires Abandoned(s, deviceId) && t < |s.tabs|
    ensures var next := PrepareStep(codec, s, t, step);
            Abandoned(next, deviceId) && SignCalls(next.log, deviceId) == SignCalls(s.log, deviceId)
  {
    var next := PrepareStep(codec, s, t, step);
    AbandonmentKept(s, next, t, deviceId, next.log[|s.log|..]);
  }

  lemma AbandonmentOfLookup(codec: Codec, s: State, t: nat, step: Step, deviceId: string)
    requires Abandoned(s, deviceId) && t < |s.tabs|
    ensures var next := LookupStep(codec, s, t, step);
            Abandoned(next, deviceId) && SignCalls(next.log, deviceId) == SignCalls(s.log, deviceId)
  {
    var next := LookupStep(codec, s, t, step);
    AbandonmentKept(s, next, t, deviceId, next.log[|s.log|..]);
  }

  /** The one claim step that writes finds the claim and grants no other. */
  lemma AbandonmentOfClaimCommit(codec: Codec, s: State, t: nat, deviceId: string)
    requires Inv(codec, s) && Abandoned(s, deviceId) && t < |s.tabs| && s.tabs[t].progress.ClaimReady?
    ensures var next := ClaimStep(codec, s, t, ClaimCommit);
            Abandoned(next, deviceId) && SignCalls(next.log, deviceId) == SignCalls(s.log, deviceId)
  {
    var next := ClaimStep(codec, s, t, ClaimCommit);
    assert ProgressOk(codec, s.db, s.log, s.tabs[t].progress);
    assert s.log + [] == s.log;
    AbandonmentKept(s, next, t, deviceId, []);
  }

  lemma AbandonmentOfClaiming(codec: Codec, s: State, t: nat, step: Step, deviceId: string)
    requires Inv(codec, s) && Abandoned(s, deviceId) && t < |s.tabs|
    ensures var next := ClaimStep(codec, s, t, step);
            Abandoned(next, deviceId) && SignCalls(next.log, deviceId) == SignCalls(s.log, deviceId)
  {
    if step == ClaimCommit && s.tabs[t].progress.ClaimReady? {
      AbandonmentOfClaimCommit(codec, s, t, deviceId);
    } else {
      var next := ClaimStep(codec, s, t, step);
      assert InFlight(s.tabs[t].progress) != Some(deviceId);
      AbandonmentKept(s, next, t, deviceId, next.log[|s.log|..]);
    }
  }

  /** A tab that persists does so for another record. */
  lemma AbandonmentOfPersisting(codec: Codec, s: State, t: nat, deviceId: string)
    requires Inv(codec, s) && Abandoned(s, deviceId) && t < |s.tabs| && s.tabs[t].progress.PersistReady?
    ensures var next := SignStep(codec, s, t, PersistCommit);
            Abandoned(next, deviceId) && SignCalls(next.log, deviceId) == SignCalls(s.log, deviceId)
  {
    var next := SignStep(codec, s, t, PersistCommit);
    assert ProgressOk(codec, s.db, s.log, s.tabs[t].progress);
    assert InFlight(s.tabs[t].progress) != Some(deviceId);
    assert s.log + [] == s.log;
    AbandonmentKept(s, next, t, deviceId, []);
  }

  lemma AbandonmentOfSigning(codec: Codec, s: State, t: nat, step: Step, deviceId: string)
    requires Inv(codec, s) && Abandoned(s, deviceId) && t < |s.tabs|
    ensures var next := SignStep(codec, s, t, step);
            Abandoned(next, deviceId) && SignCalls(next.log, deviceId) == SignCalls(s.log, deviceId)
  {
    if step == PersistCommit && s.tabs[t].progress.PersistReady? {
      AbandonmentOfPersisting(codec, s, t, deviceId);
    } else {
      var next := SignStep(codec, s, t, step);
      assert InFlight(s.tabs[t].progress) != Some(deviceId);
      AbandonmentKept(s, next, t, deviceId, next.log[|s.log|..]);
    }
  }

  lemma AbandonmentStep(codec: Codec, s: State, t: nat, step: Step, deviceId: string)
    requires Inv(codec, s) && Abandoned(s, deviceId)
    ensures var next := Do(codec, s, t, step);
            Abandoned(next, deviceId) && SignCalls(next.log, deviceId) == SignCalls(s.log, deviceId)
  {
    if t < |s.tabs| {
      if step.ChangeSession? || step.ChangeDevice? || step.Stop? {
        assert InFlight(s.tabs[t].progress) != Some(deviceId);
      } else {
        AbandonmentOfPreparing(codec, s, t, step, deviceId);
        AbandonmentOfLookup(codec, s, t, step, deviceId);
        AbandonmentOfClaiming(codec, s, t, step, deviceId);
        AbandonmentOfSigning(codec, s, t, step, deviceId);
      }
    }
  }

  lemma AbandonedHandsOutNothing(codec: Codec, s: State, deviceId: string)
    requires Inv(codec, s) && Abandoned(s, deviceId)
    ensures forall attempt :: HandedOut(deviceId, attempt) !in s.log
  {
    assert forall e :: e in s.log ==> EventOk(s.db, s.log, e);
  }

  lemma OneMoreStaysAbandoned(codec: Codec, first: State, mid: State, last: (nat, Step), deviceId: string)
    requires Inv(codec, mid) && Abandoned(mid, deviceId)
    requires SignCalls(mid.log, deviceId) == SignCalls(first.log, deviceId)
    ensures var next := Do(codec, mid, last.0, last.1);
            Abandoned(next, deviceId) && SignCalls(next.log, deviceId) == SignCalls(first.log, deviceId)
  {
    AbandonmentStep(codec, mid, last.0, last.1, deviceId);
  }

  lemma {:induction false} AbandonmentLasts(codec: Codec, start: State, schedule: seq<(nat, Step)>,
                                            more: seq<(nat, Step)>, deviceId: string)
    requires Initial(start) && Abandoned(After(codec, start, schedule), deviceId)
    ensures var s, later := After(codec, start, schedule), After(codec, start, schedule + more);
            Abandoned(later, deviceId) && SignCalls(later.log, deviceId) == SignCalls(s.log, deviceId)
    decreases |more|
  {
    if more == [] {
      assert schedule + more == schedule;
    } else {
      var init, last := more[..|more| - 1], more[|more| - 1];
      AbandonmentLasts(codec, start, schedule, init, deviceId);
      AfterOneMore(codec, start, schedule, more);
      InvOnEveryRun(codec, start, schedule + init);
      OneMoreStaysAbandoned(codec, After(codec, start, schedule), After(codec, start, schedule + init), last, deviceId);
    }
  }

  /** A crash after the claim fails closed for good: no later step of any tab calls the
      signer for that record again, stores an attempt or hands one out. */
  lemma AbandonedClaimNeverSigns(codec: Codec, start: State, schedule: seq<(nat, Step)>, more: seq<(nat, Step)>,
                                 deviceId: string)
    requires Initial(start) && Abandoned(After(codec, start, schedule), deviceId)
    ensures var s, later := After(codec, start, schedule), After(codec, start, schedule + more);
            && Abandoned(later, deviceId) && SignCalls(later.log, deviceId) == SignCalls(s.log, deviceId)
            && forall attempt :: HandedOut(deviceId, attempt) !in later.log
  {
    AbandonmentLasts(codec, start, schedule, more, deviceId);
    InvOnEveryRun(codec, start, schedule + more);
    AbandonedHandsOutNothing(codec, After(codec, start, schedule + more), deviceId);
  }
}
