/** Under which session a tab of the approval protocol publishes, signs and receives: that
    of the call it is in, found unchanged by every move of that call, and for a record that
    was the pending one while the call ran (web/messaging-device-ed25519-key-v2.mjs,
    web/mobile-device-authorization-seams-v2.mjs). */
module ApprovalSessions {
  import opened Text
  import opened ProvisionalKeyStore
  import opened ApprovalProtocol

  // --- what a call may carry -------------------------------------------------

  predicate Begins(step: Step) {
    step.BeginPrepare? || step.BeginApprove?
  }

  /** The X25519 row is pending with exactly this identity, whose derived parts are those
      of its content, its subject and its keys. */
  ghost predicate MatchesRow(codec: Codec, row: Option<DeviceRow>, identity: Identity) {
    && RowMatches(codec, row, identity)
    && codec.bindingId(identity.content, identity.subject, identity.pendingProposal) == Some(identity.bindingId)
    && identity.contentDigest == codec.digest(identity.content)
    && identity.commitment == codec.commitment(identity.x25519PublicKey)
  }

  /** One of these rows was pending for the subject of the session with this identity. */
  ghost predicate Seen(codec: Codec, rows: seq<Option<DeviceRow>>, session: Session, identity: Identity) {
    identity.subject == session.subject && exists i :: 0 <= i < |rows| && MatchesRow(codec, rows[i], identity)
  }

  ghost predicate SeenStored(codec: Codec, db: Database, rows: seq<Option<DeviceRow>>, session: Session,
                             deviceId: string)
  {
    deviceId in db.keys && Seen(codec, rows, session, db.keys[deviceId].identity)
  }

  ghost predicate SeenPending(codec: Codec, rows: seq<Option<DeviceRow>>, session: Session, pending: Pending) {
    exists i :: 0 <= i < |rows| && ProjectPending(codec, rows[i], session.subject) == Some(pending)
  }

  /** What a call that began with `begin` under `session` holds, after these rows. */
  ghost predicate Under(codec: Codec, db: Database, begin: Step, session: Session, rows: seq<Option<DeviceRow>>,
                        progress: Progress)
  {
    match progress
    case Idle => false
    case PrepareStarted(s, content) => s == session && begin == BeginPrepare(content)
    case PreparePending(s, content, pending) =>
      s == session && begin == BeginPrepare(content) && SeenPending(codec, rows, session, pending)
    case PrepareReady(s, _, record) =>
      s == session && begin == BeginPrepare(record.identity.content) && Seen(codec, rows, session, record.identity)
    case PrepareTried(s, record, _) =>
      s == session && begin == BeginPrepare(record.identity.content) && Seen(codec, rows, session, record.identity)
    case ApproveStarted(s, wire) => s == session && begin == BeginApprove(wire)
    case ApprovePending(s, wire, pending) =>
      s == session && begin == BeginApprove(wire) && SeenPending(codec, rows, session, pending)
    case ClaimStarted(s, wire) => s == session && begin == BeginApprove(wire)
    case ClaimPending(s, wire, pending) =>
      s == session && begin == BeginApprove(wire) && SeenPending(codec, rows, session, pending)
    case ClaimReady(s, _, record, claim) =>
      && s == session && begin == BeginApprove(claim.authorizationWire) && claim.deviceId == record.identity.deviceId
      && SeenStored(codec, db, rows, session, claim.deviceId)
    case ClaimTried(s, record, claim, outcome) =>
      && s == session && begin == BeginApprove(claim.authorizationWire) && claim.deviceId == record.identity.deviceId
      && SeenStored(codec, db, rows, session, claim.deviceId)
    case MaySign(s, claim) =>
      && s == session && begin == BeginApprove(claim.authorizationWire)
      && SeenStored(codec, db, rows, session, claim.deviceId)
    case Signing(s, claim) =>
      && s == session && begin == BeginApprove(claim.authorizationWire)
      && SeenStored(codec, db, rows, session, claim.deviceId)
    case HasEvent(s, claim, _, _) =>
      && s == session && begin == BeginApprove(claim.authorizationWire)
      && SeenStored(codec, db, rows, session, claim.deviceId)
    case PersistReady(s, _, claim, attempt, _) =>
      && s == session && begin == BeginApprove(attempt.authorizationWire)
      && SeenStored(codec, db, rows, session, claim.deviceId)
    case Persisted(s, claim, attempt, _) =>
      && s == session && begin == BeginApprove(attempt.authorizationWire)
      && SeenStored(codec, db, rows, session, claim.deviceId)
  }

  /** The moves that go on whatever the session has become: storing the signed evidence, and
      a creation, which a changed session aborts without ending the call. */
  predicate IsUnchecked(progress: Progress) {
    progress.HasEvent? || progress.PersistReady? || progress.PrepareReady?
  }

  /** No move noted for later that the session had changed: neither the claim, aborted then,
      nor the return of the signer. */
  predicate IsIntact(progress: Progress) {
    match progress
    case ClaimTried(_, _, _, outcome) => outcome != Aborted
    case HasEvent(_, _, _, intact) => intact
    case PersistReady(_, _, _, _, intact) => intact
    case Persisted(_, _, _, intact) => intact
    case _ => true
  }

  lemma SeenLasts(codec: Codec, rows: seq<Option<DeviceRow>>, row: Option<DeviceRow>, session: Session,
                  identity: Identity)
    requires Seen(codec, rows, session, identity)
    ensures Seen(codec, rows + [row], session, identity)
  {
    var i :| 0 <= i < |rows| && MatchesRow(codec, rows[i], identity);
    assert (rows + [row])[i] == rows[i];
  }

  lemma PendingLasts(codec: Codec, rows: seq<Option<DeviceRow>>, row: Option<DeviceRow>, session: Session,
                     pending: Pending)
    requires SeenPending(codec, rows, session, pending)
    ensures SeenPending(codec, rows + [row], session, pending)
  {
    var i :| 0 <= i < |rows| && ProjectPending(codec, rows[i], session.subject) == Some(pending);
    assert (rows + [row])[i] == rows[i];
  }

  /** An identity bound to a pending row that was seen was itself seen. */
  lemma BoundIsSeen(codec: Codec, rows: seq<Option<DeviceRow>>, session: Session, pending: Pending, identity: Identity)
    requires SeenPending(codec, rows, session, pending) && IsBound(codec, pending, identity)
    ensures Seen(codec, rows, session, identity)
  {
    var i :| 0 <= i < |rows| && ProjectPending(codec, rows[i], session.subject) == Some(pending);
    assert MatchesRow(codec, rows[i], identity);
  }

  lemma StoredLasts(codec: Codec, db: Database, later: Database, rows: seq<Option<DeviceRow>>, row: Option<DeviceRow>,
                    session: Session, deviceId: string)
    requires SeenStored(codec, db, rows, session, deviceId) && Extends(db, later)
    ensures SeenStored(codec, later, rows + [row], session, deviceId)
  {
    SeenLasts(codec, rows, row, session, db.keys[deviceId].identity);
  }

  /** What other tabs do leaves the call as it is. */
  lemma UnderLasts(codec: Codec, db: Database, later: Database, begin: Step, session: Session,
                   rows: seq<Option<DeviceRow>>, row: Option<DeviceRow>, progress: Progress)
    requires Under(codec, db, begin, session, rows, progress) && Extends(db, later)
    ensures Under(codec, later, begin, session, rows + [row], progress)
  {
    match progress
    case PreparePending(_, _, pending) => PendingLasts(codec, rows, row, session, pending);
    case PrepareReady(_, _, record) => SeenLasts(codec, rows, row, session, record.identity);
    case PrepareTried(_, record, _) => SeenLasts(codec, rows, row, session, record.identity);
    case ApprovePending(_, _, pending) => PendingLasts(codec, rows, row, session, pending);
    case ClaimPending(_, _, pending) => PendingLasts(codec, rows, row, session, pending);
    case ClaimReady(_, _, _, claim) => StoredLasts(codec, db, later, rows, row, session, claim.deviceId);
    case ClaimTried(_, _, claim, _) => StoredLasts(codec, db, later, rows, row, session, claim.deviceId);
    case MaySign(_, claim) => StoredLasts(codec, db, later, rows, row, session, claim.deviceId);
    case Signing(_, claim) => StoredLasts(codec, db, later, rows, row, session, claim.deviceId);
    case HasEvent(_, claim, _, _) => StoredLasts(codec, db, later, rows, row, session, claim.deviceId);
    case PersistReady(_, _, claim, _, _) => StoredLasts(codec, db, later, rows, row, session, claim.deviceId);
    case Persisted(_, claim, _, _) => StoredLasts(codec, db, later, rows, row, session, claim.deviceId);
    case _ =>
  }

  // --- one move of a call ----------------------------------------------------

  /** The move keeps the call under its session, which it found unchanged unless it is one
      of the unchecked. */
  ghost predicate MovesUnder(codec: Codec, s: State, next: State, t: nat, begin: Step, session: Session,
                             rows: seq<Option<DeviceRow>>)
    requires t < |s.tabs| && t < |next.tabs|
  {
    var p, q := s.tabs[t].progress, next.tabs[t].progress;
    q == Idle
    || (&& Under(codec, next.db, begin, session, rows + [s.db.device], q)
        && (q != p && IsIntact(q) ==> IsIntact(p) && (IsUnchecked(p) || s.tabs[t].session == session))
        && (q == p ==> IsIntact(q) == IsIntact(p)))
  }

  /** A call that is refused, or does not move, keeps what it held. */
  lemma RestingMoves(codec: Codec, s: State, next: State, t: nat, begin: Step, session: Session,
                     rows: seq<Option<DeviceRow>>)
    requires t < |s.tabs| && Under(codec, s.db, begin, session, rows, s.tabs[t].progress)
    requires t < |next.tabs| && next.tabs[t].progress in {s.tabs[t].progress, Idle} && Extends(s.db, next.db)
    ensures MovesUnder(codec, s, next, t, begin, session, rows)
  {
    UnderLasts(codec, s.db, next.db, begin, session, rows, s.db.device, s.tabs[t].progress);
  }

  lemma PrepareReadMoves(codec: Codec, s: State, t: nat, step: Step, begin: Step, session: Session,
                         rows: seq<Option<DeviceRow>>)
    requires t < |s.tabs| && Under(codec, s.db, begin, session, rows, s.tabs[t].progress)
    requires step.PrepareReadStored? && s.tabs[t].progress.PreparePending?
    ensures MovesUnder(codec, s, PrepareStep(codec, s, t, step), t, begin, session, rows)
  {
    var row := s.db.device;
    var PreparePending(_, content, pending) := s.tabs[t].progress;
    var expected := ExpectedIdentity(codec, pending, content, step.ed25519PublicKey, step.revision);
    PendingLasts(codec, rows, row, session, pending);
    if expected.Some? {
      ExpectedIsBound(codec, pending, content, step.ed25519PublicKey, step.revision);
      BoundIsSeen(codec, rows + [row], session, pending, expected.value);
    }
  }

  lemma PrepareCreateMoves(codec: Codec, s: State, t: nat, begin: Step, session: Session, rows: seq<Option<DeviceRow>>)
    requires t < |s.tabs| && Under(codec, s.db, begin, session, rows, s.tabs[t].progress)
    requires s.tabs[t].progress.PrepareReady?
    ensures MovesUnder(codec, s, PrepareStep(codec, s, t, PrepareCreate), t, begin, session, rows)
  {
    SeenLasts(codec, rows, s.db.device, session, s.tabs[t].progress.record.identity);
  }

  lemma PreparePendingMoves(codec: Codec, s: State, t: nat, begin: Step, session: Session,
                            rows: seq<Option<DeviceRow>>)
    requires t < |s.tabs| && Under(codec, s.db, begin, session, rows, s.tabs[t].progress)
    requires s.tabs[t].progress.PrepareStarted?
    ensures MovesUnder(codec, s, PrepareStep(codec, s, t, PrepareReadPending), t, begin, session, rows)
  {
    assert (rows + [s.db.device])[|rows|] == s.db.device;
  }

  predicate PreparesOn(step: Step, progress: Progress) {
    || (step.PrepareReadPending? && progress.PrepareStarted?) || (step.PrepareReadStored? && progress.PreparePending?)
    || (step.PrepareCreate? && progress.PrepareReady?)
  }

  lemma PrepareRests(codec: Codec, s: State, t: nat, step: Step)
    requires t < |s.tabs| && !PreparesOn(step, s.tabs[t].progress) && s.tabs[t].progress != Idle
    ensures var next := PrepareStep(codec, s, t, step);
            next.db == s.db && t < |next.tabs| && next.tabs[t].progress in {s.tabs[t].progress, Idle}
  {
  }

  lemma PrepareMoves(codec: Codec, s: State, t: nat, step: Step, begin: Step, session: Session,
                     rows: seq<Option<DeviceRow>>)
    requires t < |s.tabs| && Under(codec, s.db, begin, session, rows, s.tabs[t].progress)
    ensures MovesUnder(codec, s, PrepareStep(codec, s, t, step), t, begin, session, rows)
  {
    var p := s.tabs[t].progress;
    if !PreparesOn(step, p) {
      PrepareRests(codec, s, t, step);
      RestingMoves(codec, s, PrepareStep(codec, s, t, step), t, begin, session, rows);
    } else if p.PrepareStarted? {
      PreparePendingMoves(codec, s, t, begin, session, rows);
    } else if p.PreparePending? {
      PrepareReadMoves(codec, s, t, step, begin, session, rows);
    } else {
      PrepareCreateMoves(codec, s, t, begin, session, rows);
    }
  }

  lemma LookupMoves(codec: Codec, s: State, t: nat, step: Step, begin: Step, session: Session,
                    rows: seq<Option<DeviceRow>>)
    requires t < |s.tabs| && Under(codec, s.db, begin, session, rows, s.tabs[t].progress)
    ensures MovesUnder(codec, s, LookupStep(codec, s, t, step), t, begin, session, rows)
  {
    var row := s.db.device;
    UnderLasts(codec, s.db, s.db, begin, session, rows, row, s.tabs[t].progress);
    assert (rows + [row])[|rows|] == row;
  }

  lemma ClaimReadMoves(codec: Codec, s: State, t: nat, begin: Step, session: Session, rows: seq<Option<DeviceRow>>)
    requires t < |s.tabs| && Inv(codec, s) && Under(codec, s.db, begin, session, rows, s.tabs[t].progress)
    requires s.tabs[t].progress.ClaimPending?
    ensures MovesUnder(codec, s, ClaimStep(codec, s, t, ClaimReadStored), t, begin, session, rows)
  {
    var row := s.db.device;
    var ClaimPending(_, _, pending) := s.tabs[t].progress;
    PendingLasts(codec, rows, row, session, pending);
    if pending.deviceId in s.db.keys && IsBound(codec, pending, s.db.keys[pending.deviceId].identity) {
      assert RecordOk(codec, s, pending.deviceId);
      BoundIsSeen(codec, rows + [row], session, pending, s.db.keys[pending.deviceId].identity);
    }
  }

  lemma ClaimCommitMoves(codec: Codec, s: State, t: nat, begin: Step, session: Session, rows: seq<Option<DeviceRow>>)
    requires t < |s.tabs| && Under(codec, s.db, begin, session, rows, s.tabs[t].progress)
    requires s.tabs[t].progress.ClaimReady?
    ensures MovesUnder(codec, s, ClaimStep(codec, s, t, ClaimCommit), t, begin, session, rows)
  {
    ClaimExtends(codec, s, t, ClaimCommit);
    StoredLasts(codec, s.db, ClaimStep(codec, s, t, ClaimCommit).db, rows, s.db.device, session,
                s.tabs[t].progress.claim.deviceId);
  }

  lemma ClaimFinishMoves(codec: Codec, s: State, t: nat, begin: Step, session: Session, rows: seq<Option<DeviceRow>>)
    requires t < |s.tabs| && Under(codec, s.db, begin, session, rows, s.tabs[t].progress)
    requires s.tabs[t].progress.ClaimTried?
    ensures MovesUnder(codec, s, ClaimStep(codec, s, t, ClaimFinish), t, begin, session, rows)
  {
    StoredLasts(codec, s.db, s.db, rows, s.db.device, session, s.tabs[t].progress.claim.deviceId);
  }

  lemma ClaimPendingMoves(codec: Codec, s: State, t: nat, begin: Step, session: Session, rows: seq<Option<DeviceRow>>)
    requires t < |s.tabs| && Under(codec, s.db, begin, session, rows, s.tabs[t].progress)
    requires s.tabs[t].progress.ClaimStarted?
    ensures MovesUnder(codec, s, ClaimStep(codec, s, t, ClaimReadPending), t, begin, session, rows)
  {
    assert (rows + [s.db.device])[|rows|] == s.db.device;
  }

  predicate ClaimsOn(step: Step, progress: Progress) {
    || (step.ClaimReadPending? && progress.ClaimStarted?) || (step.ClaimReadStored? && progress.ClaimPending?)
    || (step.ClaimCommit? && progress.ClaimReady?) || (step.ClaimFinish? && progress.ClaimTried?)
  }

  lemma ClaimRests(codec: Codec, s: State, t: nat, step: Step)
    requires t < |s.tabs| && !ClaimsOn(step, s.tabs[t].progress)
    ensures ClaimStep(codec, s, t, step) == s
  {
  }

  lemma ClaimMoves(codec: Codec, s: State, t: nat, step: Step, begin: Step, session: Session,
                   rows: seq<Option<DeviceRow>>)
    requires t < |s.tabs| && Inv(codec, s) && Under(codec, s.db, begin, session, rows, s.tabs[t].progress)
    ensures MovesUnder(codec, s, ClaimStep(codec, s, t, step), t, begin, session, rows)
  {
    var p := s.tabs[t].progress;
    if !ClaimsOn(step, p) {
      ClaimRests(codec, s, t, step);
      RestingMoves(codec, s, s, t, begin, session, rows);
    } else if p.ClaimStarted? {
      ClaimPendingMoves(codec, s, t, begin, session, rows);
    } else if p.ClaimPending? {
      ClaimReadMoves(codec, s, t, begin, session, rows);
    } else if p.ClaimReady? {
      ClaimCommitMoves(codec, s, t, begin, session, rows);
    } else {
      ClaimFinishMoves(codec, s, t, begin, session, rows);
    }
  }

  lemma CallingMoves(codec: Codec, s: State, t: nat, step: Step, begin: Step, session: Session,
                     rows: seq<Option<DeviceRow>>)
    requires t < |s.tabs| && Under(codec, s.db, begin, session, rows, s.tabs[t].progress)
    requires s.tabs[t].progress.MaySign? || s.tabs[t].progress.Signing?
    ensures MovesUnder(codec, s, SignStep(codec, s, t, step), t, begin, session, rows)
  {
    StoredLasts(codec, s.db, s.db, rows, s.db.device, session, s.tabs[t].progress.claim.deviceId);
  }

  lemma EvidenceReadMoves(codec: Codec, s: State, t: nat, step: Step, begin: Step, session: Session,
                          rows: seq<Option<DeviceRow>>)
    requires t < |s.tabs| && Under(codec, s.db, begin, session, rows, s.tabs[t].progress)
    requires s.tabs[t].progress.HasEvent?
    ensures MovesUnder(codec, s, SignStep(codec, s, t, step), t, begin, session, rows)
  {
    StoredLasts(codec, s.db, s.db, rows, s.db.device, session, s.tabs[t].progress.claim.deviceId);
  }

  lemma EvidenceStoreMoves(codec: Codec, s: State, t: nat, step: Step, begin: Step, session: Session,
                           rows: seq<Option<DeviceRow>>)
    requires t < |s.tabs| && Under(codec, s.db, begin, session, rows, s.tabs[t].progress)
    requires s.tabs[t].progress.PersistReady?
    ensures MovesUnder(codec, s, SignStep(codec, s, t, step), t, begin, session, rows)
  {
    SignExtends(codec, s, t, step);
    StoredLasts(codec, s.db, SignStep(codec, s, t, step).db, rows, s.db.device, session,
                s.tabs[t].progress.claim.deviceId);
  }

  lemma SignRests(codec: Codec, s: State, t: nat, step: Step)
    requires t < |s.tabs| && !s.tabs[t].progress.MaySign? && !s.tabs[t].progress.Signing?
    requires !s.tabs[t].progress.HasEvent? && !s.tabs[t].progress.PersistReady?
    ensures var next := SignStep(codec, s, t, step);
            next.db == s.db && t < |next.tabs| && next.tabs[t].progress in {s.tabs[t].progress, Idle}
  {
  }

  lemma SignMoves(codec: Codec, s: State, t: nat, step: Step, begin: Step, session: Session,
                  rows: seq<Option<DeviceRow>>)
    requires t < |s.tabs| && Under(codec, s.db, begin, session, rows, s.tabs[t].progress)
    ensures MovesUnder(codec, s, SignStep(codec, s, t, step), t, begin, session, rows)
  {
    var p := s.tabs[t].progress;
    if p.MaySign? || p.Signing? {
      CallingMoves(codec, s, t, step, begin, session, rows);
    } else if p.HasEvent? {
      EvidenceReadMoves(codec, s, t, step, begin, session, rows);
    } else if p.PersistReady? {
      EvidenceStoreMoves(codec, s, t, step, begin, session, rows);
    } else {
      SignRests(codec, s, t, step);
      RestingMoves(codec, s, SignStep(codec, s, t, step), t, begin, session, rows);
    }
  }

  // --- what leaves a call ----------------------------------------------------

  /** A key is published, the signer called and an artifact handed out for what the call was
      asked, for the subject of its session, and for a record seen pending. */
  ghost predicate LeavesUnder(codec: Codec, db: Database, begin: Step, session: Session,
                              rows: seq<Option<DeviceRow>>, event: Event)
  {
    match event
    case PublishedKey(deviceId, identity) =>
      begin == BeginPrepare(identity.content) && identity.deviceId == deviceId && Seen(codec, rows, session, identity)
    case SignEventCalled(claim) =>
      begin == BeginApprove(claim.authorizationWire) && SeenStored(codec, db, rows, session, claim.deviceId)
    case SignerReturned(claim, _) => begin == BeginApprove(claim.authorizationWire)
    case HandedOut(deviceId, attempt) =>
      begin == BeginApprove(attempt.authorizationWire) && SeenStored(codec, db, rows, session, deviceId)
  }

  ghost predicate EmitsUnder(codec: Codec, s: State, t: nat, begin: Step, session: Session,
                             rows: seq<Option<DeviceRow>>, event: Event)
    requires t < |s.tabs|
  {
    && LeavesUnder(codec, s.db, begin, session, rows + [s.db.device], event)
    && (!event.SignerReturned? ==> IsIntact(s.tabs[t].progress) && s.tabs[t].session == session)
  }

  /** An identity that agrees with a seen one but for its key was seen as well. */
  lemma MatchIsSeen(codec: Codec, rows: seq<Option<DeviceRow>>, session: Session, identity: Identity,
                    expected: Identity)
    requires Seen(codec, rows, session, expected) && MatchesExpected(identity, expected)
    ensures Seen(codec, rows, session, identity)
  {
    var i :| 0 <= i < |rows| && MatchesRow(codec, rows[i], expected);
    assert MatchesRow(codec, rows[i], identity);
  }

  lemma FirstPublicationIsUnder(codec: Codec, s: State, t: nat, step: Step, begin: Step, session: Session,
                                rows: seq<Option<DeviceRow>>, event: Event)
    requires t < |s.tabs| && Under(codec, s.db, begin, session, rows, s.tabs[t].progress)
    requires step.PrepareReadStored? && s.tabs[t].progress.PreparePending?
    requires PrepareStep(codec, s, t, step).log == s.log + [event]
    ensures EmitsUnder(codec, s, t, begin, session, rows, event)
  {
    assert (s.log + [event])[|s.log|] == event;
    var row := s.db.device;
    var PreparePending(_, content, pending) := s.tabs[t].progress;
    var expected := ExpectedIdentity(codec, pending, content, step.ed25519PublicKey, step.revision);
    PendingLasts(codec, rows, row, session, pending);
    if expected.Some? && pending.deviceId in s.db.keys {
      ExpectedIsBound(codec, pending, content, step.ed25519PublicKey, step.revision);
      BoundIsSeen(codec, rows + [row], session, pending, expected.value);
      var identity := s.db.keys[pending.deviceId].identity;
      if MatchesExpected(identity, expected.value) {
        MatchIsSeen(codec, rows + [row], session, identity, expected.value);
      }
    }
  }

  lemma LastPublicationIsUnder(codec: Codec, s: State, t: nat, begin: Step, session: Session,
                               rows: seq<Option<DeviceRow>>, event: Event)
    requires t < |s.tabs| && Under(codec, s.db, begin, session, rows, s.tabs[t].progress)
    requires s.tabs[t].progress.PrepareTried?
    requires PrepareStep(codec, s, t, PrepareFinish).log == s.log + [event]
    ensures EmitsUnder(codec, s, t, begin, session, rows, event)
  {
    assert (s.log + [event])[|s.log|] == event;
    var record := s.tabs[t].progress.record;
    SeenLasts(codec, rows, s.db.device, session, record.identity);
    if record.identity.deviceId in s.db.keys {
      var identity := s.db.keys[record.identity.deviceId].identity;
      if MatchesExpected(identity, record.identity) {
        MatchIsSeen(codec, rows + [s.db.device], session, identity, record.identity);
      }
    }
  }

  lemma PrepareEmits(codec: Codec, s: State, t: nat, step: Step, begin: Step, session: Session,
                     rows: seq<Option<DeviceRow>>, event: Event)
    requires t < |s.tabs| && Under(codec, s.db, begin, session, rows, s.tabs[t].progress)
    requires PrepareStep(codec, s, t, step).log == s.log + [event]
    ensures EmitsUnder(codec, s, t, begin, session, rows, event)
  {
    PrepareIsQuiet(codec, s, t, step);
    if step.PrepareReadStored? {
      FirstPublicationIsUnder(codec, s, t, step, begin, session, rows, event);
    } else {
      LastPublicationIsUnder(codec, s, t, begin, session, rows, event);
    }
  }

  lemma PrepareIsQuiet(codec: Codec, s: State, t: nat, step: Step)
    requires t < |s.tabs|
    ensures PrepareStep(codec, s, t, step).log == s.log
            || (step.PrepareReadStored? && s.tabs[t].progress.PreparePending?)
            || (step.PrepareFinish? && s.tabs[t].progress.PrepareTried?)
  {
  }

  lemma LookupEmits(codec: Codec, s: State, t: nat, step: Step, begin: Step, session: Session,
                    rows: seq<Option<DeviceRow>>, event: Event)
    requires t < |s.tabs| && Under(codec, s.db, begin, session, rows, s.tabs[t].progress)
    requires LookupStep(codec, s, t, step).log == s.log + [event]
    ensures EmitsUnder(codec, s, t, begin, session, rows, event)
  {
    assert (s.log + [event])[|s.log|] == event;
    if s.tabs[t].progress.ApprovePending? {
      var pending := s.tabs[t].progress.pending;
      PendingLasts(codec, rows, s.db.device, session, pending);
      if pending.deviceId in s.db.keys && IsBound(codec, pending, s.db.keys[pending.deviceId].identity) {
        BoundIsSeen(codec, rows + [s.db.device], session, pending, s.db.keys[pending.deviceId].identity);
      }
    }
  }

  lemma ClaimEmits(codec: Codec, s: State, t: nat, step: Step, begin: Step, session: Session,
                   rows: seq<Option<DeviceRow>>, event: Event)
    requires t < |s.tabs| && Under(codec, s.db, begin, session, rows, s.tabs[t].progress)
    requires ClaimStep(codec, s, t, step).log == s.log + [event]
    ensures EmitsUnder(codec, s, t, begin, session, rows, event)
  {
    assert (s.log + [event])[|s.log|] == event;
    if s.tabs[t].progress.ClaimTried? {
      StoredLasts(codec, s.db, s.db, rows, s.db.device, session, s.tabs[t].progress.claim.deviceId);
    }
  }

  lemma SignEmits(codec: Codec, s: State, t: nat, step: Step, begin: Step, session: Session,
                  rows: seq<Option<DeviceRow>>, event: Event)
    requires t < |s.tabs| && Under(codec, s.db, begin, session, rows, s.tabs[t].progress)
    requires SignStep(codec, s, t, step).log == s.log + [event]
    ensures EmitsUnder(codec, s, t, begin, session, rows, event)
  {
    assert (s.log + [event])[|s.log|] == event;
    if s.tabs[t].progress.MaySign? || s.tabs[t].progress.Persisted? {
      StoredLasts(codec, s.db, s.db, rows, s.db.device, session, s.tabs[t].progress.claim.deviceId);
    }
  }

  // --- one step of a run -----------------------------------------------------

  /** A step of any tab keeps an open call of tab `t` under its session. */
  lemma StepMovesUnder(codec: Codec, s: State, u: nat, step: Step, t: nat, begin: Step, session: Session,
                       rows: seq<Option<DeviceRow>>)
    requires t < |s.tabs| && Inv(codec, s) && Under(codec, s.db, begin, session, rows, s.tabs[t].progress)
    ensures |Do(codec, s, u, step).tabs| == |s.tabs|
    ensures MovesUnder(codec, s, Do(codec, s, u, step), t, begin, session, rows)
  {
    StepExtends(codec, s, u, step);
    StepKeepsTabs(codec, s, u, step);
    if u != t || step.ChangeSession? || step.ChangeDevice? || step.Stop? {
      OthersLeaveCalls(codec, s, u, step, t);
      RestingMoves(codec, s, Do(codec, s, u, step), t, begin, session, rows);
    } else {
      OwnStepMovesUnder(codec, s, t, step, begin, session, rows);
    }
  }

  lemma OwnStepMovesUnder(codec: Codec, s: State, t: nat, step: Step, begin: Step, session: Session,
                          rows: seq<Option<DeviceRow>>)
    requires t < |s.tabs| && Inv(codec, s) && Under(codec, s.db, begin, session, rows, s.tabs[t].progress)
    requires !step.ChangeSession? && !step.ChangeDevice? && !step.Stop?
    ensures t < |Do(codec, s, t, step).tabs| && MovesUnder(codec, s, Do(codec, s, t, step), t, begin, session, rows)
  {
    OneOfFour(codec, s, t, step);
    if Do(codec, s, t, step) == PrepareStep(codec, s, t, step) {
      PrepareMoves(codec, s, t, step, begin, session, rows);
    } else if Do(codec, s, t, step) == LookupStep(codec, s, t, step) {
      LookupMoves(codec, s, t, step, begin, session, rows);
    } else if Do(codec, s, t, step) == ClaimStep(codec, s, t, step) {
      ClaimMoves(codec, s, t, step, begin, session, rows);
    } else {
      SignMoves(codec, s, t, step, begin, session, rows);
    }
  }

  lemma OneOfFour(codec: Codec, s: State, t: nat, step: Step)
    requires t < |s.tabs| && !step.ChangeSession? && !step.ChangeDevice? && !step.Stop?
    ensures t < |Do(codec, s, t, step).tabs|
    ensures Do(codec, s, t, step) in {PrepareStep(codec, s, t, step), LookupStep(codec, s, t, step),
                                      ClaimStep(codec, s, t, step), SignStep(codec, s, t, step)}
  {
    StepKeepsTabs(codec, s, t, step);
  }

  lemma OthersLeaveCalls(codec: Codec, s: State, u: nat, step: Step, t: nat)
    requires t < |s.tabs| && (u != t || step.ChangeSession? || step.ChangeDevice? || step.Stop?)
    ensures var next := Do(codec, s, u, step);
            |next.tabs| == |s.tabs| && next.tabs[t].progress in {s.tabs[t].progress, Idle}
            && (u != t ==> next.tabs[t] == s.tabs[t])
  {
  }

  lemma StepEmitsUnder(codec: Codec, s: State, t: nat, step: Step, begin: Step, session: Session,
                       rows: seq<Option<DeviceRow>>, event: Event)
    requires t < |s.tabs| && Under(codec, s.db, begin, session, rows, s.tabs[t].progress)
    requires Do(codec, s, t, step).log == s.log + [event]
    ensures EmitsUnder(codec, s, t, begin, session, rows, event)
  {
    if Do(codec, s, t, step) == PrepareStep(codec, s, t, step) {
      PrepareEmits(codec, s, t, step, begin, session, rows, event);
    } else if Do(codec, s, t, step) == LookupStep(codec, s, t, step) {
      LookupEmits(codec, s, t, step, begin, session, rows, event);
    } else if Do(codec, s, t, step) == ClaimStep(codec, s, t, step) {
      ClaimEmits(codec, s, t, step, begin, session, rows, event);
    } else if Do(codec, s, t, step) == SignStep(codec, s, t, step) {
      SignEmits(codec, s, t, step, begin, session, rows, event);
    }
  }

  /** A tab that is idle begins a call under its session, or stays idle; and nothing leaves
      it. */
  lemma IdleBegins(codec: Codec, s: State, u: nat, step: Step, t: nat)
    requires t < |s.tabs| && s.tabs[t].progress == Idle
    ensures var next := Do(codec, s, u, step);
            && |next.tabs| == |s.tabs| && (u == t ==> next.log == s.log)
            && (next.tabs[t].progress != Idle ==>
                  && u == t && Begins(step) && next.tabs[t].session == s.tabs[t].session
                  && IsIntact(next.tabs[t].progress)
                  && Under(codec, next.db, step, s.tabs[t].session, [s.db.device], next.tabs[t].progress))
  {
    if u != t || step.ChangeSession? || step.ChangeDevice? || step.Stop? {
      OthersLeaveCalls(codec, s, u, step, t);
      OutsideIsQuiet(codec, s, u, step);
    } else {
      IdleStep(codec, s, t, step);
    }
  }

  lemma OutsideIsQuiet(codec: Codec, s: State, u: nat, step: Step)
    ensures step.ChangeSession? || step.ChangeDevice? || step.Stop? ==> Do(codec, s, u, step).log == s.log
  {
  }

  lemma IdleStep(codec: Codec, s: State, t: nat, step: Step)
    requires t < |s.tabs| && s.tabs[t].progress == Idle
    requires !step.ChangeSession? && !step.ChangeDevice? && !step.Stop?
    ensures Do(codec, s, t, step) ==
            match step
            case BeginPrepare(content) => Put(s, t, PrepareStarted(s.tabs[t].session, content))
            case BeginApprove(wire) => Put(s, t, ApproveStarted(s.tabs[t].session, wire))
            case _ => s
  {
  }

  // --- runs ------------------------------------------------------------------

  /** Tab `t` and the X25519 row before step `j` of the schedule. */
  function TabAt(codec: Codec, start: State, schedule: seq<(nat, Step)>, t: nat, j: nat): Tab
    requires j <= |schedule|
  {
    var s := After(codec, start, schedule[..j]);
    if t < |s.tabs| then s.tabs[t] else Tab(Session("", ""), Idle)
  }

  function RowAt(codec: Codec, start: State, schedule: seq<(nat, Step)>, j: nat): Option<DeviceRow>
    requires j <= |schedule|
  {
    After(codec, start, schedule[..j]).db.device
  }

  /** The rows before the steps from `k` on. */
  function RowsFrom(codec: Codec, start: State, schedule: seq<(nat, Step)>, k: nat): (rows: seq<Option<DeviceRow>>)
    requires k <= |schedule|
    ensures |rows| == |schedule| - k
    ensures forall i :: 0 <= i < |rows| ==> rows[i] == RowAt(codec, start, schedule, k + i)
  {
    seq(|schedule| - k, i requires 0 <= i < |schedule| - k => RowAt(codec, start, schedule, k + i))
  }

  /** Step `k` began the call that tab `t` is still in. */
  ghost predicate IsCall(codec: Codec, start: State, schedule: seq<(nat, Step)>, t: nat, k: nat) {
    && k < |schedule| && schedule[k].0 == t && Begins(schedule[k].1)
    && TabAt(codec, start, schedule, t, k).progress == Idle
    && forall j :: k < j <= |schedule| ==> TabAt(codec, start, schedule, t, j).progress != Idle
  }

  ghost predicate MovedAt(codec: Codec, start: State, schedule: seq<(nat, Step)>, t: nat, j: nat)
    requires j < |schedule|
  {
    && TabAt(codec, start, schedule, t, j + 1).progress != TabAt(codec, start, schedule, t, j).progress
    && !IsUnchecked(TabAt(codec, start, schedule, t, j).progress)
  }

  /** Every checked move of the call, the return of the signer among them, found the session
      the call began with. */
  ghost predicate SessionHeld(codec: Codec, start: State, schedule: seq<(nat, Step)>, t: nat, k: nat)
    requires k < |schedule|
  {
    forall j :: k <= j < |schedule| && MovedAt(codec, start, schedule, t, j) ==>
                  TabAt(codec, start, schedule, t, j).session == TabAt(codec, start, schedule, t, k).session
  }

  lemma PrefixesAgree(codec: Codec, start: State, schedule: seq<(nat, Step)>, t: nat, j: nat)
    requires j < |schedule|
    ensures TabAt(codec, start, schedule[..|schedule| - 1], t, j) == TabAt(codec, start, schedule, t, j)
    ensures RowAt(codec, start, schedule[..|schedule| - 1], j) == RowAt(codec, start, schedule, j)
  {
    assert schedule[..|schedule| - 1][..j] == schedule[..j];
  }

  lemma RowsOfOneMore(codec: Codec, start: State, schedule: seq<(nat, Step)>, k: nat)
    requires k < |schedule|
    ensures RowsFrom(codec, start, schedule, k) ==
            RowsFrom(codec, start, schedule[..|schedule| - 1], k)
            + [After(codec, start, schedule[..|schedule| - 1]).db.device]
  {
    var init := schedule[..|schedule| - 1];
    forall i | 0 <= i < |schedule| - 1 - k
      ensures RowsFrom(codec, start, schedule, k)[i] == RowsFrom(codec, start, init, k)[i]
    {
      PrefixesAgree(codec, start, schedule, 0, k + i);
    }
  }

  lemma {:induction false} TabsStay(codec: Codec, start: State, schedule: seq<(nat, Step)>)
    ensures |After(codec, start, schedule).tabs| == |start.tabs|
    decreases |schedule|
  {
    if schedule != [] {
      var last := schedule[|schedule| - 1];
      TabsStay(codec, start, schedule[..|schedule| - 1]);
      StepKeepsTabs(codec, After(codec, start, schedule[..|schedule| - 1]), last.0, last.1);
    }
  }

  lemma StepKeepsTabs(codec: Codec, s: State, u: nat, step: Step)
    ensures |Do(codec, s, u, step).tabs| == |s.tabs|
  {
  }

  lemma WholeRun(codec: Codec, start: State, schedule: seq<(nat, Step)>, t: nat)
    requires t < |start.tabs|
    ensures t < |After(codec, start, schedule).tabs|
    ensures TabAt(codec, start, schedule, t, |schedule|) == After(codec, start, schedule).tabs[t]
  {
    assert schedule[..|schedule|] == schedule;
    TabsStay(codec, start, schedule);
  }

  lemma CallContinues(codec: Codec, start: State, schedule: seq<(nat, Step)>, t: nat, k: nat)
    requires schedule != [] && IsCall(codec, start, schedule[..|schedule| - 1], t, k)
    requires TabAt(codec, start, schedule, t, |schedule|).progress != Idle
    ensures IsCall(codec, start, schedule, t, k)
  {
    PrefixesAgree(codec, start, schedule, t, k);
    forall j | k < j <= |schedule| ensures TabAt(codec, start, schedule, t, j).progress != Idle {
      if j < |schedule| {
        PrefixesAgree(codec, start, schedule, t, j);
      }
    }
  }

  lemma HeldContinues(codec: Codec, start: State, schedule: seq<(nat, Step)>, t: nat, k: nat)
    requires k < |schedule| - 1 && SessionHeld(codec, start, schedule[..|schedule| - 1], t, k)
    requires var n := |schedule| - 1;
             MovedAt(codec, start, schedule, t, n) ==>
               TabAt(codec, start, schedule, t, n).session == TabAt(codec, start, schedule, t, k).session
    ensures SessionHeld(codec, start, schedule, t, k)
  {
    var init := schedule[..|schedule| - 1];
    PrefixesAgree(codec, start, schedule, t, k);
    forall j | k <= j < |schedule| && MovedAt(codec, start, schedule, t, j)
      ensures TabAt(codec, start, schedule, t, j).session == TabAt(codec, start, schedule, t, k).session
    {
      if j < |schedule| - 1 {
        PrefixesAgree(codec, start, schedule, t, j);
        PrefixesAgree(codec, start, schedule, t, j + 1);
        assert MovedAt(codec, start, init, t, j);
      }
    }
  }

  /** Step `k` began the call tab `t` is still in, which holds what it may under the session
      it began with. */
  ghost predicate IsCallUnder(codec: Codec, start: State, schedule: seq<(nat, Step)>, t: nat, k: nat) {
    && IsCall(codec, start, schedule, t, k)
    && Under(codec, After(codec, start, schedule).db, schedule[k].1, TabAt(codec, start, schedule, t, k).session,
             RowsFrom(codec, start, schedule, k), TabAt(codec, start, schedule, t, |schedule|).progress)
    && (IsIntact(TabAt(codec, start, schedule, t, |schedule|).progress) ==>
          SessionHeld(codec, start, schedule, t, k))
  }

  lemma CallBegins(codec: Codec, start: State, schedule: seq<(nat, Step)>, t: nat)
    requires t < |start.tabs| && schedule != []
    requires TabAt(codec, start, schedule, t, |schedule|).progress != Idle
    requires TabAt(codec, start, schedule, t, |schedule| - 1).progress == Idle
    ensures IsCallUnder(codec, start, schedule, t, |schedule| - 1)
  {
    var n := |schedule| - 1;
    var init, last := schedule[..n], schedule[n];
    WholeRun(codec, start, schedule, t);
    WholeRun(codec, start, init, t);
    PrefixesAgree(codec, start, schedule, t, n);
    IdleBegins(codec, After(codec, start, init), last.0, last.1, t);
    RowsOfOneMore(codec, start, schedule, n);
    assert RowsFrom(codec, start, init, n) == [];
    assert RowsFrom(codec, start, schedule, n) == [After(codec, start, init).db.device];
  }

  lemma CallGoesOn(codec: Codec, start: State, schedule: seq<(nat, Step)>, t: nat, k: nat)
    requires Initial(start) && t < |start.tabs| && schedule != []
    requires TabAt(codec, start, schedule, t, |schedule|).progress != Idle
    requires IsCallUnder(codec, start, schedule[..|schedule| - 1], t, k)
    ensures IsCallUnder(codec, start, schedule, t, k)
  {
    var n := |schedule| - 1;
    var init, last := schedule[..n], schedule[n];
    WholeRun(codec, start, schedule, t);
    WholeRun(codec, start, init, t);
    PrefixesAgree(codec, start, schedule, t, n);
    InvOnEveryRun(codec, start, init);
    CallContinues(codec, start, schedule, t, k);
    PrefixesAgree(codec, start, schedule, t, k);
    RowsOfOneMore(codec, start, schedule, k);
    StepMovesUnder(codec, After(codec, start, init), last.0, last.1, t, schedule[k].1,
                   TabAt(codec, start, schedule, t, k).session, RowsFrom(codec, start, init, k));
    if IsIntact(TabAt(codec, start, schedule, t, |schedule|).progress) {
      HeldContinues(codec, start, schedule, t, k);
    }
  }

  /** The call a tab is in. */
  lemma {:induction false} CallOf(codec: Codec, start: State, schedule: seq<(nat, Step)>, t: nat) returns (k: nat)
    requires Initial(start) && t < |start.tabs| && TabAt(codec, start, schedule, t, |schedule|).progress != Idle
    ensures IsCallUnder(codec, start, schedule, t, k)
    decreases |schedule|
  {
    WholeRun(codec, start, schedule, t);
    var n := |schedule| - 1;
    WholeRun(codec, start, schedule[..n], t);
    PrefixesAgree(codec, start, schedule, t, n);
    if TabAt(codec, start, schedule, t, n).progress == Idle {
      k := n;
      CallBegins(codec, start, schedule, t);
    } else {
      k := CallOf(codec, start, schedule[..n], t);
      CallGoesOn(codec, start, schedule, t, k);
    }
  }

  lemma LongerIsOther(log: seq<Event>, event: Event)
    ensures log + [event] != log
  {
    assert |log + [event]| == |log| + 1;
  }

  // --- main result -----------------------------------------------------------

  /** The event leaves tab `t` after this schedule, in the call that step `k` began: for what
      that call was asked, for a record of the subject of its session that was pending at
      some step of it, and, but for the signer's own return, under the session it began
      with, which every checked move found. */
  ghost predicate LeavesInCall(codec: Codec, start: State, schedule: seq<(nat, Step)>, t: nat, k: nat, event: Event) {
    && IsCall(codec, start, schedule, t, k)
    && var session := TabAt(codec, start, schedule, t, k).session;
       && LeavesUnder(codec, After(codec, start, schedule).db, schedule[k].1, session,
                      RowsFrom(codec, start, schedule, k) + [RowAt(codec, start, schedule, |schedule|)], event)
       && (!event.SignerReturned? ==>
             && TabAt(codec, start, schedule, t, |schedule|).session == session
             && SessionHeld(codec, start, schedule, t, k))
  }

  /** Whatever leaves a tab, leaves it in a call, for what that call was asked: the published
      identity has the content given to it, the signer is called with and the artifact made
      for the authorization wire given to it. The record belongs to the subject of the
      session under which the call began, and the X25519 row was pending with exactly its
      identity at some step of the call. And when the key is published, the signer called or
      the artifact handed out, the session is still that one, revision and subject, as every
      checked move of the call found it, the return of the signer among them. */
  lemma EventsLeaveUnderTheirSession(codec: Codec, start: State, schedule: seq<(nat, Step)>, t: nat, step: Step,
                                     event: Event)
    requires Initial(start) && t < |start.tabs|
    requires var s := After(codec, start, schedule); Do(codec, s, t, step).log == s.log + [event]
    ensures exists k :: LeavesInCall(codec, start, schedule, t, k, event)
  {
    var s := After(codec, start, schedule);
    WholeRun(codec, start, schedule, t);
    if s.tabs[t].progress == Idle {
      IdleBegins(codec, s, t, step, t);
      LongerIsOther(s.log, event);
    }
    var k := CallOf(codec, start, schedule, t);
    StepEmitsUnder(codec, s, t, step, schedule[k].1, TabAt(codec, start, schedule, t, k).session,
                   RowsFrom(codec, start, schedule, k), event);
    assert schedule[..|schedule|] == schedule;
    assert LeavesInCall(codec, start, schedule, t, k, event);
  }

  // --- what is signed --------------------------------------------------------

  /** The wire parses, for the subject and the proposal of the record, to an envelope that
      names exactly the device, the request, the binding and the key of the record. */
  ghost predicate IsWireFor(codec: Codec, wire: string, identity: Identity) {
    codec.envelope(wire, identity.subject, identity.pendingProposal) ==
    Some(Envelope(identity.deviceId, identity.requestId, identity.bindingId, identity.commitment,
                  identity.ed25519PublicKey, identity.contentDigest, identity.content))
  }

  /** In every run the signer is called only with a wire that is for the record it is called
      for, under a claim that repeats that record; and an artifact handed out is one made for
      such a wire, which the signature check approved. */
  lemma SignedWiresAreForTheirRecord(codec: Codec, start: State, schedule: seq<(nat, Step)>, claim: Claim,
                                     deviceId: string, attempt: Attempt)
    requires Initial(start)
    ensures var s := After(codec, start, schedule);
            && (SignEventCalled(claim) in s.log ==>
                  && claim.deviceId in s.db.keys
                  && var i := s.db.keys[claim.deviceId].identity;
                     && IsWireFor(codec, claim.authorizationWire, i)
                     && claim == Claim(claim.authorizationWire, i.deviceId, i.requestId, i.subject, i.bindingId,
                                       i.commitment, i.ed25519PublicKey, i.revision))
            && (HandedOut(deviceId, attempt) in s.log ==>
                  && deviceId in s.db.keys && IsWireFor(codec, attempt.authorizationWire, s.db.keys[deviceId].identity)
                  && codec.isApproval(attempt.authorizationWire, attempt.event))
  {
    var s := After(codec, start, schedule);
    InvOnEveryRun(codec, start, schedule);
    if SignEventCalled(claim) in s.log {
      assert EventOk(s.db, s.log, SignEventCalled(claim));
      assert RecordOk(codec, s, claim.deviceId);
    }
    if HandedOut(deviceId, attempt) in s.log {
      assert EventOk(s.db, s.log, HandedOut(deviceId, attempt));
      assert RecordOk(codec, s, deviceId);
    }
  }

  /** The claim stored beside an artifact is the one its wire makes for that record: a retry
      that asks with the wire of the artifact asks under the stored claim. */
  lemma StoredClaimIsOfItsWire(codec: Codec, start: State, schedule: seq<(nat, Step)>, deviceId: string)
    requires Initial(start)
    requires var keys := After(codec, start, schedule).db.keys; deviceId in keys && keys[deviceId].signedAttempt.Some?
    ensures var record := After(codec, start, schedule).db.keys[deviceId];
            record.signingClaim == ClaimOf(codec, record.signedAttempt.value.authorizationWire, record.identity)
  {
    InvOnEveryRun(codec, start, schedule);
    assert RecordOk(codec, After(codec, start, schedule), deviceId);
  }
}
