/** What the operations of the mobile session manager answer on runs: when a read returns
    its record, when an installation presents, when a logout succeeds and what it frees, and
    how long a record stays (src/server/social-mobile-session-v1.mjs,
    src/server/social-oauth-memory.mjs). */
module MobileAnswers {
  import opened Text
  import opened SessionStore
  import opened MobileSession

  // --- reads -----------------------------------------------------------------

  /** Every pending read holds a record that was stored under its identifier. */
  ghost predicate ReadsMatch(h: History, reading: set<(string, Session)>) {
    forall r :: r in reading ==>
                  && r.1.serial in h.created && h.created[r.1.serial].id == r.0
                  && h.created[r.1.serial].session == r.1
  }

  lemma FoundIsCreated(h: History, m: Manager, logouts: set<(string, Ticket)>, now: int, id: string)
    requires Consistent(h, m, logouts, now) && Found(m.store, now, id).Some?
    ensures var r := Found(m.store, now, id).value;
            && r.serial in h.created && h.created[r.serial].id == id && h.created[r.serial].session == r
            && r.serial !in h.denials && now < r.expiresAt
  {
    assert SlotMatches(h, id, m.store.entries[id]);
  }

  /** The record that stands under an identifier, undenied and unexpired. */
  ghost predicate IsReadable(w: World, id: string, record: Session) {
    && record.serial in w.h.created && w.h.created[record.serial].id == id
    && w.h.created[record.serial].session == record && record.serial !in w.h.denials && w.now < record.expiresAt
  }

  lemma BegunReadIsFound(m: Manager, now: int, id: string)
    ensures match ReadBegun(m, now, id).1
            case NotFound => true
            case Immediate(r) => Found(ManagerSwept(m, now).store, now, id) == Some(r) && r.kind == Desktop
            case AwaitResolve(r) => Found(ManagerSwept(m, now).store, now, id) == Some(r) && r.kind != Desktop
  {
  }

  lemma BegunReadIsCreated(config: Config, w: World, id: string)
    requires Inv(config, w) && ReadBegun(w.m, w.now, id).1 != NotFound
    ensures IsReadable(w, id, ReadBegun(w.m, w.now, id).1.session)
  {
    ManagerSweepingKeeps(config, w.h, w.m, w.logouts, w.now);
    BegunReadIsFound(w.m, w.now, id);
    FoundIsCreated(w.h, ManagerSwept(w.m, w.now), w.logouts, w.now, id);
  }

  lemma ReadingParts(config: Config, w: World, step: Step)
    ensures var after := Do(config, w, step);
            after.reading == if step.ReadBegin? && ReadBegun(w.m, w.now, step.id).1.AwaitResolve?
                             then w.reading + {(step.id, ReadBegun(w.m, w.now, step.id).1.session)} else w.reading
  {
  }

  lemma ReadsLast(h: History, later: History, reading: set<(string, Session)>)
    requires ReadsMatch(h, reading) && Extends(later, h)
    ensures ReadsMatch(later, reading)
  {
  }

  lemma ReadIsAdded(h: History, reading: set<(string, Session)>, id: string, record: Session)
    requires ReadsMatch(h, reading) && record.serial in h.created
    requires h.created[record.serial].id == id && h.created[record.serial].session == record
    ensures ReadsMatch(h, reading + {(id, record)})
  {
  }

  lemma StepKeepsReads(config: Config, w: World, step: Step)
    requires Inv(config, w) && ReadsMatch(w.h, w.reading)
    ensures ReadsMatch(Do(config, w, step).h, Do(config, w, step).reading)
  {
    NewSerialIsUnused(w.h, w.m, w.logouts, w.now);
    StepExtends(config, w, step);
    ReadingParts(config, w, step);
    if step.ReadBegin? && ReadBegun(w.m, w.now, step.id).1.AwaitResolve? {
      BegunReadIsCreated(config, w, step.id);
      ReadIsAdded(w.h, w.reading, step.id, ReadBegun(w.m, w.now, step.id).1.session);
    }
    ReadsLast(w.h, Do(config, w, step).h, Do(config, w, step).reading);
  }

  lemma {:induction false} EveryReadMatches(config: Config, now: int, schedule: seq<Step>)
    ensures ReadsMatch(After(config, now, schedule).h, After(config, now, schedule).reading)
    decreases |schedule|
  {
    if schedule != [] {
      var init := schedule[..|schedule| - 1];
      EveryReadMatches(config, now, init);
      InvOnEveryRun(config, now, init);
      StepKeepsReads(config, After(config, now, init), schedule[|schedule| - 1]);
    }
  }

  /** With fresh identifiers, beginning to read a record returns it at once or leaves the read
      waiting for the upstream, exactly while the record is undenied and unexpired. */
  lemma ReadBegins(config: Config, now: int, schedule: seq<Step>, s: nat)
    requires IdsAreFresh(After(config, now, schedule).h) && s in After(config, now, schedule).h.created
    ensures var w := After(config, now, schedule);
            var id, record := w.h.created[s].id, w.h.created[s].session;
            var after := Do(config, w, ReadBegin(id));
            if s in w.h.denials || w.now >= record.expiresAt then after.log == w.log && after.reading == w.reading
            else if record.kind == Desktop then after.log == w.log + [Returned(record)]
            else after.log == w.log && (id, record) in after.reading
  {
    var w := After(config, now, schedule);
    ReadsExactlyTheUndenied(config, now, schedule, s);
    ReadBeginAnswers(config, w, w.h.created[s].id);
  }

  lemma ReadBeginAnswers(config: Config, w: World, id: string)
    ensures var after := Do(config, w, ReadBegin(id));
            match ReadBegun(w.m, w.now, id).1
            case NotFound => after.log == w.log && after.reading == w.reading
            case Immediate(session) => after.log == w.log + [Returned(session)]
            case AwaitResolve(session) => after.log == w.log && (id, session) in after.reading
  {
  }

  /** With fresh identifiers, a waiting read completes with its record exactly if the upstream
      confirmed it, it is a record of the first mobile version, and it is still undenied and
      unexpired; in every other case it completes without one. */
  lemma WaitingReadCompletes(config: Config, now: int, schedule: seq<Step>, id: string, record: Session,
                             confirmed: bool)
    requires IdsAreFresh(After(config, now, schedule).h) && (id, record) in After(config, now, schedule).reading
    ensures var w := After(config, now, schedule);
            Do(config, w, ReadEnd(id, record, confirmed)).log ==
            if confirmed && record.kind == MobileV1 && record.serial !in w.h.denials && w.now < record.expiresAt
            then w.log + [Returned(record)] else w.log
  {
    var w := After(config, now, schedule);
    InvOnEveryRun(config, now, schedule);
    EveryReadMatches(config, now, schedule);
    assert (id, record).1 == record && (id, record).0 == id;
    FreshRead(w.h, w.m, w.logouts, w.now, record.serial);
    ReadEndAnswers(config, w, id, record, confirmed);
  }

  lemma ReadEndAnswers(config: Config, w: World, id: string, record: Session, confirmed: bool)
    requires (id, record) in w.reading
    ensures Do(config, w, ReadEnd(id, record, confirmed)).log ==
            if confirmed && record.kind == MobileV1 && Found(w.m.store, w.now, id) == Some(record)
               && id !in w.m.cancellations && w.now < record.expiresAt
            then w.log + [Returned(record)] else w.log
  {
  }

  /** Where a returned record came from: a step that read it while it was undenied and
      unexpired; for a mobile record the end of a waiting read, confirmed by the upstream. */
  ghost predicate ReturnedBy(w: World, step: Step, record: Session) {
    || (record.kind == Desktop && step.ReadBegin? && IsReadable(w, step.id, record))
    || (record.kind == MobileV1 && step.ReadEnd? && step.session == record && step.confirmed
        && IsReadable(w, step.id, record) && (step.id, record) in w.reading)
  }

  lemma ImmediateReturns(config: Config, w: World, id: string, record: Session)
    requires Inv(config, w) && ReadBegun(w.m, w.now, id).1 == Immediate(record)
    ensures ReturnedBy(w, ReadBegin(id), record)
  {
    BegunReadIsCreated(config, w, id);
    BegunReadIsFound(w.m, w.now, id);
  }

  lemma BegunReadReturns(config: Config, w: World, id: string, j: nat)
    requires Inv(config, w) && |w.log| <= j < |Do(config, w, ReadBegin(id)).log|
    ensures Do(config, w, ReadBegin(id)).log[j].Returned?
    ensures ReturnedBy(w, ReadBegin(id), Do(config, w, ReadBegin(id)).log[j].session)
  {
    ReadBeginAnswers(config, w, id);
    if ReadBegun(w.m, w.now, id).1.Immediate? {
      ImmediateReturns(config, w, id, ReadBegun(w.m, w.now, id).1.session);
    }
  }

  lemma EndedReadReturns(config: Config, w: World, id: string, record: Session, confirmed: bool, j: nat)
    requires Inv(config, w) && ReadsMatch(w.h, w.reading) && (id, record) in w.reading
    requires |w.log| <= j < |Do(config, w, ReadEnd(id, record, confirmed)).log|
    ensures Do(config, w, ReadEnd(id, record, confirmed)).log[j] == Returned(record)
    ensures ReturnedBy(w, ReadEnd(id, record, confirmed), record)
  {
    ReadEndAnswers(config, w, id, record, confirmed);
    assert (id, record).1 == record && (id, record).0 == id;
    FoundIsCreated(w.h, w.m, w.logouts, w.now, id);
  }

  lemma StepReturns(config: Config, w: World, step: Step, j: nat, record: Session)
    requires Inv(config, w) && ReadsMatch(w.h, w.reading)
    requires |w.log| <= j < |Do(config, w, step).log| && Do(config, w, step).log[j] == Returned(record)
    ensures ReturnedBy(w, step, record)
  {
    OnlyReadsReturn(config, w, step, j);
    match step
    case ReadBegin(id) => BegunReadReturns(config, w, id, j);
    case ReadEnd(id, session, confirmed) => EndedReadReturns(config, w, id, session, confirmed, j);
  }

  lemma OnlyReadsReturn(config: Config, w: World, step: Step, j: nat)
    requires |w.log| <= j < |Do(config, w, step).log| && Do(config, w, step).log[j].Returned?
    ensures step.ReadBegin? || (step.ReadEnd? && (step.id, step.session) in w.reading)
  {
  }

  /** Every record a run returns was returned by such a step. */
  lemma {:induction false} EveryReturnIsConfirmed(config: Config, now: int, schedule: seq<Step>, j: nat)
    requires j < |After(config, now, schedule).log| && After(config, now, schedule).log[j].Returned?
    ensures exists i :: 0 <= i < |schedule| && ReturnedBy(After(config, now, schedule[..i]), schedule[i],
                                                          After(config, now, schedule).log[j].session)
    decreases |schedule|
  {
    var n := |schedule| - 1;
    var init, last := schedule[..n], schedule[n];
    var w := After(config, now, init);
    if j < |w.log| {
      LogGrows(config, w, last);
      EveryReturnIsConfirmed(config, now, init, j);
      var i :| 0 <= i < n && ReturnedBy(After(config, now, init[..i]), init[i], w.log[j].session);
      assert init[..i] == schedule[..i];
    } else {
      InvOnEveryRun(config, now, init);
      EveryReadMatches(config, now, init);
      StepReturns(config, w, last, j, After(config, now, schedule).log[j].session);
    }
  }

  lemma LogGrows(config: Config, w: World, step: Step)
    ensures w.log <= Do(config, w, step).log
  {
  }

  // --- how long a record stays -----------------------------------------------

  /** The end of a record's retention, in milliseconds: an unfinished cancellation is retried
      for five minutes after the logout, or, where the second mobile version had expired
      before it, after that expiry; an undenied record stays until it expires, a mobile one
      five minutes longer. */
  ghost function StaysUntil(h: History, s: nat): int
    requires s in h.created
  {
    var record := h.created[s].session;
    if s in h.denials then
      (if record.kind == MobileV2 && record.expiresAt < h.denials[s].at then record.expiresAt else h.denials[s].at)
      + 300000
    else if record.kind == Desktop then record.expiresAt else record.expiresAt + 300000
  }

  lemma SlotStays(h: History, m: Manager, logouts: set<(string, Ticket)>, now: int, k: string)
    requires Consistent(h, m, logouts, now) && k in m.store.entries
    ensures var s := m.store.entries[k].session.serial;
            s in h.created && h.created[s].id == k && Deadline(m.store.entries[k]) == StaysUntil(h, s)
  {
    assert SlotMatches(h, k, m.store.entries[k]);
  }

  /** A sweep leaves a record in its slot exactly while its retention runs, unless an
      acknowledged logout has freed the slot before. */
  lemma SweepKeepsExactlyTheRetained(config: Config, now: int, schedule: seq<Step>, s: nat)
    requires s in After(config, now, schedule).h.created
    ensures var w := After(config, now, schedule);
            var swept := Do(config, w, Sweep);
            && (IsHeld(swept.h, swept.m.store, s) ==> w.now < StaysUntil(w.h, s))
            && (w.now < StaysUntil(w.h, s) && s !in w.m.store.confirmed ==> IsHeld(swept.h, swept.m.store, s))
  {
    var w := After(config, now, schedule);
    InvOnEveryRun(config, now, schedule);
    ManagerSweepingKeeps(config, w.h, w.m, w.logouts, w.now);
    SweepSweeps(config, w);
    var swept := ManagerSwept(w.m, w.now);
    StaysIsRetained(w.h, s, w.now);
    SweptTwice(w.m, w.now);
    if IsHeld(w.h, swept.store, s) {
      SlotStays(w.h, swept, w.logouts, w.now, w.h.created[s].id);
      SweptIsLive(swept.store, w.now, w.h.created[s].id);
    }
  }

  lemma SweptIsLive(store: Store, now: int, k: string)
    requires Swept(store, now) == store && k in store.entries
    ensures now < Deadline(store.entries[k])
  {
    assert k in Swept(store, now).entries;
  }

  lemma StaysIsRetained(h: History, s: nat, now: int)
    requires s in h.created && DenialsAreFixed(h, now)
    ensures RetainedUntil(h, s) == StaysUntil(h, s)
  {
  }

  // --- creations -------------------------------------------------------------

  /** The keys whose records are retained. */
  ghost function Retained(w: World): set<string> {
    set k | k in w.m.store.entries && w.m.store.entries[k].session.serial in w.h.created
            && w.now < StaysUntil(w.h, w.m.store.entries[k].session.serial)
  }

  lemma RetainedAreSwept(config: Config, w: World)
    requires Inv(config, w)
    ensures Swept(w.m.store, w.now).entries.Keys == Retained(w)
  {
    forall k | k in w.m.store.entries
      ensures k in Swept(w.m.store, w.now).entries <==> k in Retained(w)
    {
      SlotStays(w.h, w.m, w.logouts, w.now, k);
    }
  }

  /** A creation stores its record, under the next serial and nothing else, exactly if it has
      a key that no retained record holds and fewer than `storeCapacity` are retained. */
  lemma CreatesWhileThereIsRoom(config: Config, now: int, schedule: seq<Step>, id: string, session: Session)
    requires session.kind != MobileV1
    ensures var w := After(config, now, schedule);
            var after, serial := Do(config, w, Create(id, session)), w.m.store.nextSerial;
            if id != "" && id !in Retained(w) && |Retained(w)| < config.storeCapacity
            then && after.h.created == w.h.created[serial := Creation(id, session.(serial := serial), w.now)]
                 && after.h.denials == w.h.denials && id in after.m.store.entries
                 && after.m.store.entries[id] == Slot(session.(serial := serial), None)
            else after.h == w.h && after.m.store.entries.Keys == Retained(w)
  {
    var w := After(config, now, schedule);
    InvOnEveryRun(config, now, schedule);
    RetainedAreSwept(config, w);
    assert |Retained(w)| == |Swept(w.m.store, w.now).entries|;
    CreationAnswers(config, w, id, session);
  }

  lemma CreationAnswers(config: Config, w: World, id: string, session: Session)
    requires session.kind != MobileV1
    ensures var after, serial := Do(config, w, Create(id, session)), w.m.store.nextSerial;
            var swept := Swept(w.m.store, w.now);
            if id != "" && id !in swept.entries && |swept.entries| < config.storeCapacity
            then && after.h == WithCreation(w.h, serial, id, session, w.now) && id in after.m.store.entries
                 && after.m.store.entries[id] == Slot(session.(serial := serial), None)
            else after.h == w.h && after.m.store.entries == swept.entries
  {
  }

  // --- installations ---------------------------------------------------------

  /** A repeated installation of a stored issuance that is undenied and unexpired presents
      the alias it has, exactly if the response is the stored record and has a second left;
      it never stores another record. */
  lemma KnownIssuancePresents(config: Config, now: int, schedule: seq<Step>, s: nat, random: string, response: Session)
    requires var w := After(config, now, schedule);
             && IdsAreFresh(w.h) && s in w.h.created && s !in w.h.denials
             && w.h.created[s].session.kind == MobileV1 && w.now < w.h.created[s].session.expiresAt
             && response.issuanceId == w.h.created[s].session.issuanceId
    ensures var w := After(config, now, schedule);
            var record, after := w.h.created[s].session, Do(config, w, InstallEnd(random, response));
            && after.h == w.h
            && after.log ==
               if response.subject == record.subject && response.token == record.token
                  && response.issuedAt == record.issuedAt && response.expiresAt == record.expiresAt
                  && response.issuedAt <= w.now && response.expiresAt - w.now >= 1000
               then w.log + [Presented(w.h.created[s].id, response)] else w.log
  {
    var w := After(config, now, schedule);
    InvOnEveryRun(config, now, schedule);
    FreshRead(w.h, w.m, w.logouts, w.now, s);
    assert w.m.store.entries[w.h.created[s].id].session == w.h.created[s].session;
    KnownAnswers(config, w, w.h.created[s].id, w.h.created[s].session, random, response);
  }

  lemma KnownAnswers(config: Config, w: World, id: string, record: Session, random: string, response: Session)
    requires response.issuanceId == record.issuanceId && record.issuanceId in w.m.aliases
    requires w.m.aliases[record.issuanceId] == id
    requires Found(w.m.store, w.now, id) == Some(record) && id !in w.m.cancellations
    ensures var after := Do(config, w, InstallEnd(random, response));
            && after.h == w.h
            && after.log == if response.subject == record.subject && response.token == record.token
                               && response.issuedAt == record.issuedAt && response.expiresAt == record.expiresAt
                               && response.issuedAt <= w.now && response.expiresAt - w.now >= 1000
                            then w.log + [Presented(id, response)] else w.log
  {
  }

  /** An issuance without an alias is stored and presented under the drawn identifier, exactly
      if the response has the form of a mobile record that began, lasts five minutes at most
      and has a second left, the identifier is free and there is room. */
  lemma NewIssuancePresents(config: Config, now: int, schedule: seq<Step>, random: string, response: Session)
    requires response.issuanceId !in After(config, now, schedule).m.aliases
    ensures var w := After(config, now, schedule);
            var after, serial := Do(config, w, InstallEnd(random, response)), w.m.store.nextSerial;
            if response.kind == MobileV1 && IsLowerHex(response.subject, 64) && IsLowerHex(response.issuanceId, 64)
               && response.issuedAt % 1000 == 0 && response.expiresAt % 1000 == 0
               && response.issuedAt <= w.now && response.expiresAt - w.now >= 1000
               && response.expiresAt - response.issuedAt <= 300000
               && random != "" && random !in Retained(w) && |Retained(w)| < config.storeCapacity
            then && after.log == w.log + [Presented(random, response)]
                 && after.h == WithCreation(w.h, serial, random, response, w.now)
                 && response.issuanceId in after.m.aliases && after.m.aliases[response.issuanceId] == random
            else after.log == w.log && after.h == w.h
  {
    var w := After(config, now, schedule);
    InvOnEveryRun(config, now, schedule);
    RetainedAreSwept(config, w);
    assert |Retained(w)| == |Swept(w.m.store, w.now).entries|;
    NewAnswers(config, w, random, response);
  }

  lemma NewAnswers(config: Config, w: World, random: string, response: Session)
    requires response.issuanceId !in w.m.aliases
    ensures var swept := Swept(w.m.store, w.now);
            var after, serial := Do(config, w, InstallEnd(random, response)), w.m.store.nextSerial;
            if response.kind == MobileV1 && IsLowerHex(response.subject, 64) && IsLowerHex(response.issuanceId, 64)
               && response.issuedAt % 1000 == 0 && response.expiresAt % 1000 == 0
               && response.issuedAt <= w.now && response.expiresAt - w.now >= 1000
               && response.expiresAt - response.issuedAt <= 300000
               && random != "" && random !in swept.entries && |swept.entries| < config.storeCapacity
            then && after.log == w.log + [Presented(random, response)]
                 && after.h == WithCreation(w.h, serial, random, response, w.now)
                 && response.issuanceId in after.m.aliases && after.m.aliases[response.issuanceId] == random
            else after.log == w.log && after.h == w.h
  {
  }

  // --- logouts ---------------------------------------------------------------

  /** The identifiers whose cancellations are still retried. */
  ghost function Retried(w: World): set<string> {
    set k | k in w.m.cancellations && w.now < w.m.cancellations[k].until
  }

  /** A logout adds its identifier to the retry map, if it finds a ticket and there is room;
      and it forgets what has run out. */
  lemma LogoutTracks(config: Config, w: World, id: string)
    ensures Do(config, w, LogoutBegin(id)).m.cancellations.Keys ==
            if LogoutBegun(w.m, config.capacity, w.now, id).1.Some? && |Retried(w)| < config.capacity
            then Retried(w) + {id} else Retried(w)
  {
    var swept := ManagerSwept(w.m, w.now);
    assert swept.cancellations.Keys == Retried(w) && |swept.cancellations| == |Retried(w)|;
    DenialTracks(swept, config.capacity, w.now, id);
    LogoutBeginParts(config, w, LogoutBegin(id));
  }

  lemma DenialTracks(m: Manager, capacity: nat, now: int, id: string)
    ensures JoinedOrDenied(m, capacity, now, id).0.cancellations.Keys ==
            if JoinedOrDenied(m, capacity, now, id).1.Some? && |m.cancellations| < capacity
            then m.cancellations.Keys + {id} else m.cancellations.Keys
  {
  }

  /** With fresh identifiers, a logout of a retained record denies it from then on: its slot
      and the waiting logout hold one ticket, fixed by the first denial. */
  lemma LogoutBegins(config: Config, now: int, schedule: seq<Step>, s: nat)
    requires var w := After(config, now, schedule);
             && IdsAreFresh(w.h) && s in w.h.created && s !in w.m.store.confirmed && w.now < StaysUntil(w.h, s)
    ensures var w := After(config, now, schedule);
            var id := w.h.created[s].id;
            var after := Do(config, w, LogoutBegin(id));
            && after.log == w.log + [Denied(s)] && s in after.h.denials
            && after.h.denials[s].at == (if s in w.h.denials then w.h.denials[s].at else w.now)
            && (id, after.h.denials[s].ticket) in after.logouts
            && id in after.m.store.entries && after.m.store.entries[id].session == w.h.created[s].session
            && after.m.store.entries[id].logout == Some(after.h.denials[s].ticket)
  {
    var w := After(config, now, schedule);
    InvOnEveryRun(config, now, schedule);
    StaysIsRetained(w.h, s, w.now);
    LogoutFindsItsRecord(config, now, schedule, s);
    var id := w.h.created[s].id;
    LogoutBeginParts(config, w, LogoutBegin(id));
    LogoutBeginAnswers(config, w, id);
    LogoutBeginKeeps(config, w, LogoutBegin(id));
    var after := Do(config, w, LogoutBegin(id));
  }

  /** The retry map holds its identifier as well, unless it is full of others. */
  lemma LogoutIsRetried(config: Config, now: int, schedule: seq<Step>, s: nat)
    requires var w := After(config, now, schedule);
             && IdsAreFresh(w.h) && s in w.h.created && s !in w.m.store.confirmed && w.now < StaysUntil(w.h, s)
    ensures var w := After(config, now, schedule);
            Do(config, w, LogoutBegin(w.h.created[s].id)).m.cancellations.Keys ==
            if |Retried(w)| < config.capacity then Retried(w) + {w.h.created[s].id} else Retried(w)
  {
    FindsATicket(config, now, schedule, s);
    LogoutTracks(config, After(config, now, schedule), After(config, now, schedule).h.created[s].id);
  }

  lemma FindsATicket(config: Config, now: int, schedule: seq<Step>, s: nat)
    requires var w := After(config, now, schedule);
             && IdsAreFresh(w.h) && s in w.h.created && s !in w.m.store.confirmed && w.now < StaysUntil(w.h, s)
    ensures var w := After(config, now, schedule);
            LogoutBegun(w.m, config.capacity, w.now, w.h.created[s].id).1.Some?
  {
    InvOnEveryRun(config, now, schedule);
    StaysIsRetained(After(config, now, schedule).h, s, After(config, now, schedule).now);
    LogoutFindsItsRecord(config, now, schedule, s);
  }

  /** And wherever both a denied slot and the retry map hold an identifier, they hold one
      ticket. */
  lemma OneTicketPerIdentifier(config: Config, now: int, schedule: seq<Step>, id: string)
    requires var m := After(config, now, schedule).m;
             id in m.store.entries && m.store.entries[id].logout.Some? && id in m.cancellations
    ensures var m := After(config, now, schedule).m; m.store.entries[id].logout == Some(m.cancellations[id])
  {
    InvOnEveryRun(config, now, schedule);
  }

  lemma LogoutBeginAnswers(config: Config, w: World, id: string)
    ensures var after, ticket := Do(config, w, LogoutBegin(id)), LogoutBegun(w.m, config.capacity, w.now, id).1;
            if ticket.None? then after.log == w.log && after.logouts == w.logouts
            else after.log == w.log + [Denied(ticket.value.original.serial)]
                 && after.logouts == w.logouts + {(id, ticket.value)}
  {
  }

  lemma ConfirmedIsAcknowledged(config: Config, w: World, s: nat)
    requires Inv(config, w)
    ensures s in w.m.store.confirmed <==> Acknowledged(s) in w.log
  {
  }

  /** A waiting logout succeeds exactly if the upstream acknowledges it, now or before;
      otherwise it fails and changes nothing. */
  lemma LogoutEnds(config: Config, now: int, schedule: seq<Step>, id: string, ticket: Ticket, acknowledged: bool)
    requires (id, ticket) in After(config, now, schedule).logouts
    ensures var w, s := After(config, now, schedule), ticket.original.serial;
            var after := Do(config, w, LogoutEnd(id, ticket, acknowledged));
            if Acknowledged(s) in w.log || acknowledged
            then after.log == w.log + (if Acknowledged(s) in w.log then [] else [Acknowledged(s)]) + [LoggedOut(s)]
            else after == w
  {
    InvOnEveryRun(config, now, schedule);
    ConfirmedIsAcknowledged(config, After(config, now, schedule), ticket.original.serial);
    LogoutEndAnswers(config, After(config, now, schedule), id, ticket, acknowledged);
  }

  /** A logout that succeeds frees the slot of its record, if the retry map holds its
      ticket; and it leaves the retry map as it is. */
  lemma LogoutFreesItsSlot(config: Config, w: World, id: string, ticket: Ticket, acknowledged: bool)
    requires (id, ticket) in w.logouts && (ticket.original.serial in w.m.store.confirmed || acknowledged)
    ensures var after := Do(config, w, LogoutEnd(id, ticket, acknowledged));
            && after.m.cancellations == w.m.cancellations
            && (id in w.m.cancellations && w.m.cancellations[id] == ticket && id in after.m.store.entries ==>
                  after.m.store.entries[id].session != ticket.original)
  {
    LogoutEndAnswers(config, w, id, ticket, acknowledged);
  }

  lemma LogoutEndAnswers(config: Config, w: World, id: string, ticket: Ticket, acknowledged: bool)
    requires (id, ticket) in w.logouts
    ensures var s, after := ticket.original.serial, Do(config, w, LogoutEnd(id, ticket, acknowledged));
            if s in w.m.store.confirmed || acknowledged
            then && after.log == w.log + (if s in w.m.store.confirmed then [] else [Acknowledged(s)]) + [LoggedOut(s)]
                 && after.m.cancellations == w.m.cancellations && after.h == w.h
                 && (id in w.m.cancellations && w.m.cancellations[id] == ticket && id in after.m.store.entries ==>
                       after.m.store.entries[id].session != ticket.original)
            else after == w
  {
  }

  // --- identifiers being cancelled -------------------------------------------

  /** While an identifier is being cancelled, no read of it begins or completes and no
      installation presents it, whatever record its slot may hold. */
  lemma CancelledIdentifiersAreClosed(config: Config, w: World, id: string, record: Session, confirmed: bool,
                                      random: string)
    requires id in Retried(w)
    ensures Do(config, w, ReadBegin(id)).log == w.log && Do(config, w, ReadBegin(id)).reading == w.reading
    ensures Do(config, w, ReadEnd(id, record, confirmed)).log == w.log
    ensures record.issuanceId in w.m.aliases && w.m.aliases[record.issuanceId] == id ==>
              Do(config, w, InstallEnd(random, record)).log == w.log
  {
    assert id in ManagerSwept(w.m, w.now).cancellations;
    ReadBeginAnswers(config, w, id);
    if (id, record) in w.reading {
      ReadEndAnswers(config, w, id, record, confirmed);
    }
    if record.issuanceId in w.m.aliases && w.m.aliases[record.issuanceId] == id {
      CancelledAnswers(config, w, id, random, record);
    }
  }

  lemma CancelledAnswers(config: Config, w: World, id: string, random: string, record: Session)
    requires id in w.m.cancellations && record.issuanceId in w.m.aliases && w.m.aliases[record.issuanceId] == id
    ensures Do(config, w, InstallEnd(random, record)).log == w.log
  {
  }
}
