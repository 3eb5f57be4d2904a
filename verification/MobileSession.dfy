/** Runs of the mobile session manager: reads, logouts and installations split at their
    awaits, interleaved with each other, with other creations in the shared store, with
    upstream answers of every kind and with the passing of time
    (src/server/social-mobile-session-v1.mjs). */
module MobileSession {
  import opened Text
  import opened SessionStore

  datatype Config = Config(storeCapacity: nat, capacity: nat)

  /** Where, as what and when a record was stored. */
  datatype Creation = Creation(id: string, session: Session, at: int)

  /** The first denial of a record. */
  datatype Denial = Denial(ticket: Ticket, at: int)

  /** What happened so far, by serial. */
  datatype History = History(created: map<nat, Creation>, denials: map<nat, Denial>)

  datatype Event =
    | Returned(session: Session)                // a read completed with this record
    | Denied(serial: nat)                       // a logout passed its first synchronous stretch
    | Acknowledged(serial: nat)                 // the upstream confirmed a cancellation
    | LoggedOut(serial: nat)                    // a logout reported success
    | Presented(id: string, session: Session)   // an installation returned an alias

  datatype World = World(
    m: Manager, now: int, h: History, reading: set<(string, Session)>, logouts: set<(string, Ticket)>, log: seq<Event>)

  datatype Step =
    | Tick(ms: nat)
    | Sweep
    | Create(id: string, session: Session)      // a desktop or native record, by the store's other callers
    | ReadBegin(id: string)
    | ReadEnd(id: string, session: Session, confirmed: bool)
    | LogoutBegin(id: string)
    | LogoutEnd(id: string, ticket: Ticket, acknowledged: bool)
    | InstallEnd(random: string, session: Session)

  function WithCreation(h: History, serial: nat, id: string, session: Session, now: int): History {
    h.(created := h.created[serial := Creation(id, session.(serial := serial), now)])
  }

  function DeniedNow(h: History, ticket: Ticket, now: int): History {
    if ticket.original.serial in h.denials then h
    else h.(denials := h.denials[ticket.original.serial := Denial(ticket, now)])
  }

  function DoCreate(config: Config, w: World, id: string, session: Session): World {
    if session.kind == MobileV1 then w
    else
      var (store, created) := Created(w.m.store, config.storeCapacity, w.now, id, session);
      w.(m := w.m.(store := store),
         h := if created then WithCreation(w.h, w.m.store.nextSerial, id, session, w.now) else w.h)
  }

  function DoReadBegin(w: World, id: string): World {
    var (m, start) := ReadBegun(w.m, w.now, id);
    match start
    case NotFound => w.(m := m)
    case Immediate(session) => w.(m := m, log := w.log + [Returned(session)])
    case AwaitResolve(session) => w.(m := m, reading := w.reading + {(id, session)})
  }

  function DoReadEnd(w: World, id: string, session: Session, confirmed: bool): World {
    if (id, session) !in w.reading then w
    else
      var (m, result) := ReadEnded(w.m, w.now, id, session, confirmed);
      w.(m := m, log := if result.Some? then w.log + [Returned(result.value)] else w.log)
  }

  function DoLogoutBegin(config: Config, w: World, id: string): World {
    var (m, ticket) := LogoutBegun(w.m, config.capacity, w.now, id);
    if ticket.None? then w.(m := m)
    else w.(m := m, h := DeniedNow(w.h, ticket.value, w.now), logouts := w.logouts + {(id, ticket.value)},
            log := w.log + [Denied(ticket.value.original.serial)])
  }

  function DoLogoutEnd(w: World, id: string, ticket: Ticket, acknowledged: bool): World {
    if (id, ticket) !in w.logouts then w
    else
      var serial := ticket.original.serial;
      var (m, done) := LogoutEnded(w.m, w.now, id, ticket, acknowledged);
      if !done then w.(m := m)
      else w.(m := m, log := w.log + (if serial in w.m.store.confirmed then [] else [Acknowledged(serial)])
                             + [LoggedOut(serial)])
  }

  function DoInstallEnd(config: Config, w: World, random: string, session: Session): World {
    var (m, alias) := InstallEnded(w.m, config.storeCapacity, w.now, random, session);
    if alias.None? then w.(m := m)
    else w.(m := m, h := if session.issuanceId in w.m.aliases then w.h
                         else WithCreation(w.h, w.m.store.nextSerial, random, session, w.now),
            log := w.log + [Presented(alias.value, session)])
  }

  function Do(config: Config, w: World, step: Step): World {
    match step
    case Tick(ms) => w.(now := w.now + ms)
    case Sweep => w.(m := ManagerSwept(w.m, w.now))
    case Create(id, session) => DoCreate(config, w, id, session)
    case ReadBegin(id) => DoReadBegin(w, id)
    case ReadEnd(id, session, confirmed) => DoReadEnd(w, id, session, confirmed)
    case LogoutBegin(id) => DoLogoutBegin(config, w, id)
    case LogoutEnd(id, ticket, acknowledged) => DoLogoutEnd(w, id, ticket, acknowledged)
    case InstallEnd(random, session) => DoInstallEnd(config, w, random, session)
  }

  function Start(now: int): World {
    World(Manager(Store(map[], {}, 0), map[], map[]), now, History(map[], map[]), {}, {}, [])
  }

  function After(config: Config, now: int, schedule: seq<Step>): World {
    if schedule == [] then Start(now)
    else Do(config, After(config, now, schedule[..|schedule| - 1]), schedule[|schedule| - 1])
  }

  // --- what every run keeps --------------------------------------------------

  function DenialOf(h: History, serial: nat): Option<Ticket> {
    if serial in h.denials then Some(h.denials[serial].ticket) else None
  }

  /** The end of a record's retention. */
  function RetainedUntil(h: History, serial: nat): int
    requires serial in h.created
  {
    Deadline(Slot(h.created[serial].session, DenialOf(h, serial)))
  }

  ghost predicate CreationsAreOrderly(h: History, nextSerial: nat, now: int) {
    forall s :: s in h.created ==>
                  && s < nextSerial && h.created[s].session.serial == s && h.created[s].at <= now
                  && (h.created[s].session.kind == MobileV1 ==>
                        h.created[s].session.expiresAt <= h.created[s].at + RETENTION_MS)
  }

  ghost predicate DenialsAreFixed(h: History, now: int) {
    forall s :: s in h.denials ==>
                  && s in h.created && h.denials[s].ticket.original == h.created[s].session
                  && h.created[s].at <= h.denials[s].at <= now
                  && h.denials[s].ticket.until == LogoutDeadline(h.created[s].session, h.denials[s].at)
  }

  predicate SlotMatches(h: History, id: string, slot: Slot) {
    var s := slot.session.serial;
    && s in h.created && h.created[s].id == id && h.created[s].session == slot.session && slot.logout == DenialOf(h, s)
  }

  ghost predicate SlotsMatch(h: History, store: Store) {
    forall k :: k in store.entries ==> SlotMatches(h, k, store.entries[k])
  }

  predicate IsDenial(h: History, id: string, ticket: Ticket) {
    var s := ticket.original.serial;
    s in h.created && h.created[s].id == id && s in h.denials && h.denials[s].ticket == ticket
  }

  ghost predicate TicketsMatch(h: History, m: Manager, logouts: set<(string, Ticket)>) {
    && (forall id :: id in m.cancellations ==> IsDenial(h, id, m.cancellations[id]))
    && (forall l :: l in logouts ==> IsDenial(h, l.0, l.1))
    && m.store.confirmed <= h.denials.Keys
  }

  predicate IsHeld(h: History, store: Store, s: nat)
    requires s in h.created
  {
    h.created[s].id in store.entries && store.entries[h.created[s].id].session.serial == s
  }

  /** No record leaves the store before its deadline, except by an acknowledged logout. */
  ghost predicate RecordsAreHeld(h: History, store: Store, now: int) {
    forall s :: s in h.created ==> s in store.confirmed || RetainedUntil(h, s) <= now || IsHeld(h, store, s)
  }

  ghost predicate OneAliasPerIssuance(m: Manager) {
    forall k :: k in m.store.entries && m.store.entries[k].session.kind == MobileV1 ==>
                  && m.store.entries[k].session.issuanceId in m.aliases
                  && m.aliases[m.store.entries[k].session.issuanceId] == k
  }

  /** A denied slot and the retry map hold the same ticket. */
  ghost predicate OneTicketPerSlot(m: Manager) {
    forall k :: k in m.cancellations && k in m.store.entries && m.store.entries[k].logout.Some? ==>
                  m.store.entries[k].logout == Some(m.cancellations[k])
  }

  predicate IsBounded(config: Config, m: Manager) {
    |m.store.entries| <= config.storeCapacity && |m.cancellations| <= config.capacity
  }

  ghost predicate Consistent(h: History, m: Manager, logouts: set<(string, Ticket)>, now: int) {
    && CreationsAreOrderly(h, m.store.nextSerial, now)
    && DenialsAreFixed(h, now)
    && SlotsMatch(h, m.store)
    && TicketsMatch(h, m, logouts)
    && RecordsAreHeld(h, m.store, now)
    && OneAliasPerIssuance(m)
    && OneTicketPerSlot(m)
  }

  /** The log tells of denials and acknowledgements exactly what the history and the
      tickets hold. */
  ghost predicate LogMatches(denied: set<nat>, confirmed: set<nat>, log: seq<Event>) {
    && (forall s :: s in denied <==> Denied(s) in log)
    && (forall s :: s in confirmed <==> Acknowledged(s) in log)
  }

  lemma LogQuiet(denied: set<nat>, confirmed: set<nat>, log: seq<Event>, event: Event)
    requires LogMatches(denied, confirmed, log) && !event.Denied? && !event.Acknowledged?
    ensures LogMatches(denied, confirmed, log + [event])
  {
  }

  lemma LogDenial(denied: set<nat>, confirmed: set<nat>, log: seq<Event>, serial: nat)
    requires LogMatches(denied, confirmed, log)
    ensures LogMatches(denied + {serial}, confirmed, log + [Denied(serial)])
  {
  }

  lemma LogLogout(denied: set<nat>, confirmed: set<nat>, log: seq<Event>, serial: nat)
    requires LogMatches(denied, confirmed, log)
    ensures LogMatches(denied, confirmed + {serial},
                       log + (if serial in confirmed then [] else [Acknowledged(serial)]) + [LoggedOut(serial)])
  {
  }

  // --- the parts of a step ---------------------------------------------------

  lemma SweepingKeeps(h: History, m: Manager, logouts: set<(string, Ticket)>, now: int)
    requires Consistent(h, m, logouts, now)
    ensures Consistent(h, m.(store := Swept(m.store, now)), logouts, now)
    ensures |Swept(m.store, now).entries| <= |m.store.entries|
  {
    var store := Swept(m.store, now);
    forall s | s in h.created && s !in store.confirmed && RetainedUntil(h, s) > now
      ensures IsHeld(h, store, s)
    {
      assert IsHeld(h, m.store, s);
      assert SlotMatches(h, h.created[s].id, m.store.entries[h.created[s].id]);
    }
    FewerKeys(store.entries, m.store.entries);
  }

  lemma FewerKeys<K, V>(a: map<K, V>, b: map<K, V>)
    requires a.Keys <= b.Keys
    ensures |a| <= |b|
  {
    assert |b.Keys - a.Keys| == |b.Keys| - |a.Keys|;
  }

  lemma ReleasingKeepsHeld(h: History, m: Manager, logouts: set<(string, Ticket)>, now: int)
    requires Consistent(h, m, logouts, now)
    ensures RecordsAreHeld(h, m.store.(entries := m.store.entries - Released(m, now)), now)
  {
    var store := m.store.(entries := m.store.entries - Released(m, now));
    forall s | s in h.created && s !in store.confirmed && RetainedUntil(h, s) > now
      ensures IsHeld(h, store, s)
    {
      var id := h.created[s].id;
      assert IsHeld(h, m.store, s);
      assert SlotMatches(h, id, m.store.entries[id]);
      assert id in m.cancellations ==> IsDenial(h, id, m.cancellations[id]);
    }
  }

  lemma ReleasingKeeps(h: History, m: Manager, logouts: set<(string, Ticket)>, now: int, after: Manager)
    requires Consistent(h, m, logouts, now)
    requires after.store == m.store.(entries := m.store.entries - Released(m, now))
    requires after.cancellations == Outstanding(m.cancellations, now)
    requires after.aliases == map i | i in m.aliases && m.aliases[i] in after.store.entries :: m.aliases[i]
    ensures Consistent(h, after, logouts, now)
  {
    ReleasingKeepsHeld(h, m, logouts, now);
    assert SlotsMatch(h, after.store);
    assert TicketsMatch(h, after, logouts);
  }

  lemma ManagerSweepingKeeps(config: Config, h: History, m: Manager, logouts: set<(string, Ticket)>, now: int)
    requires Consistent(h, m, logouts, now) && IsBounded(config, m)
    ensures Consistent(h, ManagerSwept(m, now), logouts, now) && IsBounded(config, ManagerSwept(m, now))
  {
    SweepingKeeps(h, m, logouts, now);
    var swept := m.(store := Swept(m.store, now));
    ReleasingKeeps(h, swept, logouts, now, ManagerSwept(m, now));
    FewerKeys(ManagerSwept(m, now).store.entries, swept.store.entries);
    FewerKeys(ManagerSwept(m, now).cancellations, m.cancellations);
  }

  function WithRecord(m: Manager, id: string, session: Session): Manager {
    var serial := m.store.nextSerial;
    Manager(Store(m.store.entries[id := Slot(session.(serial := serial), None)], m.store.confirmed, serial + 1),
            m.cancellations,
            if session.kind == MobileV1 then m.aliases[session.issuanceId := id] else m.aliases)
  }

  lemma NewSerialIsUnused(h: History, m: Manager, logouts: set<(string, Ticket)>, now: int)
    requires Consistent(h, m, logouts, now)
    ensures m.store.nextSerial !in h.created && m.store.nextSerial !in h.denials
  {
  }

  lemma RecordingKeepsHistory(h: History, m: Manager, logouts: set<(string, Ticket)>, now: int, id: string,
                              session: Session)
    requires Consistent(h, m, logouts, now)
    requires session.kind == MobileV1 ==> session.expiresAt <= now + RETENTION_MS
    ensures var h2 := WithCreation(h, m.store.nextSerial, id, session, now);
            && CreationsAreOrderly(h2, m.store.nextSerial + 1, now) && DenialsAreFixed(h2, now)
            && TicketsMatch(h2, WithRecord(m, id, session), logouts)
  {
    NewSerialIsUnused(h, m, logouts, now);
  }

  lemma RecordingKeepsSlots(h: History, m: Manager, logouts: set<(string, Ticket)>, now: int, id: string,
                            session: Session)
    requires Consistent(h, m, logouts, now) && id !in m.store.entries
    ensures SlotsMatch(WithCreation(h, m.store.nextSerial, id, session, now), WithRecord(m, id, session).store)
  {
    NewSerialIsUnused(h, m, logouts, now);
    var h2, store := WithCreation(h, m.store.nextSerial, id, session, now), WithRecord(m, id, session).store;
    forall k | k in store.entries ensures SlotMatches(h2, k, store.entries[k]) {
      assert k == id || SlotMatches(h, k, m.store.entries[k]);
    }
  }

  lemma RecordingKeepsHeld(h: History, m: Manager, logouts: set<(string, Ticket)>, now: int, id: string,
                           session: Session)
    requires Consistent(h, m, logouts, now) && id !in m.store.entries
    ensures RecordsAreHeld(WithCreation(h, m.store.nextSerial, id, session, now), WithRecord(m, id, session).store, now)
  {
    NewSerialIsUnused(h, m, logouts, now);
    var serial, store := m.store.nextSerial, WithRecord(m, id, session).store;
    var h2 := WithCreation(h, serial, id, session, now);
    forall s | s in h2.created && s !in store.confirmed && RetainedUntil(h2, s) > now
      ensures IsHeld(h2, store, s)
    {
      if s != serial {
        assert RetainedUntil(h2, s) == RetainedUntil(h, s);
        assert IsHeld(h, m.store, s);
      }
    }
  }

  lemma RecordingKeepsAliases(h: History, m: Manager, logouts: set<(string, Ticket)>, now: int, id: string,
                              session: Session)
    requires Consistent(h, m, logouts, now) && id !in m.store.entries
    requires session.kind == MobileV1 ==> session.issuanceId !in m.aliases
    ensures OneAliasPerIssuance(WithRecord(m, id, session))
  {
  }

  /** Storing a record under a free key. */
  lemma CreatingKeeps(h: History, m: Manager, logouts: set<(string, Ticket)>, now: int, id: string, session: Session)
    requires Consistent(h, m, logouts, now) && id !in m.store.entries
    requires session.kind == MobileV1 ==> session.issuanceId !in m.aliases && session.expiresAt <= now + RETENTION_MS
    ensures Consistent(WithCreation(h, m.store.nextSerial, id, session, now), WithRecord(m, id, session), logouts, now)
  {
    RecordingKeepsHistory(h, m, logouts, now, id, session);
    RecordingKeepsSlots(h, m, logouts, now, id, session);
    RecordingKeepsHeld(h, m, logouts, now, id, session);
    RecordingKeepsAliases(h, m, logouts, now, id, session);
  }

  function WithDenial(m: Manager, id: string, ticket: Ticket): Manager
    requires id in m.store.entries
  {
    m.(store := m.store.(entries := m.store.entries[id := m.store.entries[id].(logout := Some(ticket))]))
  }

  lemma DenyingKeepsHeld(h: History, m: Manager, logouts: set<(string, Ticket)>, now: int, id: string, ticket: Ticket)
    requires Consistent(h, m, logouts, now)
    requires id in m.store.entries && m.store.entries[id].session == ticket.original
    requires ticket.original.serial !in h.denials
    ensures RecordsAreHeld(DeniedNow(h, ticket, now), WithDenial(m, id, ticket).store, now)
  {
    var h2, store := DeniedNow(h, ticket, now), WithDenial(m, id, ticket).store;
    assert SlotMatches(h, id, m.store.entries[id]);
    forall s | s in h2.created && s !in store.confirmed && RetainedUntil(h2, s) > now
      ensures IsHeld(h2, store, s)
    {
      if s != ticket.original.serial {
        assert RetainedUntil(h2, s) == RetainedUntil(h, s);
        assert IsHeld(h, m.store, s);
      }
    }
  }

  lemma DenyingKeepsSlots(h: History, m: Manager, logouts: set<(string, Ticket)>, now: int, id: string, ticket: Ticket)
    requires Consistent(h, m, logouts, now)
    requires id in m.store.entries && m.store.entries[id].session == ticket.original
    requires ticket.original.serial !in h.denials
    ensures SlotsMatch(DeniedNow(h, ticket, now), WithDenial(m, id, ticket).store)
  {
    var h2, store := DeniedNow(h, ticket, now), WithDenial(m, id, ticket).store;
    assert SlotMatches(h, id, m.store.entries[id]);
    forall k | k in store.entries ensures SlotMatches(h2, k, store.entries[k]) {
      assert SlotMatches(h, k, m.store.entries[k]);
    }
  }

  lemma DenyingFixesTheDeadline(h: History, m: Manager, now: int, id: string, ticket: Ticket)
    requires DenialsAreFixed(h, now) && CreationsAreOrderly(h, m.store.nextSerial, now)
    requires id in m.store.entries && SlotMatches(h, id, m.store.entries[id])
    requires m.store.entries[id].session == ticket.original
    requires ticket.original.serial !in h.denials && ticket.until == LogoutDeadline(ticket.original, now)
    ensures DenialsAreFixed(DeniedNow(h, ticket, now), now) && IsDenial(DeniedNow(h, ticket, now), id, ticket)
  {
  }

  lemma OldDenialsStay(h: History, ticket: Ticket, now: int, id: string, other: Ticket)
    requires IsDenial(h, id, other)
    ensures IsDenial(DeniedNow(h, ticket, now), id, other)
  {
  }

  lemma DenyingKeepsTickets(h: History, m: Manager, logouts: set<(string, Ticket)>, now: int, id: string,
                            ticket: Ticket)
    requires TicketsMatch(h, m, logouts) && id in m.store.entries
    requires IsDenial(DeniedNow(h, ticket, now), id, ticket)
    ensures TicketsMatch(DeniedNow(h, ticket, now), WithDenial(m, id, ticket), logouts + {(id, ticket)})
  {
    var h2 := DeniedNow(h, ticket, now);
    forall k | k in m.cancellations ensures IsDenial(h2, k, m.cancellations[k]) {
      OldDenialsStay(h, ticket, now, k, m.cancellations[k]);
    }
    forall l | l in logouts ensures IsDenial(h2, l.0, l.1) {
      OldDenialsStay(h, ticket, now, l.0, l.1);
    }
  }

  /** Marking the slot of a record denied. */
  lemma DenyingKeeps(h: History, m: Manager, logouts: set<(string, Ticket)>, now: int, id: string, ticket: Ticket)
    requires Consistent(h, m, logouts, now)
    requires id in m.store.entries && m.store.entries[id].session == ticket.original
    requires ticket.original.serial !in h.denials && ticket.until == LogoutDeadline(ticket.original, now)
    requires id !in m.cancellations
    ensures Consistent(DeniedNow(h, ticket, now), WithDenial(m, id, ticket), logouts + {(id, ticket)}, now)
    ensures IsDenial(DeniedNow(h, ticket, now), id, ticket)
  {
    DenyingKeepsHeld(h, m, logouts, now, id, ticket);
    DenyingKeepsSlots(h, m, logouts, now, id, ticket);
    assert SlotMatches(h, id, m.store.entries[id]);
    DenyingFixesTheDeadline(h, m, now, id, ticket);
    DenyingKeepsTickets(h, m, logouts, now, id, ticket);
    assert OneAliasPerIssuance(WithDenial(m, id, ticket));
  }

  /** Recording an acknowledgement. */
  lemma ConfirmingKeeps(h: History, m: Manager, logouts: set<(string, Ticket)>, now: int, serial: nat)
    requires Consistent(h, m, logouts, now) && serial in h.denials
    ensures Consistent(h, m.(store := m.store.(confirmed := m.store.confirmed + {serial})), logouts, now)
  {
  }

  /** Freeing the slot of an acknowledged cancellation. */
  lemma FreeingKeeps(h: History, m: Manager, logouts: set<(string, Ticket)>, now: int, id: string, ticket: Ticket)
    requires Consistent(h, m, logouts, now)
    requires Retains(m.store.entries, id, ticket) && ticket.original.serial in m.store.confirmed
    ensures Consistent(h, m.(store := Deleted(m.store, id)), logouts, now)
    ensures |Deleted(m.store, id).entries| <= |m.store.entries|
  {
    var store := Deleted(m.store, id);
    forall s | s in h.created && s !in store.confirmed && RetainedUntil(h, s) > now
      ensures IsHeld(h, store, s)
    {
      assert IsHeld(h, m.store, s);
    }
    FewerKeys(store.entries, m.store.entries);
  }

  // --- every step ------------------------------------------------------------

  ghost predicate Inv(config: Config, w: World) {
    Consistent(w.h, w.m, w.logouts, w.now) && IsBounded(config, w.m)
    && LogMatches(w.h.denials.Keys, w.m.store.confirmed, w.log)
  }

  lemma TickKeeps(config: Config, w: World, step: Step)
    requires Inv(config, w) && step.Tick?
    ensures Inv(config, Do(config, w, step))
  {
    var now := w.now + step.ms;
    assert CreationsAreOrderly(w.h, w.m.store.nextSerial, now);
    assert DenialsAreFixed(w.h, now);
    assert RecordsAreHeld(w.h, w.m.store, now);
  }

  lemma CreateKeeps(config: Config, w: World, step: Step)
    requires Inv(config, w) && step.Create?
    ensures Inv(config, Do(config, w, step))
  {
    if step.session.kind != MobileV1 {
      CreatedKeeps(config, w.h, w.m, w.logouts, w.now, step.id, step.session);
    }
  }

  lemma CreatedParts(m: Manager, capacity: nat, now: int, id: string, session: Session)
    requires session.kind != MobileV1
    ensures var (store, created) := Created(m.store, capacity, now, id, session);
            var swept := m.(store := Swept(m.store, now));
            if created then
              && m.(store := store) == WithRecord(swept, id, session)
              && id !in swept.store.entries && |swept.store.entries| < capacity
            else m.(store := store) == swept
  {
  }

  lemma CreatedKeeps(config: Config, h: History, m: Manager, logouts: set<(string, Ticket)>, now: int, id: string,
                     session: Session)
    requires Consistent(h, m, logouts, now) && IsBounded(config, m) && session.kind != MobileV1
    ensures var (store, created) := Created(m.store, config.storeCapacity, now, id, session);
            && IsBounded(config, m.(store := store))
            && Consistent(if created then WithCreation(h, m.store.nextSerial, id, session, now) else h,
                          m.(store := store), logouts, now)
  {
    CreatedParts(m, config.storeCapacity, now, id, session);
    SweepingKeeps(h, m, logouts, now);
    if Created(m.store, config.storeCapacity, now, id, session).1 {
      StoringKeeps(config, h, m.(store := Swept(m.store, now)), logouts, now, id, session);
    }
  }

  /** Storing a record under a free key while there is room. */
  lemma StoringKeeps(config: Config, h: History, m: Manager, logouts: set<(string, Ticket)>, now: int, id: string,
                     session: Session)
    requires Consistent(h, m, logouts, now) && IsBounded(config, m)
    requires id !in m.store.entries && |m.store.entries| < config.storeCapacity
    requires session.kind == MobileV1 ==> IsMobileRecord(session, now) && session.issuanceId !in m.aliases
    ensures Consistent(WithCreation(h, m.store.nextSerial, id, session, now), WithRecord(m, id, session), logouts, now)
    ensures IsBounded(config, WithRecord(m, id, session))
  {
    CreatingKeeps(h, m, logouts, now, id, session);
  }

  lemma SweepKeeps(config: Config, w: World)
    requires Inv(config, w)
    ensures Inv(config, w.(m := ManagerSwept(w.m, w.now)))
    ensures Inv(config, w.(m := w.m.(store := Swept(w.m.store, w.now))))
  {
    ManagerSweepingKeeps(config, w.h, w.m, w.logouts, w.now);
    SweepingKeeps(w.h, w.m, w.logouts, w.now);
  }

  lemma ReadBeginParts(config: Config, w: World, step: Step)
    requires step.ReadBegin?
    ensures var after, begun := Do(config, w, step), ReadBegun(w.m, w.now, step.id);
            && after.m == ManagerSwept(w.m, w.now) && after.now == w.now && after.h == w.h && after.logouts == w.logouts
            && after.log == (if begun.1.Immediate? then w.log + [Returned(begun.1.session)] else w.log)
  {
  }

  lemma ReadBeginKeeps(config: Config, w: World, step: Step)
    requires Inv(config, w) && step.ReadBegin?
    ensures Inv(config, Do(config, w, step))
  {
    ManagerSweepingKeeps(config, w.h, w.m, w.logouts, w.now);
    ReadBeginParts(config, w, step);
    var start := ReadBegun(w.m, w.now, step.id).1;
    if start.Immediate? {
      LogQuiet(w.h.denials.Keys, w.m.store.confirmed, w.log, Returned(start.session));
    }
  }

  lemma ReadEndParts(config: Config, w: World, step: Step)
    requires step.ReadEnd?
    ensures var after, ended := Do(config, w, step), ReadEnded(w.m, w.now, step.id, step.session, step.confirmed);
            && (after.m == w.m || after.m == w.m.(store := Swept(w.m.store, w.now)))
            && after.now == w.now && after.h == w.h && after.logouts == w.logouts
            && after.log == (if (step.id, step.session) in w.reading && ended.1.Some?
                             then w.log + [Returned(ended.1.value)] else w.log)
  {
  }

  lemma ReadEndKeeps(config: Config, w: World, step: Step)
    requires Inv(config, w) && step.ReadEnd?
    ensures Inv(config, Do(config, w, step))
  {
    SweepingKeeps(w.h, w.m, w.logouts, w.now);
    ReadEndParts(config, w, step);
    var result := ReadEnded(w.m, w.now, step.id, step.session, step.confirmed).1;
    if result.Some? {
      LogQuiet(w.h.denials.Keys, w.m.store.confirmed, w.log, Returned(result.value));
    }
  }

  /** The ticket a logout of a stored record works on. */
  function TicketAt(m: Manager, now: int, id: string): Ticket
    requires id in m.store.entries
  {
    match m.store.entries[id].logout
    case Some(stored) => stored
    case None => Ticket(m.store.entries[id].session, LogoutDeadline(m.store.entries[id].session, now))
  }

  function Tracked(m: Manager, capacity: nat, id: string, ticket: Ticket): Manager {
    m.(cancellations := if |m.cancellations| < capacity then m.cancellations[id := ticket] else m.cancellations)
  }

  lemma SlotDeniedParts(m: Manager, capacity: nat, now: int, id: string)
    ensures var swept := m.(store := Swept(m.store, now));
            SlotDenied(m, capacity, now, id) ==
            if id !in swept.store.entries then (swept, None)
            else var ticket := TicketAt(swept, now, id);
                 (Tracked(WithDenial(swept, id, ticket), capacity, id, ticket), Some(ticket))
  {
    var swept := m.(store := Swept(m.store, now));
    if id in swept.store.entries && swept.store.entries[id].logout.Some? {
      assert WithDenial(swept, id, TicketAt(swept, now, id)).store.entries == swept.store.entries;
    }
  }

  lemma SlotDenialKeeps(config: Config, h: History, m: Manager, logouts: set<(string, Ticket)>, now: int, id: string)
    requires Consistent(h, m, logouts, now) && IsBounded(config, m) && id !in m.cancellations
    ensures IsBounded(config, SlotDenied(m, config.capacity, now, id).0)
    ensures SlotDenied(m, config.capacity, now, id).0.store.confirmed == m.store.confirmed
    ensures TicketKept(h, SlotDenied(m, config.capacity, now, id), logouts, now, id)
  {
    SlotDeniedParts(m, config.capacity, now, id);
    SweepingKeeps(h, m, logouts, now);
    var swept := m.(store := Swept(m.store, now));
    if id in swept.store.entries {
      DeniedSlotKeeps(config, h, swept, logouts, now, id);
    }
  }

  lemma DeniedSlotKeeps(config: Config, h: History, m: Manager, logouts: set<(string, Ticket)>, now: int, id: string)
    requires Consistent(h, m, logouts, now) && IsBounded(config, m)
    requires id !in m.cancellations && id in m.store.entries
    ensures var ticket := TicketAt(m, now, id);
            var after := Tracked(WithDenial(m, id, ticket), config.capacity, id, ticket);
            IsBounded(config, after) && Consistent(DeniedNow(h, ticket, now), after, logouts + {(id, ticket)}, now)
  {
    var ticket := TicketAt(m, now, id);
    SlotLogoutKeeps(h, m, logouts, now, id, ticket);
    DeniedSlotIsBounded(config, m, id, ticket);
    TrackingKeeps(DeniedNow(h, ticket, now), WithDenial(m, id, ticket), logouts + {(id, ticket)}, now, config.capacity,
                  id, ticket);
  }

  lemma DeniedSlotIsBounded(config: Config, m: Manager, id: string, ticket: Ticket)
    requires IsBounded(config, m) && id in m.store.entries && id !in m.cancellations
    ensures WithDenial(m, id, ticket).cancellations == m.cancellations
    ensures IsBounded(config, Tracked(WithDenial(m, id, ticket), config.capacity, id, ticket))
  {
    assert WithDenial(m, id, ticket).store.entries.Keys == m.store.entries.Keys;
  }

  /** The manager and the ticket a denial left are consistent with that denial. */
  ghost predicate TicketKept(h: History, result: (Manager, Option<Ticket>), logouts: set<(string, Ticket)>, now: int,
                             id: string) {
    match result.1
    case None => Consistent(h, result.0, logouts, now)
    case Some(ticket) => Consistent(DeniedNow(h, ticket, now), result.0, logouts + {(id, ticket)}, now)
  }

  /** What `logout` does to the manager, the history and the tickets before it awaits. */
  lemma LogoutBegunKeeps(config: Config, h: History, m: Manager, logouts: set<(string, Ticket)>, now: int, id: string)
    requires Consistent(h, m, logouts, now) && IsBounded(config, m)
    ensures IsBounded(config, LogoutBegun(m, config.capacity, now, id).0)
    ensures LogoutBegun(m, config.capacity, now, id).0.store.confirmed == m.store.confirmed
    ensures TicketKept(h, LogoutBegun(m, config.capacity, now, id), logouts, now, id)
  {
    ManagerSweepingKeeps(config, h, m, logouts, now);
    var swept := ManagerSwept(m, now);
    if id !in swept.cancellations {
      SlotDenialKeeps(config, h, swept, logouts, now, id);
    } else {
      JoiningKeeps(h, swept, logouts, now, id);
    }
  }

  /** A logout that finds its identifier being cancelled joins that cancellation. */
  lemma JoiningKeeps(h: History, m: Manager, logouts: set<(string, Ticket)>, now: int, id: string)
    requires Consistent(h, m, logouts, now) && id in m.cancellations
    ensures DeniedNow(h, m.cancellations[id], now) == h
    ensures Consistent(h, m, logouts + {(id, m.cancellations[id])}, now)
  {
    assert IsDenial(h, id, m.cancellations[id]);
  }

  lemma SlotLogoutKeeps(h: History, m: Manager, logouts: set<(string, Ticket)>, now: int, id: string, ticket: Ticket)
    requires Consistent(h, m, logouts, now) && id in m.store.entries && ticket == TicketAt(m, now, id)
    requires id !in m.cancellations
    ensures Consistent(DeniedNow(h, ticket, now), WithDenial(m, id, ticket), logouts + {(id, ticket)}, now)
    ensures IsDenial(DeniedNow(h, ticket, now), id, ticket)
  {
    assert SlotMatches(h, id, m.store.entries[id]);
    if m.store.entries[id].logout.None? {
      DenyingKeeps(h, m, logouts, now, id, ticket);
    } else {
      assert WithDenial(m, id, ticket).store.entries == m.store.entries;
      assert WithDenial(m, id, ticket) == m;
    }
  }

  lemma TrackingKeeps(h: History, m: Manager, logouts: set<(string, Ticket)>, now: int, capacity: nat, id: string,
                      ticket: Ticket)
    requires Consistent(h, m, logouts, now) && IsDenial(h, id, ticket) && id !in m.cancellations
    requires |m.cancellations| <= capacity && (id in m.store.entries ==> m.store.entries[id].logout == Some(ticket))
    ensures Consistent(h, Tracked(m, capacity, id, ticket), logouts, now)
    ensures |Tracked(m, capacity, id, ticket).cancellations| <= capacity
  {
  }

  lemma LogoutBeginKeeps(config: Config, w: World, step: Step)
    requires Inv(config, w) && step.LogoutBegin?
    ensures Inv(config, Do(config, w, step))
  {
    LogoutBegunKeeps(config, w.h, w.m, w.logouts, w.now, step.id);
    LogoutBeginIsLogged(config, w, step);
    LogoutBeginParts(config, w, step);
  }

  lemma LogoutBeginParts(config: Config, w: World, step: Step)
    requires step.LogoutBegin?
    ensures var after, begun := Do(config, w, step), LogoutBegun(w.m, config.capacity, w.now, step.id);
            && after.m == begun.0 && after.now == w.now
            && after.h == (if begun.1.Some? then DeniedNow(w.h, begun.1.value, w.now) else w.h)
            && after.logouts == (if begun.1.Some? then w.logouts + {(step.id, begun.1.value)} else w.logouts)
            && after.log == (if begun.1.Some? then w.log + [Denied(begun.1.value.original.serial)] else w.log)
  {
  }

  lemma LogoutBeginIsLogged(config: Config, w: World, step: Step)
    requires step.LogoutBegin? && LogMatches(w.h.denials.Keys, w.m.store.confirmed, w.log)
    requires LogoutBegun(w.m, config.capacity, w.now, step.id).0.store.confirmed == w.m.store.confirmed
    ensures var after := Do(config, w, step);
            LogMatches(after.h.denials.Keys, after.m.store.confirmed, after.log)
  {
    LogoutBeginParts(config, w, step);
    var ticket := LogoutBegun(w.m, config.capacity, w.now, step.id).1;
    if ticket.Some? {
      LogDenial(w.h.denials.Keys, w.m.store.confirmed, w.log, ticket.value.original.serial);
      assert DeniedNow(w.h, ticket.value, w.now).denials.Keys == w.h.denials.Keys + {ticket.value.original.serial};
    }
  }

  /** What a successful `logout` does to the manager after its await. */
  lemma LogoutEndedKeeps(config: Config, h: History, m: Manager, logouts: set<(string, Ticket)>, now: int, id: string,
                         ticket: Ticket, acknowledged: bool)
    requires Consistent(h, m, logouts, now) && IsBounded(config, m)
    requires IsDenial(h, id, ticket) && (ticket.original.serial in m.store.confirmed || acknowledged)
    ensures var after := LogoutEnded(m, now, id, ticket, acknowledged).0;
            Consistent(h, after, logouts, now) && IsBounded(config, after)
  {
    var serial := ticket.original.serial;
    ConfirmingKeeps(h, m, logouts, now, serial);
    var noted := m.(store := m.store.(confirmed := m.store.confirmed + {serial}));
    if id in m.cancellations && m.cancellations[id] == ticket {
      SweepingKeeps(h, noted, logouts, now);
      var swept := noted.(store := Swept(noted.store, now));
      if Retains(swept.store.entries, id, ticket) {
        FreeingKeeps(h, swept, logouts, now, id, ticket);
      }
    }
  }

  lemma LogoutEndParts(config: Config, w: World, step: Step)
    requires step.LogoutEnd?
    ensures var after, serial := Do(config, w, step), step.ticket.original.serial;
            && after.now == w.now && after.h == w.h && after.logouts == w.logouts
            && if (step.id, step.ticket) in w.logouts && (serial in w.m.store.confirmed || step.acknowledged)
               then after.m == LogoutEnded(w.m, w.now, step.id, step.ticket, step.acknowledged).0
               else after.m == w.m
  {
  }

  lemma LogoutEndKeeps(config: Config, w: World, step: Step)
    requires Inv(config, w) && step.LogoutEnd?
    ensures Inv(config, Do(config, w, step))
  {
    var id, ticket := step.id, step.ticket;
    LogoutEndParts(config, w, step);
    LogoutEndIsLogged(config, w, step);
    if (id, ticket) in w.logouts && (ticket.original.serial in w.m.store.confirmed || step.acknowledged) {
      assert IsDenial(w.h, (id, ticket).0, (id, ticket).1);
      LogoutEndedKeeps(config, w.h, w.m, w.logouts, w.now, id, ticket, step.acknowledged);
    }
  }

  lemma LogoutEndIsLogged(config: Config, w: World, step: Step)
    requires step.LogoutEnd? && LogMatches(w.h.denials.Keys, w.m.store.confirmed, w.log)
    ensures var after := Do(config, w, step);
            LogMatches(after.h.denials.Keys, after.m.store.confirmed, after.log)
  {
    LogLogout(w.h.denials.Keys, w.m.store.confirmed, w.log, step.ticket.original.serial);
  }

  /** An installation changes nothing, sweeps, or also stores one record under a free key. */
  lemma InstallEndedParts(m: Manager, capacity: nat, now: int, random: string, session: Session)
    ensures var (after, alias) := InstallEnded(m, capacity, now, random, session);
            var swept := m.(store := Swept(m.store, now));
            if alias.Some? && session.issuanceId !in m.aliases then
              && after == WithRecord(swept, random, session) && alias == Some(random)
              && random !in swept.store.entries && |swept.store.entries| < capacity && IsMobileRecord(session, now)
            else after == m || after == swept
  {
  }

  /** What an installation does to the manager and the history after its await. */
  lemma InstallEndedKeeps(config: Config, h: History, m: Manager, logouts: set<(string, Ticket)>, now: int,
                          random: string, session: Session)
    requires Consistent(h, m, logouts, now) && IsBounded(config, m)
    ensures var (after, alias) := InstallEnded(m, config.storeCapacity, now, random, session);
            var h2 := if alias.None? || session.issuanceId in m.aliases then h
                      else WithCreation(h, m.store.nextSerial, random, session, now);
            Consistent(h2, after, logouts, now) && IsBounded(config, after)
  {
    InstallEndedParts(m, config.storeCapacity, now, random, session);
    SweepingKeeps(h, m, logouts, now);
    if session.issuanceId !in m.aliases && InstallEnded(m, config.storeCapacity, now, random, session).1.Some? {
      StoringKeeps(config, h, m.(store := Swept(m.store, now)), logouts, now, random, session);
    }
  }

  lemma InstallEndParts(config: Config, w: World, step: Step)
    requires step.InstallEnd?
    ensures var after := Do(config, w, step);
            var ended := InstallEnded(w.m, config.storeCapacity, w.now, step.random, step.session);
            && after.now == w.now && after.logouts == w.logouts && after.m == ended.0
            && after.h == (if ended.1.None? || step.session.issuanceId in w.m.aliases then w.h
                           else WithCreation(w.h, w.m.store.nextSerial, step.random, step.session, w.now))
  {
  }

  lemma InstallEndKeeps(config: Config, w: World, step: Step)
    requires Inv(config, w) && step.InstallEnd?
    ensures Inv(config, Do(config, w, step))
  {
    InstallEndedKeeps(config, w.h, w.m, w.logouts, w.now, step.random, step.session);
    InstallEndParts(config, w, step);
    InstallEndIsLogged(config, w, step);
  }

  lemma InstallEndIsLogged(config: Config, w: World, step: Step)
    requires step.InstallEnd? && LogMatches(w.h.denials.Keys, w.m.store.confirmed, w.log)
    ensures var after := Do(config, w, step);
            LogMatches(after.h.denials.Keys, after.m.store.confirmed, after.log)
  {
    var alias := InstallEnded(w.m, config.storeCapacity, w.now, step.random, step.session).1;
    if alias.Some? {
      LogQuiet(w.h.denials.Keys, w.m.store.confirmed, w.log, Presented(alias.value, step.session));
    }
  }

  lemma StepKeeps(config: Config, w: World, step: Step)
    requires Inv(config, w)
    ensures Inv(config, Do(config, w, step))
  {
    match step
    case Tick(_) => TickKeeps(config, w, step);
    case Sweep => SweepKeeps(config, w);
    case Create(_, _) => CreateKeeps(config, w, step);
    case ReadBegin(_) => ReadBeginKeeps(config, w, step);
    case ReadEnd(_, _, _) => ReadEndKeeps(config, w, step);
    case LogoutBegin(_) => LogoutBeginKeeps(config, w, step);
    case LogoutEnd(_, _, _) => LogoutEndKeeps(config, w, step);
    case InstallEnd(_, _) => InstallEndKeeps(config, w, step);
  }

  lemma {:induction false} InvOnEveryRun(config: Config, now: int, schedule: seq<Step>)
    ensures Inv(config, After(config, now, schedule))
  {
    if schedule != [] {
      InvOnEveryRun(config, now, schedule[..|schedule| - 1]);
      StepKeeps(config, After(config, now, schedule[..|schedule| - 1]), schedule[|schedule| - 1]);
    }
  }

  // --- results over whole runs -----------------------------------------------

  /** A mobile record and a response of the same issuance. */
  predicate IsSameIssuance(first: Session, second: Session) {
    first.kind == MobileV1 && first.issuanceId == second.issuanceId
  }

  /** The response ends at least a second after the retention of the cancellation. */
  predicate OutlastsCancellation(h: History, serial: nat, session: Session) {
    serial in h.denials && session.expiresAt >= h.denials[serial].ticket.until + 1000
  }

  /** An event fits what happened before it: only undenied records are returned, only
      acknowledged logouts succeed, and a denied issuance is presented again only after its
      cancellation was acknowledged or by a response that outlasts it. */
  ghost predicate IsProper(h: History, past: seq<Event>, event: Event) {
    match event
    case Returned(session) => Denied(session.serial) !in past
    case LoggedOut(serial) => Acknowledged(serial) in past
    case Presented(_, session) =>
      forall s :: s in h.created && Denied(s) in past && IsSameIssuance(h.created[s].session, session) ==>
                    Acknowledged(s) in past || OutlastsCancellation(h, s, session)
    case _ => true
  }

  ghost predicate LogIsProper(h: History, log: seq<Event>) {
    forall j :: 0 <= j < |log| ==> IsProper(h, log[..j], log[j])
  }

  /** Later histories keep what earlier ones hold. */
  ghost predicate Extends(later: History, earlier: History) {
    && (forall s :: s in earlier.created ==> s in later.created && later.created[s] == earlier.created[s])
    && (forall s :: s in earlier.denials ==> s in later.denials && later.denials[s] == earlier.denials[s])
  }

  lemma CreationExtends(h: History, serial: nat, id: string, session: Session, now: int)
    requires serial !in h.created
    ensures Extends(WithCreation(h, serial, id, session, now), h)
  {
  }

  lemma DenialExtends(h: History, ticket: Ticket, now: int)
    ensures Extends(DeniedNow(h, ticket, now), h)
  {
  }

  lemma CreationStepExtends(config: Config, w: World, step: Step)
    requires w.m.store.nextSerial !in w.h.created && (step.Create? || step.InstallEnd?)
    ensures Extends(Do(config, w, step).h, w.h)
  {
    CreationExtends(w.h, w.m.store.nextSerial, if step.Create? then step.id else step.random, step.session, w.now);
  }

  lemma LogoutStepExtends(config: Config, w: World, step: Step)
    requires step.LogoutBegin?
    ensures Extends(Do(config, w, step).h, w.h)
  {
    var ticket := LogoutBegun(w.m, config.capacity, w.now, step.id).1;
    if ticket.Some? {
      DenialExtends(w.h, ticket.value, w.now);
    }
  }

  lemma StepExtends(config: Config, w: World, step: Step)
    requires w.m.store.nextSerial !in w.h.created
    ensures Extends(Do(config, w, step).h, w.h)
  {
    if step.Create? || step.InstallEnd? {
      CreationStepExtends(config, w, step);
    } else if step.LogoutBegin? {
      LogoutStepExtends(config, w, step);
    } else {
      assert Do(config, w, step).h == w.h;
    }
  }

  lemma LastStepExtends(config: Config, now: int, schedule: seq<Step>, first: History)
    requires schedule != [] && Extends(After(config, now, schedule[..|schedule| - 1]).h, first)
    ensures Extends(After(config, now, schedule).h, first)
  {
    var w := After(config, now, schedule[..|schedule| - 1]);
    InvOnEveryRun(config, now, schedule[..|schedule| - 1]);
    NewSerialIsUnused(w.h, w.m, w.logouts, w.now);
    StepExtends(config, w, schedule[|schedule| - 1]);
  }

  /** No denial, and so no cancellation deadline, is ever moved or forgotten. */
  lemma {:induction false} RunExtends(config: Config, now: int, schedule: seq<Step>, more: seq<Step>)
    ensures Extends(After(config, now, schedule + more).h, After(config, now, schedule).h)
  {
    if more == [] {
      assert schedule + more == schedule;
    } else {
      var all := schedule + more;
      RunExtends(config, now, schedule, more[..|more| - 1]);
      assert all[..|all| - 1] == schedule + more[..|more| - 1];
      LastStepExtends(config, now, all, After(config, now, schedule).h);
    }
  }

  lemma ProperStays(h: History, later: History, denied: set<nat>, confirmed: set<nat>, log: seq<Event>)
    requires LogIsProper(h, log) && Extends(later, h) && LogMatches(denied, confirmed, log)
    requires denied <= h.created.Keys
    ensures LogIsProper(later, log)
  {
    forall j | 0 <= j < |log| ensures IsProper(later, log[..j], log[j]) {
      assert IsProper(h, log[..j], log[j]);
      assert forall s :: Denied(s) in log[..j] ==> Denied(s) in log;
    }
  }

  lemma ProperAppends(h: History, log: seq<Event>, event: Event)
    requires LogIsProper(h, log) && IsProper(h, log, event)
    ensures LogIsProper(h, log + [event])
  {
    var longer := log + [event];
    forall j | 0 <= j < |longer| ensures IsProper(h, longer[..j], longer[j]) {
      if j < |log| {
        assert longer[..j] == log[..j] && IsProper(h, log[..j], log[j]);
      } else {
        assert longer[..j] == log;
      }
    }
  }

  /** What the store finds was never denied. */
  lemma FoundIsUndenied(h: History, m: Manager, logouts: set<(string, Ticket)>, now: int, id: string)
    requires Consistent(h, m, logouts, now) && Found(m.store, now, id).Some?
    ensures Found(m.store, now, id).value.serial !in h.denials
  {
    assert SlotMatches(h, id, m.store.entries[id]);
  }

  /** While a denied record is retained, its issuance has no other slot and cannot be
      installed. */
  lemma RetainedDenialBlocks(h: History, m: Manager, logouts: set<(string, Ticket)>, now: int, capacity: nat,
                             random: string, session: Session, s: nat)
    requires Consistent(h, m, logouts, now) && s in h.denials && s !in m.store.confirmed
    requires IsSameIssuance(h.created[s].session, session) && now < h.denials[s].ticket.until
    ensures InstallEnded(m, capacity, now, random, session).1.None?
  {
    var id := h.created[s].id;
    assert RetainedUntil(h, s) == h.denials[s].ticket.until;
    assert IsHeld(h, m.store, s);
    assert SlotMatches(h, id, m.store.entries[id]);
    assert m.aliases[session.issuanceId] == id;
  }

  /** An issuance that was denied and not acknowledged is presented again only after the
      retention of its cancellation, by a response that ends at least a second later. */
  lemma DeniedIssuanceIsNotPresented(h: History, m: Manager, logouts: set<(string, Ticket)>, now: int, capacity: nat,
                                     random: string, session: Session, s: nat)
    requires Consistent(h, m, logouts, now) && s in h.denials && s !in m.store.confirmed
    requires IsSameIssuance(h.created[s].session, session)
    requires InstallEnded(m, capacity, now, random, session).1.Some?
    ensures h.denials[s].ticket.until <= now && OutlastsCancellation(h, s, session)
  {
    if now < h.denials[s].ticket.until {
      RetainedDenialBlocks(h, m, logouts, now, capacity, random, session, s);
    }
  }

  lemma ReturnIsProper(h: History, confirmed: set<nat>, log: seq<Event>, session: Session)
    requires LogIsProper(h, log) && LogMatches(h.denials.Keys, confirmed, log) && session.serial !in h.denials
    ensures LogIsProper(h, log + [Returned(session)])
  {
    ProperAppends(h, log, Returned(session));
  }

  lemma ReadBeginLogsProperly(config: Config, w: World, step: Step)
    requires step.ReadBegin? && Inv(config, w) && LogIsProper(w.h, w.log)
    ensures LogIsProper(w.h, Do(config, w, step).log)
  {
    ReadBeginParts(config, w, step);
    if ReadBegun(w.m, w.now, step.id).1.Immediate? {
      ImmediateIsUndenied(config, w.h, w.m, w.logouts, w.now, step.id);
      ReturnIsProper(w.h, w.m.store.confirmed, w.log, ReadBegun(w.m, w.now, step.id).1.session);
    }
  }

  lemma ImmediateIsUndenied(config: Config, h: History, m: Manager, logouts: set<(string, Ticket)>, now: int,
                            id: string)
    requires Consistent(h, m, logouts, now) && IsBounded(config, m) && ReadBegun(m, now, id).1.Immediate?
    ensures ReadBegun(m, now, id).1.session.serial !in h.denials
  {
    ManagerSweepingKeeps(config, h, m, logouts, now);
    FoundIsUndenied(h, ManagerSwept(m, now), logouts, now, id);
  }

  lemma ReadEndLogsProperly(config: Config, w: World, step: Step)
    requires step.ReadEnd? && Inv(config, w) && LogIsProper(w.h, w.log)
    ensures LogIsProper(w.h, Do(config, w, step).log)
  {
    if ReadEnded(w.m, w.now, step.id, step.session, step.confirmed).1.Some? {
      FoundIsUndenied(w.h, w.m, w.logouts, w.now, step.id);
      ReturnIsProper(w.h, w.m.store.confirmed, w.log, step.session);
    }
  }

  lemma LogoutBeginLogsProperly(config: Config, w: World, step: Step)
    requires step.LogoutBegin? && LogIsProper(w.h, w.log)
    ensures LogIsProper(w.h, Do(config, w, step).log)
  {
    var ticket := LogoutBegun(w.m, config.capacity, w.now, step.id).1;
    if ticket.Some? {
      ProperAppends(w.h, w.log, Denied(ticket.value.original.serial));
    }
  }

  lemma LogoutEndLogsProperly(config: Config, w: World, step: Step)
    requires step.LogoutEnd? && LogIsProper(w.h, w.log) && LogMatches(w.h.denials.Keys, w.m.store.confirmed, w.log)
    ensures LogIsProper(w.h, Do(config, w, step).log)
  {
    var serial := step.ticket.original.serial;
    if serial in w.m.store.confirmed {
      ProperAppends(w.h, w.log, LoggedOut(serial));
      assert w.log + [] + [LoggedOut(serial)] == w.log + [LoggedOut(serial)];
    } else {
      ProperAppends(w.h, w.log, Acknowledged(serial));
      ProperAppends(w.h, w.log + [Acknowledged(serial)], LoggedOut(serial));
    }
  }

  lemma InstallLogsProperly(config: Config, w: World, step: Step)
    requires step.InstallEnd? && Inv(config, w) && LogIsProper(w.h, w.log)
    ensures LogIsProper(w.h, Do(config, w, step).log)
  {
    var alias := InstallEnded(w.m, config.storeCapacity, w.now, step.random, step.session).1;
    if alias.Some? {
      forall s | s in w.h.created && Denied(s) in w.log && IsSameIssuance(w.h.created[s].session, step.session)
        ensures Acknowledged(s) in w.log || OutlastsCancellation(w.h, s, step.session)
      {
        if s !in w.m.store.confirmed {
          DeniedIssuanceIsNotPresented(w.h, w.m, w.logouts, w.now, config.storeCapacity, step.random, step.session, s);
        }
      }
      ProperAppends(w.h, w.log, Presented(alias.value, step.session));
    }
  }

  lemma StepLogsProperly(config: Config, w: World, step: Step)
    requires Inv(config, w) && LogIsProper(w.h, w.log)
    ensures LogIsProper(w.h, Do(config, w, step).log)
  {
    match step
    case ReadBegin(_) => ReadBeginLogsProperly(config, w, step);
    case ReadEnd(_, _, _) => ReadEndLogsProperly(config, w, step);
    case LogoutBegin(_) => LogoutBeginLogsProperly(config, w, step);
    case LogoutEnd(_, _, _) => LogoutEndLogsProperly(config, w, step);
    case InstallEnd(_, _) => InstallLogsProperly(config, w, step);
    case _ => assert Do(config, w, step).log == w.log;
  }

  lemma DenialsAreOfCreated(config: Config, w: World)
    requires Inv(config, w)
    ensures w.h.denials.Keys <= w.h.created.Keys
  {
  }

  lemma DeniesOrCreates(config: Config, w: World, step: Step)
    ensures var after := Do(config, w, step).h;
            if step.LogoutBegin? then after.created == w.h.created else after.denials == w.h.denials
  {
  }

  /** No record is denied in the step that creates it. */
  lemma StepDenialsAreOld(config: Config, w: World, step: Step)
    requires Inv(config, w) && Inv(config, Do(config, w, step))
    ensures Do(config, w, step).h.denials.Keys <= w.h.created.Keys
  {
    DenialsAreOfCreated(config, w);
    DenialsAreOfCreated(config, Do(config, w, step));
    DeniesOrCreates(config, w, step);
  }

  /** In every run, every event fits its past. */
  lemma {:induction false} EveryLogIsProper(config: Config, now: int, schedule: seq<Step>)
    ensures LogIsProper(After(config, now, schedule).h, After(config, now, schedule).log)
  {
    InvOnEveryRun(config, now, schedule);
    if schedule != [] {
      var before, step := schedule[..|schedule| - 1], schedule[|schedule| - 1];
      var w := After(config, now, before);
      EveryLogIsProper(config, now, before);
      InvOnEveryRun(config, now, before);
      StepLogsProperly(config, w, step);
      NewSerialIsUnused(w.h, w.m, w.logouts, w.now);
      StepExtends(config, w, step);
      StepDenialsAreOld(config, w, step);
      var after := Do(config, w, step);
      ProperStays(w.h, after.h, after.h.denials.Keys, after.m.store.confirmed, after.log);
    }
  }

  /** No read completing after a denial returns the denied record. */
  lemma NoReadAfterDenial(config: Config, now: int, schedule: seq<Step>, i: nat, j: nat)
    requires var log := After(config, now, schedule).log; i < j < |log| && log[i].Denied? && log[j].Returned?
    ensures var log := After(config, now, schedule).log; log[j].session.serial != log[i].serial
  {
    var w := After(config, now, schedule);
    EveryLogIsProper(config, now, schedule);
    assert IsProper(w.h, w.log[..j], w.log[j]);
    assert w.log[..j][i] == w.log[i];
  }

  /** A logout reports success only after the upstream acknowledged that very cancellation. */
  lemma SuccessIsAcknowledged(config: Config, now: int, schedule: seq<Step>, j: nat)
    requires var log := After(config, now, schedule).log; j < |log| && log[j].LoggedOut?
    ensures var log := After(config, now, schedule).log;
            exists i :: 0 <= i < j && log[i] == Acknowledged(log[j].serial)
  {
    var w := After(config, now, schedule);
    EveryLogIsProper(config, now, schedule);
    assert IsProper(w.h, w.log[..j], w.log[j]);
  }

  /** Until its cancellation is acknowledged, a denied issuance is not presented again, at
      any load and at any later time, except by a response that ends at least a second after
      the retention of the cancellation. */
  lemma DeniedIssuanceStaysDenied(config: Config, now: int, schedule: seq<Step>, i: nat, j: nat, s: nat)
    requires var log := After(config, now, schedule).log; i < j < |log| && log[i] == Denied(s) && log[j].Presented?
    ensures var w := After(config, now, schedule);
            && s in w.h.created
            && (IsSameIssuance(w.h.created[s].session, w.log[j].session) ==>
                  || (exists k :: 0 <= k < j && w.log[k] == Acknowledged(s))
                  || OutlastsCancellation(w.h, s, w.log[j].session))
  {
    var w := After(config, now, schedule);
    InvOnEveryRun(config, now, schedule);
    DenialsAreOfCreated(config, w);
    assert Denied(s) in w.log;
    assert s in w.h.denials;
    EveryLogIsProper(config, now, schedule);
    PresentationIsProper(w.h, w.log, i, j, s);
  }

  lemma PresentationIsProper(h: History, log: seq<Event>, i: nat, j: nat, s: nat)
    requires LogIsProper(h, log) && i < j < |log| && log[i] == Denied(s) && log[j].Presented? && s in h.created
    ensures IsSameIssuance(h.created[s].session, log[j].session) ==>
              || (exists k :: 0 <= k < j && log[k] == Acknowledged(s))
              || OutlastsCancellation(h, s, log[j].session)
  {
    assert IsProper(h, log[..j], log[j]);
    assert log[..j][i] == log[i];
  }

  /** Two live records of one issuance never stand under two aliases, and neither map
      outgrows its capacity. */
  lemma OneLiveAliasPerIssuance(config: Config, now: int, schedule: seq<Step>, id1: string, id2: string)
    ensures var m := After(config, now, schedule).m;
            && |m.store.entries| <= config.storeCapacity && |m.cancellations| <= config.capacity
            && (&& id1 in m.store.entries && id2 in m.store.entries
                && m.store.entries[id1].session.kind == MobileV1 && m.store.entries[id2].session.kind == MobileV1
                && m.store.entries[id1].session.issuanceId == m.store.entries[id2].session.issuanceId
                ==> id1 == id2)
  {
    InvOnEveryRun(config, now, schedule);
  }

  /** A cancellation that is neither acknowledged nor past its deadline keeps its slot,
      its original record and its deadline, at whatever load. */
  lemma PendingCancellationIsHeld(config: Config, now: int, schedule: seq<Step>, s: nat)
    requires var w := After(config, now, schedule);
             s in w.h.denials && s !in w.m.store.confirmed && w.now < w.h.denials[s].ticket.until
    ensures var w := After(config, now, schedule);
            && s in w.h.created && w.h.created[s].id in w.m.store.entries
            && w.m.store.entries[w.h.created[s].id] == Slot(w.h.created[s].session, Some(w.h.denials[s].ticket))
  {
    var w := After(config, now, schedule);
    InvOnEveryRun(config, now, schedule);
    assert IsHeld(w.h, w.m.store, s);
    assert SlotMatches(w.h, w.h.created[s].id, w.m.store.entries[w.h.created[s].id]);
  }

  /** The deadline of a cancellation is the one of its first denial in every later logout
      of that record. */
  lemma DeadlineNeverMoves(config: Config, now: int, schedule: seq<Step>, more: seq<Step>, id: string, s: nat)
    requires s in After(config, now, schedule).h.denials
    requires var w := After(config, now, schedule + more);
             var ticket := LogoutBegun(w.m, config.capacity, w.now, id).1;
             ticket.Some? && ticket.value.original.serial == s
    ensures var first := After(config, now, schedule).h.denials[s];
            var w := After(config, now, schedule + more);
            && LogoutBegun(w.m, config.capacity, w.now, id).1 == Some(first.ticket)
            && first.ticket.until == LogoutDeadline(first.ticket.original, first.at)
  {
    var w := After(config, now, schedule + more);
    InvOnEveryRun(config, now, schedule);
    InvOnEveryRun(config, now, schedule + more);
    RunExtends(config, now, schedule, more);
    TicketIsTheDenials(config, w.h, w.m, w.logouts, w.now, id);
  }

  lemma TicketIsTheDenials(config: Config, h: History, m: Manager, logouts: set<(string, Ticket)>, now: int, id: string)
    requires Consistent(h, m, logouts, now) && IsBounded(config, m)
    requires LogoutBegun(m, config.capacity, now, id).1.Some?
    ensures var ticket := LogoutBegun(m, config.capacity, now, id).1.value;
            ticket.original.serial in h.denials ==> ticket == h.denials[ticket.original.serial].ticket
  {
    LogoutBegunKeeps(config, h, m, logouts, now, id);
    var ticket := LogoutBegun(m, config.capacity, now, id).1.value;
    assert (id, ticket) in logouts + {(id, ticket)};
    assert IsDenial(DeniedNow(h, ticket, now), (id, ticket).0, (id, ticket).1);
  }

  // --- what depends on fresh identifiers -------------------------------------

  /** No two records were stored under one random identifier. */
  ghost predicate IdsAreFresh(h: History) {
    forall s, t :: s in h.created && t in h.created && h.created[s].id == h.created[t].id ==> s == t
  }

  lemma SlotAfterLogout(h: History, m: Manager, logouts: set<(string, Ticket)>, now: int, capacity: nat, id: string)
    requires Consistent(h, m, logouts, now) && Swept(m.store, now) == m.store && id in m.store.entries
    ensures var (after, ticket) := JoinedOrDenied(m, capacity, now, id);
            && id in after.store.entries && after.store.entries[id].session == m.store.entries[id].session
            && (after.store.entries[id].logout.Some? <==>
                (id in m.cancellations ==> m.cancellations[id].original == m.store.entries[id].session))
            && (id !in m.cancellations ==> ticket == Some(TicketAt(m, now, id)))
  {
    assert SlotMatches(h, id, m.store.entries[id]);
    SlotDeniedParts(m, capacity, now, id);
    if id in m.cancellations {
      assert IsDenial(h, id, m.cancellations[id]);
    }
  }

  /** A logout denies the record in the slot exactly when its identifier is not still
      cancelling another record. */
  lemma LogoutDeniesUnlessReused(config: Config, now: int, schedule: seq<Step>, id: string)
    requires var w := After(config, now, schedule); id in ManagerSwept(w.m, w.now).store.entries
    ensures var w := After(config, now, schedule);
            var swept := ManagerSwept(w.m, w.now);
            var m := LogoutBegun(w.m, config.capacity, w.now, id).0;
            && id in m.store.entries && m.store.entries[id].session == swept.store.entries[id].session
            && (m.store.entries[id].logout.Some? <==>
                (id in swept.cancellations ==>
                   swept.cancellations[id].original == swept.store.entries[id].session))
  {
    var w := After(config, now, schedule);
    InvOnEveryRun(config, now, schedule);
    ManagerSweepingKeeps(config, w.h, w.m, w.logouts, w.now);
    SweptTwice(w.m, w.now);
    SlotAfterLogout(w.h, ManagerSwept(w.m, w.now), w.logouts, w.now, config.capacity, id);
  }

  lemma SweptTwice(m: Manager, now: int)
    ensures Swept(ManagerSwept(m, now).store, now) == ManagerSwept(m, now).store
  {
    assert Swept(ManagerSwept(m, now).store, now).entries == ManagerSwept(m, now).store.entries;
  }

  /** With fresh identifiers, a record is read back exactly while it is undenied and
      unexpired. */
  lemma ReadsExactlyTheUndenied(config: Config, now: int, schedule: seq<Step>, s: nat)
    requires IdsAreFresh(After(config, now, schedule).h) && s in After(config, now, schedule).h.created
    ensures var w := After(config, now, schedule);
            var record := w.h.created[s];
            var start := ReadBegun(w.m, w.now, record.id).1;
            if s !in w.h.denials && w.now < record.session.expiresAt
            then start == if record.session.kind == Desktop then Immediate(record.session)
                          else AwaitResolve(record.session)
            else start == NotFound
  {
    var w := After(config, now, schedule);
    InvOnEveryRun(config, now, schedule);
    ManagerSweepingKeeps(config, w.h, w.m, w.logouts, w.now);
    FreshRead(w.h, ManagerSwept(w.m, w.now), w.logouts, w.now, s);
  }

  lemma FreshRead(h: History, m: Manager, logouts: set<(string, Ticket)>, now: int, s: nat)
    requires Consistent(h, m, logouts, now) && IdsAreFresh(h) && s in h.created
    ensures var id := h.created[s].id;
            if s !in h.denials && now < h.created[s].session.expiresAt
            then Found(m.store, now, id) == Some(h.created[s].session) && id !in m.cancellations
            else Found(m.store, now, id).None?
  {
    var id := h.created[s].id;
    if id in m.cancellations {
      assert IsDenial(h, id, m.cancellations[id]);
    }
    if id in m.store.entries {
      assert SlotMatches(h, id, m.store.entries[id]);
    }
    if s !in h.denials && now < h.created[s].session.expiresAt {
      assert RetainedUntil(h, s) > now;
      assert IsHeld(h, m.store, s);
    }
  }

  /** With fresh identifiers, a repeated logout finds the pending cancellation, and a first
      logout denies the record that was stored under the identifier. */
  lemma LogoutFindsItsRecord(config: Config, now: int, schedule: seq<Step>, s: nat)
    requires var w := After(config, now, schedule);
             && IdsAreFresh(w.h) && s in w.h.created
             && s !in w.m.store.confirmed && w.now < RetainedUntil(w.h, s)
    ensures var w := After(config, now, schedule);
            LogoutBegun(w.m, config.capacity, w.now, w.h.created[s].id).1 ==
            if s in w.h.denials then Some(w.h.denials[s].ticket)
            else Some(Ticket(w.h.created[s].session, LogoutDeadline(w.h.created[s].session, w.now)))
  {
    var w := After(config, now, schedule);
    InvOnEveryRun(config, now, schedule);
    ManagerSweepingKeeps(config, w.h, w.m, w.logouts, w.now);
    SweptTwice(w.m, w.now);
    assert ManagerSwept(w.m, w.now).store.confirmed == w.m.store.confirmed;
    FreshLogout(w.h, ManagerSwept(w.m, w.now), w.logouts, w.now, config.capacity, s);
  }

  lemma FreshLogout(h: History, m: Manager, logouts: set<(string, Ticket)>, now: int, capacity: nat, s: nat)
    requires Consistent(h, m, logouts, now) && IdsAreFresh(h) && Swept(m.store, now) == m.store
    requires s in h.created && s !in m.store.confirmed && now < RetainedUntil(h, s)
    ensures JoinedOrDenied(m, capacity, now, h.created[s].id).1 ==
            if s in h.denials then Some(h.denials[s].ticket)
            else Some(Ticket(h.created[s].session, LogoutDeadline(h.created[s].session, now)))
  {
    var id := h.created[s].id;
    assert IsHeld(h, m.store, s);
    assert SlotMatches(h, id, m.store.entries[id]);
    SlotAfterLogout(h, m, logouts, now, capacity, id);
    if id in m.cancellations {
      assert IsDenial(h, id, m.cancellations[id]);
    }
  }

  lemma AfterOneMore(config: Config, now: int, schedule: seq<Step>, step: Step)
    ensures After(config, now, schedule + [step]) == Do(config, After(config, now, schedule), step)
  {
    assert (schedule + [step])[..|schedule + [step]| - 1] == schedule;
  }

  lemma TickMovesTime(config: Config, w: World, ms: nat)
    ensures Do(config, w, Tick(ms)) == w.(now := w.now + ms)
  {
  }

  lemma TickedWorld(config: Config, now: int, schedule: seq<Step>, ms: nat)
    ensures var w := After(config, now, schedule); After(config, now, schedule + [Tick(ms)]) == w.(now := w.now + ms)
  {
    AfterOneMore(config, now, schedule, Tick(ms));
    TickMovesTime(config, After(config, now, schedule), ms);
  }

  const REUSED := Session(0, Desktop, "", "", "", 0, 10000000)
  const FIRST_TICKET := Ticket(REUSED, RETENTION_MS)

  /** A first record, stored, logged out and acknowledged: its slot is free, its ticket is
      still in the retry map. */
  function FirstLogout(): seq<Step> {
    [Create("k", REUSED)] + [LogoutBegin("k")] + [LogoutEnd("k", FIRST_TICKET, true)]
  }

  /** Logging out the only record of a store that cancels nothing. */
  lemma OnlyRecordDenied(m: Manager, capacity: nat, now: int, id: string, session: Session)
    requires m.store.entries == map[id := Slot(session, None)] && m.cancellations == map[] && capacity > 0
    requires (forall i :: i in m.aliases ==> m.aliases[i] == id) && Deadline(Slot(session, None)) > now
    ensures var ticket := Ticket(session, LogoutDeadline(session, now));
            LogoutBegun(m, capacity, now, id) ==
            (Manager(m.store.(entries := map[id := Slot(session, Some(ticket))]), map[id := ticket], m.aliases),
             Some(ticket))
  {
    var ticket := Ticket(session, LogoutDeadline(session, now));
    NothingToSweep(m, now);
    assert m.store.entries[id := Slot(session, Some(ticket))] == map[id := Slot(session, Some(ticket))];
    assert m.cancellations[id := ticket] == map[id := ticket];
  }

  lemma NothingToSweep(m: Manager, now: int)
    requires m.cancellations == map[] && forall k :: k in m.store.entries ==> Deadline(m.store.entries[k]) > now
    requires forall i :: i in m.aliases ==> m.aliases[i] in m.store.entries
    ensures ManagerSwept(m, now) == m && Swept(m.store, now) == m.store
  {
    assert Swept(m.store, now).entries == m.store.entries;
    assert Released(m, now) == {};
    assert ManagerSwept(m, now).store.entries == m.store.entries;
    assert ManagerSwept(m, now).aliases == m.aliases;
  }

  lemma OnlyRecordLogout(config: Config, w: World, id: string, session: Session)
    requires w.m.store.entries == map[id := Slot(session, None)] && w.m.cancellations == map[] && config.capacity > 0
    requires (forall i :: i in w.m.aliases ==> w.m.aliases[i] == id) && Deadline(Slot(session, None)) > w.now
    requires session.serial !in w.h.denials
    ensures var ticket := Ticket(session, LogoutDeadline(session, w.now));
            Do(config, w, LogoutBegin(id)) ==
            w.(m := Manager(w.m.store.(entries := map[id := Slot(session, Some(ticket))]), map[id := ticket],
                            w.m.aliases),
               h := w.h.(denials := w.h.denials[session.serial := Denial(ticket, w.now)]),
               logouts := w.logouts + {(id, ticket)}, log := w.log + [Denied(session.serial)])
  {
    OnlyRecordDenied(w.m, config.capacity, w.now, id, session);
  }

  lemma FirstAcknowledgement(w: World)
    requires w.m == Manager(Store(map["k" := Slot(REUSED, Some(FIRST_TICKET))], {}, 1), map["k" := FIRST_TICKET], map[])
    requires w.now == 0 && w.logouts == {("k", FIRST_TICKET)} && w.log == [Denied(0)]
    ensures DoLogoutEnd(w, "k", FIRST_TICKET, true) ==
            w.(m := Manager(Store(map[], {0}, 1), map["k" := FIRST_TICKET], map[]),
               log := [Denied(0), Acknowledged(0), LoggedOut(0)])
  {
    assert Swept(w.m.store.(confirmed := {0}), 0).entries == w.m.store.entries;
  }

  /** The world after the creation, and after the logout has passed its first stretch. */
  function FirstStored(): World {
    World(Manager(Store(map["k" := Slot(REUSED, None)], {}, 1), map[], map[]), 0,
          History(map[0 := Creation("k", REUSED, 0)], map[]), {}, {}, [])
  }

  function FirstDenied(): World {
    World(Manager(Store(map["k" := Slot(REUSED, Some(FIRST_TICKET))], {}, 1), map["k" := FIRST_TICKET], map[]), 0,
          History(map[0 := Creation("k", REUSED, 0)], map[0 := Denial(FIRST_TICKET, 0)]), {},
          {("k", FIRST_TICKET)}, [Denied(0)])
  }

  lemma FirstCreation(config: Config)
    requires config.storeCapacity > 0
    ensures After(config, 0, [Create("k", REUSED)]) == FirstStored()
  {
    AfterOneMore(config, 0, [], Create("k", REUSED));
    assert Swept(Start(0).m.store, 0).entries == map[];
    assert [] + [Create("k", REUSED)] == [Create("k", REUSED)];
  }

  lemma FirstDenialRuns(config: Config)
    requires config.capacity > 0
    ensures Do(config, FirstStored(), LogoutBegin("k")) == FirstDenied()
  {
    OnlyRecordLogout(config, FirstStored(), "k", REUSED);
  }

  lemma FirstLogoutRuns(config: Config)
    requires config.storeCapacity > 0 && config.capacity > 0
    ensures After(config, 0, FirstLogout()) ==
            World(Manager(Store(map[], {0}, 1), map["k" := FIRST_TICKET], map[]), 0,
                  History(map[0 := Creation("k", REUSED, 0)], map[0 := Denial(FIRST_TICKET, 0)]), {},
                  {("k", FIRST_TICKET)}, [Denied(0), Acknowledged(0), LoggedOut(0)])
  {
    FirstCreation(config);
    AfterOneMore(config, 0, [Create("k", REUSED)], LogoutBegin("k"));
    FirstDenialRuns(config);
    AfterOneMore(config, 0, [Create("k", REUSED)] + [LogoutBegin("k")], LogoutEnd("k", FIRST_TICKET, true));
    FirstAcknowledgement(FirstDenied());
  }

  const SECOND := REUSED.(serial := 1)

  /** A second record under the same identifier, and a logout of it that succeeds. */
  function SecondLogout(): seq<Step> {
    [Create("k", REUSED)] + [LogoutBegin("k")] + [LogoutEnd("k", FIRST_TICKET, false)]
  }

  lemma SecondCreation(config: Config, w: World)
    requires w.m == Manager(Store(map[], {0}, 1), map["k" := FIRST_TICKET], map[]) && config.storeCapacity > 0
    ensures Do(config, w, Create("k", REUSED)) ==
            w.(m := Manager(Store(map["k" := Slot(SECOND, None)], {0}, 2), map["k" := FIRST_TICKET], map[]),
               h := WithCreation(w.h, 1, "k", REUSED, w.now))
  {
    assert Swept(w.m.store, w.now).entries == map[];
  }

  lemma SecondDenial(config: Config, w: World)
    requires w.m == Manager(Store(map["k" := Slot(SECOND, None)], {0}, 2), map["k" := FIRST_TICKET], map[])
    requires w.now == 0 && ("k", FIRST_TICKET) in w.logouts && 0 in w.h.denials
    ensures Do(config, w, LogoutBegin("k")) == w.(log := w.log + [Denied(0)])
    ensures Do(config, w, LogoutEnd("k", FIRST_TICKET, false)) == w.(log := w.log + [LoggedOut(0)])
  {
    assert Released(w.m, 0) == {};
    assert Swept(w.m.store, 0).entries == w.m.store.entries;
    assert ManagerSwept(w.m, 0).store.entries == w.m.store.entries;
    assert ManagerSwept(w.m, 0).cancellations == w.m.cancellations;
    assert ManagerSwept(w.m, 0) == w.m;
    assert w.logouts + {("k", FIRST_TICKET)} == w.logouts;
    assert w.m.store.confirmed + {0} == w.m.store.confirmed;
    assert w.log + [] + [LoggedOut(0)] == w.log + [LoggedOut(0)];
  }

  lemma SecondRead(config: Config, w: World)
    requires w.m == Manager(Store(map["k" := Slot(SECOND, None)], {0}, 2), map["k" := FIRST_TICKET], map[])
    requires w.now == RETENTION_MS
    ensures Do(config, w, ReadBegin("k")).log == w.log + [Returned(SECOND)]
  {
    assert Released(w.m.(store := Swept(w.m.store, w.now)), w.now) == {};
    assert Swept(w.m.store, w.now).entries == w.m.store.entries;
    assert ManagerSwept(w.m, w.now).store.entries == w.m.store.entries;
    assert "k" !in ManagerSwept(w.m, w.now).cancellations;
  }

  lemma SecondLogoutSucceeds(config: Config)
    requires config.storeCapacity > 0 && config.capacity > 0
    ensures var w := After(config, 0, FirstLogout() + SecondLogout());
            && w.m == Manager(Store(map["k" := Slot(SECOND, None)], {0}, 2), map["k" := FIRST_TICKET], map[])
            && w.now == 0 && w.log == [Denied(0), Acknowledged(0), LoggedOut(0), Denied(0), LoggedOut(0)]
  {
    FirstLogoutRuns(config);
    var r3 := FirstLogout();
    AfterOneMore(config, 0, r3, Create("k", REUSED));
    SecondCreation(config, After(config, 0, r3));
    var r4 := r3 + [Create("k", REUSED)];
    AfterOneMore(config, 0, r4, LogoutBegin("k"));
    SecondDenial(config, After(config, 0, r4));
    var r5 := r4 + [LogoutBegin("k")];
    AfterOneMore(config, 0, r5, LogoutEnd("k", FIRST_TICKET, false));
    SecondDenial(config, After(config, 0, r5));
    assert FirstLogout() + SecondLogout() == r5 + [LogoutEnd("k", FIRST_TICKET, false)];
  }

  /** Without fresh identifiers a logout can succeed and leave its slot readable, once the
      retry state of the first record has run out: an identifier drawn again, while the
      retry map still holds the acknowledged ticket of its first record, lends that
      acknowledgement to the second. */
  lemma ReusedIdentifierSurvivesLogout(config: Config)
    requires config.storeCapacity > 0 && config.capacity > 0
    ensures After(config, 0, FirstLogout() + SecondLogout() + [Tick(RETENTION_MS)] + [ReadBegin("k")]).log ==
            [Denied(0), Acknowledged(0), LoggedOut(0), Denied(0), LoggedOut(0), Returned(SECOND)]
  {
    var r6 := FirstLogout() + SecondLogout();
    SecondLogoutSucceeds(config);
    TickedWorld(config, 0, r6, RETENTION_MS);
    AfterOneMore(config, 0, r6 + [Tick(RETENTION_MS)], ReadBegin("k"));
    SecondRead(config, After(config, 0, r6 + [Tick(RETENTION_MS)]));
  }

  // --- the other side of a denied issuance -----------------------------------------------

  function Latest(a: int, b: int): int { if a < b then b else a }

  lemma FirstPresentation(config: Config, now: int, session: Session)
    requires config.storeCapacity > 0 && session.serial == 0 && IsMobileRecord(session, now)
    ensures DoInstallEnd(config, Start(now), "a", session) ==
            World(Manager(Store(map["a" := Slot(session, None)], {}, 1), map[], map[session.issuanceId := "a"]), now,
                  History(map[0 := Creation("a", session, now)], map[]), {}, {}, [Presented("a", session)])
  {
    assert Swept(Start(now).m.store, now).entries == map[];
  }

  predicate IsEmptied(m: Manager) {
    m.store.entries.Keys == {} && m.aliases.Keys == {}
  }

  lemma EverythingRunsOut(m: Manager, now: int, id: string, ticket: Ticket)
    requires m.store.entries == map[id := Slot(ticket.original, Some(ticket))]
    requires ticket.until <= now
    ensures IsEmptied(ManagerSwept(m, now))
  {
    assert Swept(m.store, now).entries.Keys == {};
    assert ManagerSwept(m, now).store.entries.Keys == {};
  }

  lemma LaterPresentation(config: Config, w: World, session: Session)
    requires config.storeCapacity > 0 && IsMobileRecord(session, w.now) && IsEmptied(w.m)
    ensures DoInstallEnd(config, w, "b", session).log == w.log + [Presented("b", session)]
  {
    var store := Swept(w.m.store, w.now);
    assert store.entries.Keys == {};
    assert |store.entries| == |store.entries.Keys|;
  }

  /** A presentation and its logout. */
  function PresentedAndDenied(first: Session): seq<Step> {
    [InstallEnd("a", first)] + [LogoutBegin("a")]
  }

  lemma PresentationIsDenied(config: Config, now: int, first: Session)
    requires config.storeCapacity > 0 && config.capacity > 0 && first.serial == 0 && IsMobileRecord(first, now)
    ensures var w, ticket := After(config, now, PresentedAndDenied(first)), Ticket(first, LogoutDeadline(first, now));
            && w.m.store.entries == map["a" := Slot(first, Some(ticket))] && w.now == now
            && w.log == [Presented("a", first), Denied(0)]
  {
    var r1 := [InstallEnd("a", first)];
    AfterOneMore(config, now, [], InstallEnd("a", first));
    assert [] + r1 == r1;
    FirstPresentation(config, now, first);
    AfterOneMore(config, now, r1, LogoutBegin("a"));
    OnlyRecordLogout(config, After(config, now, r1), "a", first);
  }

  function SweptAfter(w: World, ms: nat): World {
    SweptWhole(w.(now := w.now + ms))
  }

  function SweptWhole(w: World): World {
    w.(m := ManagerSwept(w.m, w.now))
  }

  lemma SweepSweeps(config: Config, w: World)
    ensures Do(config, w, Sweep) == SweptWhole(w)
  {
  }

  /** The end of the retention, and a later response. */
  lemma PresentationAfterRetention(config: Config, w: World, first: Session, second: Session, ms: nat)
    requires config.storeCapacity > 0 && IsMobileRecord(second, w.now + ms)
    requires var ticket := Ticket(first, LogoutDeadline(first, w.now));
             w.m.store.entries == map["a" := Slot(first, Some(ticket))] && ticket.until <= w.now + ms
    ensures Do(config, SweptAfter(w, ms), InstallEnd("b", second)).log == w.log + [Presented("b", second)]
  {
    EverythingRunsOut(w.m, w.now + ms, "a", Ticket(first, LogoutDeadline(first, w.now)));
    LaterPresentation(config, SweptAfter(w, ms), second);
  }

  lemma SweptWorld(config: Config, now: int, schedule: seq<Step>)
    ensures var w := After(config, now, schedule);
            After(config, now, schedule + [Sweep]) == SweptWhole(w)
  {
    AfterOneMore(config, now, schedule, Sweep);
    SweepSweeps(config, After(config, now, schedule));
  }

  lemma SweptLater(config: Config, now: int, schedule: seq<Step>, ms: nat)
    ensures After(config, now, schedule + [Tick(ms)] + [Sweep]) == SweptAfter(After(config, now, schedule), ms)
  {
    TickedWorld(config, now, schedule, ms);
    SweptWorld(config, now, schedule + [Tick(ms)]);
  }

  lemma RunAfterRetention(config: Config, now: int, schedule: seq<Step>, first: Session, second: Session, ms: nat)
    requires var w := After(config, now, schedule);
             var ticket := Ticket(first, LogoutDeadline(first, w.now));
             && config.storeCapacity > 0 && IsMobileRecord(second, w.now + ms)
             && w.m.store.entries == map["a" := Slot(first, Some(ticket))] && ticket.until <= w.now + ms
    ensures After(config, now, schedule + [Tick(ms)] + [Sweep] + [InstallEnd("b", second)]).log ==
            After(config, now, schedule).log + [Presented("b", second)]
  {
    SweptLater(config, now, schedule, ms);
    AfterOneMore(config, now, schedule + [Tick(ms)] + [Sweep], InstallEnd("b", second));
    PresentationAfterRetention(config, After(config, now, schedule), first, second, ms);
  }

  /** The exception is real: every response of the same issuance that outlasts the
      cancellation is presented in some run, without any acknowledgement. */
  lemma LaterResponseIsPresented(config: Config, now: int, first: Session, second: Session)
    requires config.storeCapacity > 0 && config.capacity > 0
    requires first.serial == 0 && IsMobileRecord(first, now) && IsSameIssuance(first, second)
    requires second.kind == MobileV1 && IsLowerHex(second.subject, 64)
    requires second.issuedAt % 1000 == 0 && second.expiresAt % 1000 == 0
    requires 0 < second.expiresAt - second.issuedAt <= RETENTION_MS
    requires second.expiresAt >= LogoutDeadline(first, now) + 1000
    ensures var ms := Latest(RETENTION_MS, second.issuedAt - now);
            After(config, now, PresentedAndDenied(first) + [Tick(ms)] + [Sweep] + [InstallEnd("b", second)]).log ==
            [Presented("a", first), Denied(0), Presented("b", second)]
  {
    var ms := Latest(RETENTION_MS, second.issuedAt - now);
    PresentationIsDenied(config, now, first);
    RunAfterRetention(config, now, PresentedAndDenied(first), first, second, ms);
  }
}
