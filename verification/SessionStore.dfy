/** The bounded session store and the mobile session manager
    (src/server/social-oauth-memory.mjs, src/server/social-mobile-session-v1.mjs), one
    function per stretch of code between two awaits, and the classes that perform them. */
module SessionStore {
  import opened Text

  const RETENTION_MS := 300000

  datatype Kind = Desktop | MobileV1 | MobileV2

  /** A frozen session record. `serial` tells one stored object from another. */
  datatype Session = Session(
    serial: nat, kind: Kind, subject: string, token: string, issuanceId: string, issuedAt: int, expiresAt: int)

  /** The logout state of a record: its original and its fixed cancellation deadline. The
      mutable acknowledgement lives in the store's `confirmed`, by serial, because slot
      and retry map share the one object. */
  datatype Ticket = Ticket(original: Session, until: int)

  datatype Slot = Slot(session: Session, logout: Option<Ticket>)

  datatype Store = Store(entries: map<string, Slot>, confirmed: set<nat>, nextSerial: nat)

  datatype Manager = Manager(store: Store, cancellations: map<string, Ticket>, aliases: map<string, string>)

  // --- the store -------------------------------------------------------------

  function Deadline(slot: Slot): int {
    if slot.logout.Some? then slot.logout.value.until
    else slot.session.expiresAt + (if slot.session.kind == Desktop then 0 else RETENTION_MS)
  }

  /** When a logout begun at `now` stops being retried. */
  function LogoutDeadline(session: Session, now: int): int {
    if session.kind == MobileV2 && session.expiresAt < now then session.expiresAt + RETENTION_MS else now + RETENTION_MS
  }

  function Swept(store: Store, now: int): Store {
    store.(entries := map k | k in store.entries && Deadline(store.entries[k]) > now :: store.entries[k])
  }

  /** `create` with a record that passed its checks. */
  function Created(store: Store, capacity: nat, now: int, key: string, session: Session): (Store, bool) {
    var s := Swept(store, now);
    if key == "" || key in s.entries || |s.entries| >= capacity then (s, false)
    else (s.(entries := s.entries[key := Slot(session.(serial := s.nextSerial), None)], nextSerial := s.nextSerial + 1),
          true)
  }

  /** `get`: never a denied or expired record. */
  function Found(store: Store, now: int, key: string): Option<Session> {
    var entries := Swept(store, now).entries;
    if key in entries && entries[key].logout.None? && entries[key].session.expiresAt > now
    then Some(entries[key].session) else None
  }

  function BegunLogout(store: Store, now: int, key: string): (Store, Option<Ticket>) {
    var s := Swept(store, now);
    if key !in s.entries then (s, None)
    else if s.entries[key].logout.Some? then (s, s.entries[key].logout)
    else
      var session := s.entries[key].session;
      var ticket := Ticket(session, LogoutDeadline(session, now));
      (s.(entries := s.entries[key := Slot(session, Some(ticket))]), Some(ticket))
  }

  function Deleted(store: Store, key: string): Store {
    store.(entries := store.entries - {key})
  }

  class BoundedSessions {
    const capacity: nat
    var entries: map<string, Slot>
    var confirmed: set<nat>
    var nextSerial: nat

    function Contents(): Store
      reads this
    {
      Store(entries, confirmed, nextSerial)
    }

    constructor (capacity: nat)
      ensures this.capacity == capacity && Contents() == Store(map[], {}, 0)
    {
      this.capacity, entries, confirmed, nextSerial := capacity, map[], {}, 0;
    }

    method Sweep(now: int)
      modifies this
      ensures Contents() == Swept(old(Contents()), now)
    {
      var pending := entries.Keys;
      while pending != {}
        invariant confirmed == old(confirmed) && nextSerial == old(nextSerial)
        invariant pending <= old(entries).Keys
        invariant forall k :: k in entries <==> k in old(entries) && (k in pending || Deadline(old(entries)[k]) > now)
        invariant forall k :: k in entries ==> entries[k] == old(entries)[k]
        decreases |pending|
      {
        var key :| key in pending;
        pending := pending - {key};
        if Deadline(entries[key]) <= now {
          entries := entries - {key};
        }
      }
    }

    method Create(now: int, key: string, session: Session) returns (created: bool)
      modifies this
      ensures (Contents(), created) == Created(old(Contents()), capacity, now, key, session)
    {
      Sweep(now);
      if key == "" || key in entries || |entries| >= capacity { return false; }
      entries := entries[key := Slot(session.(serial := nextSerial), None)];
      nextSerial := nextSerial + 1;
      return true;
    }

    method Get(now: int, key: string) returns (session: Option<Session>)
      modifies this
      ensures Contents() == Swept(old(Contents()), now) && session == Found(old(Contents()), now, key)
    {
      Sweep(now);
      if key in entries && entries[key].logout.None? && entries[key].session.expiresAt > now {
        return Some(entries[key].session);
      }
      return None;
    }

    /** Marks the already allocated slot; a repeated call returns the same ticket. */
    method BeginLogout(now: int, key: string) returns (ticket: Option<Ticket>)
      modifies this
      ensures (Contents(), ticket) == BegunLogout(old(Contents()), now, key)
    {
      Sweep(now);
      if key !in entries { return None; }
      var slot := entries[key];
      if slot.logout.None? {
        var session := slot.session;
        var begun := Ticket(session, LogoutDeadline(session, now));
        entries := entries[key := Slot(session, Some(begun))];
        return Some(begun);
      }
      return slot.logout;
    }

    method Delete(key: string)
      modifies this
      ensures Contents() == Deleted(old(Contents()), key)
    {
      entries := entries - {key};
    }

    method Confirm(serial: nat)
      modifies this
      ensures Contents() == old(Contents()).(confirmed := old(confirmed) + {serial})
    {
      confirmed := confirmed + {serial};
    }
  }

  // --- the manager -----------------------------------------------------------

  predicate Retains(entries: map<string, Slot>, id: string, item: Ticket) {
    id in entries && entries[id].session == item.original
  }

  /** Slots freed because the retry state of their own record has run out. */
  function Released(m: Manager, now: int): set<string> {
    set k | k in m.cancellations && m.cancellations[k].until <= now && Retains(m.store.entries, k, m.cancellations[k])
  }

  function Outstanding(cancellations: map<string, Ticket>, now: int): map<string, Ticket> {
    map k | k in cancellations && cancellations[k].until > now :: cancellations[k]
  }

  function ManagerSwept(manager: Manager, now: int): Manager {
    var m := manager.(store := Swept(manager.store, now));
    var store := m.store.(entries := m.store.entries - Released(m, now));
    Manager(store, Outstanding(m.cancellations, now),
            map i | i in m.aliases && m.aliases[i] in store.entries :: m.aliases[i])
  }

  datatype ReadStart = NotFound | Immediate(session: Session) | AwaitResolve(session: Session)

  /** `read` up to its await. */
  function ReadBegun(manager: Manager, now: int, id: string): (Manager, ReadStart) {
    var m := ManagerSwept(manager, now);
    var session := Found(m.store, now, id);
    (m, if session.None? || id in m.cancellations then NotFound
        else if session.value.kind == Desktop then Immediate(session.value)
        else AwaitResolve(session.value))
  }

  /** `read` after its await; `confirmed` says that the upstream answered with exactly the
      receipt and subject of the record. */
  function ReadEnded(m: Manager, now: int, id: string, original: Session, confirmed: bool): (Manager, Option<Session>) {
    if original.kind != MobileV1 || !confirmed then (m, None)
    else
      var store := Swept(m.store, now);
      (m.(store := store),
       if Found(m.store, now, id) != Some(original) || id in m.cancellations || original.expiresAt <= now then None
       else Some(original))
  }

  /** The denial of a slot whose identifier is not being cancelled already: the mark in
      the slot first, and a place in the retry map only if there is room. */
  function SlotDenied(m: Manager, capacity: nat, now: int, id: string): (Manager, Option<Ticket>) {
    var (store, ticket) := BegunLogout(m.store, now, id);
    if ticket.None? then (m.(store := store), None)
    else
      (Manager(store, if |m.cancellations| < capacity then m.cancellations[id := ticket.value] else m.cancellations,
               m.aliases), ticket)
  }

  function JoinedOrDenied(m: Manager, capacity: nat, now: int, id: string): (Manager, Option<Ticket>) {
    if id in m.cancellations then (m, Some(m.cancellations[id])) else SlotDenied(m, capacity, now, id)
  }

  /** `logout` up to its first await: the local denial. */
  function LogoutBegun(manager: Manager, capacity: nat, now: int, id: string): (Manager, Option<Ticket>) {
    JoinedOrDenied(ManagerSwept(manager, now), capacity, now, id)
  }

  /** `logout` after its await; `acknowledged` says that the upstream confirmed exactly
      this cancellation. */
  function LogoutEnded(m: Manager, now: int, id: string, ticket: Ticket, acknowledged: bool): (Manager, bool) {
    var serial := ticket.original.serial;
    if serial !in m.store.confirmed && !acknowledged then (m, false)
    else
      var store := m.store.(confirmed := m.store.confirmed + {serial});
      if id !in m.cancellations || m.cancellations[id] != ticket then (m.(store := store), true)
      else
        var swept := Swept(store, now);
        (m.(store := if Retains(swept.entries, id, ticket) then Deleted(swept, id) else swept), true)
  }

  predicate IsMobileRecord(session: Session, now: int) {
    && session.kind == MobileV1 && IsLowerHex(session.subject, 64) && IsLowerHex(session.issuanceId, 64)
    && session.issuedAt % 1000 == 0 && session.expiresAt % 1000 == 0 && session.issuedAt <= now
    && session.expiresAt - session.issuedAt <= RETENTION_MS && session.expiresAt - now >= 1000
  }

  /** The comparison of a stored record with the response of a repeated installation. */
  predicate SamePresentation(a: Session, b: Session) {
    && a.subject == b.subject && a.token == b.token && a.issuanceId == b.issuanceId
    && a.issuedAt == b.issuedAt && a.expiresAt == b.expiresAt
  }

  /** `install` after its await, for a response the upstream resolved: the alias, or None
      where the source throws. `random` is the fresh identifier it would allocate. */
  function InstallEnded(m: Manager, capacity: nat, now: int, random: string, session: Session)
    : (Manager, Option<string>)
  {
    if session.issuedAt > now || session.expiresAt - now < 1000 then (m, None)
    else if session.issuanceId in m.aliases then
      var id := m.aliases[session.issuanceId];
      var current := Found(m.store, now, id);
      (m.(store := Swept(m.store, now)),
       if current.None? || id in m.cancellations || !SamePresentation(current.value, session) then None else Some(id))
    else if !IsMobileRecord(session, now) then (m.(store := Swept(m.store, now)), None)
    else
      var (store, created) := Created(m.store, capacity, now, random, session);
      if !created then (m.(store := store), None)
      else (m.(store := store, aliases := m.aliases[session.issuanceId := random]), Some(random))
  }

  class SessionManager {
    const capacity: nat
    const sessions: BoundedSessions
    var cancellations: map<string, Ticket>
    var aliases: map<string, string>

    function Contents(): Manager
      reads this, sessions
    {
      Manager(sessions.Contents(), cancellations, aliases)
    }

    constructor (sessions: BoundedSessions, capacity: nat)
      ensures this.sessions == sessions && this.capacity == capacity
      ensures Contents() == Manager(sessions.Contents(), map[], map[])
    {
      this.sessions, this.capacity, cancellations, aliases := sessions, capacity, map[], map[];
    }

    method Sweep(now: int)
      modifies this, sessions
      ensures Contents() == ManagerSwept(old(Contents()), now)
    {
      sessions.Sweep(now);
      DropCancellations(now);
      DropAliases();
    }

    method DropCancellations(now: int)
      modifies this, sessions
      ensures aliases == old(aliases)
      ensures sessions.confirmed == old(sessions.confirmed) && sessions.nextSerial == old(sessions.nextSerial)
      ensures sessions.entries == old(sessions.entries) - Released(old(Contents()), now)
      ensures cancellations == Outstanding(old(cancellations), now)
    {
      ghost var entries, items, released := sessions.entries, cancellations, Released(Contents(), now);
      var pending := cancellations.Keys;
      while pending != {}
        invariant sessions.confirmed == old(sessions.confirmed) && sessions.nextSerial == old(sessions.nextSerial)
        invariant aliases == old(aliases) && pending <= items.Keys
        invariant forall k :: k in sessions.entries <==> k in entries && (k in released ==> k in pending)
        invariant forall k :: k in sessions.entries ==> sessions.entries[k] == entries[k]
        invariant forall k :: k in cancellations <==> k in items && (k in pending || items[k].until > now)
        invariant forall k :: k in cancellations ==> cancellations[k] == items[k]
        decreases |pending|
      {
        var id :| id in pending;
        pending := pending - {id};
        if cancellations[id].until <= now {
          ReleaseSlot(id, cancellations[id]);
          cancellations := cancellations - {id};
        }
      }
    }

    /** Frees the slot of a cancellation, if the slot still holds that record. */
    method ReleaseSlot(id: string, item: Ticket)
      modifies sessions
      ensures sessions.confirmed == old(sessions.confirmed) && sessions.nextSerial == old(sessions.nextSerial)
      ensures sessions.entries ==
              if Retains(old(sessions.entries), id, item) then old(sessions.entries) - {id} else old(sessions.entries)
    {
      if Retains(sessions.entries, id, item) {
        sessions.Delete(id);
      }
    }

    method DropAliases()
      modifies this
      ensures cancellations == old(cancellations)
      ensures aliases == map i | i in old(aliases) && old(aliases)[i] in sessions.entries :: old(aliases)[i]
    {
      var pending := aliases.Keys;
      while pending != {}
        invariant cancellations == old(cancellations) && pending <= old(aliases).Keys
        invariant aliases == map i | i in old(aliases) && (i in pending || old(aliases)[i] in sessions.entries)
                               :: old(aliases)[i]
        decreases |pending|
      {
        var issuance :| issuance in pending;
        pending := pending - {issuance};
        if aliases[issuance] !in sessions.entries {
          aliases := aliases - {issuance};
        }
      }
    }

    method BeginRead(now: int, id: string) returns (start: ReadStart)
      modifies this, sessions
      ensures (Contents(), start) == ReadBegun(old(Contents()), now, id)
    {
      Sweep(now);
      ghost var swept := Contents();
      var session := sessions.Get(now, id);
      assert Swept(swept.store, now).entries == swept.store.entries;
      if session.None? || id in cancellations { return NotFound; }
      if session.value.kind == Desktop { return Immediate(session.value); }
      return AwaitResolve(session.value);
    }

    method EndRead(now: int, id: string, original: Session, confirmed: bool) returns (result: Option<Session>)
      modifies this, sessions
      ensures (Contents(), result) == ReadEnded(old(Contents()), now, id, original, confirmed)
    {
      if original.kind != MobileV1 || !confirmed { return None; }
      var current := sessions.Get(now, id);
      if current != Some(original) || id in cancellations || original.expiresAt <= now { return None; }
      return Some(original);
    }

    /** Installs the denial in the allocated slot before anything that could fail for lack
        of room. */
    method BeginLogout(now: int, id: string) returns (ticket: Option<Ticket>)
      modifies this, sessions
      ensures (Contents(), ticket) == LogoutBegun(old(Contents()), capacity, now, id)
    {
      Sweep(now);
      if id in cancellations { return Some(cancellations[id]); }
      ticket := sessions.BeginLogout(now, id);
      if ticket.None? { return None; }
      if |cancellations| < capacity {
        cancellations := cancellations[id := ticket.value];
      }
    }

    method EndLogout(now: int, id: string, ticket: Ticket, acknowledged: bool) returns (done: bool)
      modifies this, sessions
      ensures (Contents(), done) == LogoutEnded(old(Contents()), now, id, ticket, acknowledged)
    {
      if ticket.original.serial !in sessions.confirmed && !acknowledged { return false; }
      sessions.Confirm(ticket.original.serial);
      if id in cancellations && cancellations[id] == ticket {
        sessions.Sweep(now);
        ReleaseSlot(id, ticket);
      }
      return true;
    }

    method EndInstall(now: int, random: string, session: Session) returns (alias: Option<string>)
      modifies this, sessions
      ensures (Contents(), alias) == InstallEnded(old(Contents()), sessions.capacity, now, random, session)
    {
      if session.issuedAt > now || session.expiresAt - now < 1000 { return None; }
      if session.issuanceId in aliases {
        var id := aliases[session.issuanceId];
        var current := sessions.Get(now, id);
        if current.None? || id in cancellations || !SamePresentation(current.value, session) { return None; }
        return Some(id);
      }
      if !IsMobileRecord(session, now) {
        sessions.Sweep(now);
        return None;
      }
      var created := sessions.Create(now, random, session);
      if !created { return None; }
      aliases := aliases[session.issuanceId := random];
      return Some(random);
    }
  }
}
