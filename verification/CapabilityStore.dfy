/** The process-local store of opaque recipient capabilities
    (src/server/opaque-recipient-capability.mjs): three nested quotas, expiry sweeps and
    exact session binding. */
module CapabilityStore {
  import opened Domain
  import opened Text

  const PURPOSE := "direct-message"
  const MAX_CAPABILITIES := 4096

  datatype Config = Config(ttlMs: int, capacity: int, perSession: int, perSubject: int)

  datatype Record = Record(subject: string, sessionId: string, alias: string, purpose: string, expiresAt: int)

  type Records = map<string, Record>

  // A request whose shape or field types are not the exact ones is None.

  datatype IssueRequest = IssueRequest(
    subject: string, sessionId: string, alias: string, purpose: string, currentAliases: seq<string>, now: int)

  datatype ResolveRequest = ResolveRequest(
    subject: string, sessionId: string, capability: string, purpose: string, currentAliases: seq<string>, now: int)

  datatype IssueResult = Issued(capability: string, expiresAt: int) | IssueUnavailable

  datatype ResolveResult = Resolved(alias: string) | ResolveUnavailable

  function Min(a: int, b: int): int { if a < b then a else b }

  /** The store's options; None where the constructor throws. */
  function Configure(ttlMs: int, capacity: int, perSession: Option<int>, perSubject: Option<int>): Option<Config> {
    var session := if perSession.None? then Min(16, capacity) else perSession.value;
    var subject := if perSubject.None? then Min(64, capacity) else perSubject.value;
    if ttlMs < 1 || ttlMs > 300000 || capacity < 1 || capacity > MAX_CAPABILITIES ||
       session < 1 || session > 256 || session > capacity ||
       subject < 1 || subject > 1024 || subject > capacity || session > subject
    then None
    else Some(Config(ttlMs, capacity, session, subject))
  }

  /** The nesting every configured store has. */
  ghost predicate Nested(config: Config) {
    1 <= config.perSession <= config.perSubject <= config.capacity <= MAX_CAPABILITIES && 1 <= config.ttlMs <= 300000
  }

  predicate IsSessionId(s: string) { |s| == 43 && forall i :: 0 <= i < |s| ==> IsBase64urlChar(s[i]) }

  predicate IsCapability(s: string) {
    |s| == 46 && s[..3] == "rc_" && forall i :: 3 <= i < |s| ==> IsBase64urlChar(s[i])
  }

  predicate IsTime(now: int) { 0 <= now <= MAX_SAFE_INTEGER }

  /** The alias list of a request: short enough, privacy-safe and without repetition. */
  ghost predicate AreAliases(safe: string -> bool, aliases: seq<string>) {
    && |aliases| <= MAX_CAPABILITIES
    && (forall i :: 0 <= i < |aliases| ==> safe(aliases[i]))
    && (forall i, j :: 0 <= i < j < |aliases| ==> aliases[i] != aliases[j])
  }

  ghost predicate ValidIssue(config: Config, safe: string -> bool, request: Option<IssueRequest>) {
    && request.Some?
    && var r := request.value;
       && IsLowerHex(r.subject, 64) && IsSessionId(r.sessionId) && safe(r.alias) && r.purpose == PURPOSE
       && AreAliases(safe, r.currentAliases) && r.alias in r.currentAliases
       && 0 <= r.now <= MAX_SAFE_INTEGER - config.ttlMs
  }

  ghost predicate ValidResolve(safe: string -> bool, request: Option<ResolveRequest>) {
    && request.Some?
    && var r := request.value;
       && IsLowerHex(r.subject, 64) && IsSessionId(r.sessionId) && IsCapability(r.capability) && r.purpose == PURPOSE
       && AreAliases(safe, r.currentAliases) && IsTime(r.now)
  }

  // --- the record map --------------------------------------------------------

  ghost function Swept(records: Records, now: int): (r: Records)
    ensures forall c :: c in r <==> c in records && records[c].expiresAt > now
    ensures forall c :: c in r ==> r[c] == records[c]
  {
    map c | c in records && records[c].expiresAt > now :: records[c]
  }

  ghost function OfSession(records: Records, sessionId: string): set<string> {
    set c | c in records && records[c].sessionId == sessionId
  }

  ghost function OfSubject(records: Records, subject: string): set<string> {
    set c | c in records && records[c].subject == subject
  }

  /** The first of the drawn candidates that is well formed and not in use. */
  ghost function FirstFree(records: Records, draws: seq<string>): Option<string> {
    if draws == [] then None
    else if IsCapability(draws[0]) && draws[0] !in records then Some(draws[0])
    else FirstFree(records, draws[1..])
  }

  /** What `issue` does to the records and what it returns. */
  ghost function IssueEffect(config: Config, safe: string -> bool, records: Records, request: Option<IssueRequest>,
                             draws: seq<string>): (Records, IssueResult)
  {
    if !ValidIssue(config, safe, request) then (records, IssueUnavailable) else
    var r := request.value;
    var live := Swept(records, r.now);
    var free := FirstFree(live, draws);
    if |live| >= config.capacity || |OfSession(live, r.sessionId)| >= config.perSession ||
       |OfSubject(live, r.subject)| >= config.perSubject || free.None?
    then (live, IssueUnavailable)
    else
      var expiresAt := r.now + config.ttlMs;
      (live[free.value := Record(r.subject, r.sessionId, r.alias, PURPOSE, expiresAt)], Issued(free.value, expiresAt))
  }

  ghost function ResolveEffect(safe: string -> bool, records: Records, request: Option<ResolveRequest>)
    : (Records, ResolveResult)
  {
    if !ValidResolve(safe, request) then (records, ResolveUnavailable) else
    var r := request.value;
    var live := Swept(records, r.now);
    if r.capability in live && live[r.capability].subject == r.subject && live[r.capability].sessionId == r.sessionId &&
       live[r.capability].purpose == PURPOSE && live[r.capability].alias in r.currentAliases
    then (live, Resolved(live[r.capability].alias))
    else (live, ResolveUnavailable)
  }

  lemma RemovingOne(all: set<string>, pending: set<string>, x: string)
    requires x in pending
    ensures |all - (pending - {x})| == |all - pending| + (if x in all then 1 else 0)
  {
    assert all - (pending - {x}) == (all - pending) + (if x in all then {x} else {});
  }

  method NormalizeAliases(safe: string -> bool, value: seq<string>) returns (ok: bool)
    ensures ok <==> AreAliases(safe, value)
  {
    if |value| > MAX_CAPABILITIES { return false; }
    var seen: set<string> := {};
    for n := 0 to |value|
      invariant AreAliases(safe, value[..n])
      invariant forall x :: x in seen <==> x in value[..n]
    {
      if !safe(value[n]) || value[n] in seen { return false; }
      seen := seen + {value[n]};
    }
    assert value[..|value|] == value;
    return true;
  }

  class Store {
    const config: Config
    const safe: string -> bool
    var records: Records

    constructor (config: Config, safe: string -> bool)
      ensures this.config == config && this.safe == safe && records == map[]
    {
      this.config, this.safe, records := config, safe, map[];
    }

    /** Drops every record whose deadline has come. */
    method Sweep(now: int)
      modifies this
      ensures records == Swept(old(records), now)
    {
      var pending := records.Keys;
      while pending != {}
        invariant pending <= old(records).Keys
        invariant forall c :: c in records <==> c in old(records) && (c in pending || old(records)[c].expiresAt > now)
        invariant forall c :: c in records ==> records[c] == old(records)[c]
        decreases |pending|
      {
        var capability :| capability in pending;
        pending := pending - {capability};
        if records[capability].expiresAt <= now {
          records := map c | c in records && c != capability :: records[c];
        }
      }
    }

    method CountOutstanding(subject: string, sessionId: string) returns (ofSession: nat, ofSubject: nat)
      ensures ofSession == |OfSession(records, sessionId)| && ofSubject == |OfSubject(records, subject)|
    {
      ofSession, ofSubject := 0, 0;
      ghost var ofS, ofU := OfSession(records, sessionId), OfSubject(records, subject);
      assert forall c :: c in records ==> (c in ofS <==> records[c].sessionId == sessionId);
      assert forall c :: c in records ==> (c in ofU <==> records[c].subject == subject);
      var pending := records.Keys;
      assert ofS - pending == {} && ofU - pending == {};
      while pending != {}
        invariant pending <= records.Keys
        invariant ofSession == |ofS - pending| && ofSubject == |ofU - pending|
        decreases |pending|
      {
        var capability :| capability in pending;
        RemovingOne(ofS, pending, capability);
        RemovingOne(ofU, pending, capability);
        pending := pending - {capability};
        var stored := records[capability];
        if stored.subject == subject {
          ofSubject := ofSubject + 1;
        }
        if stored.sessionId == sessionId {
          ofSession := ofSession + 1;
        }
      }
      assert ofS - pending == ofS && ofU - pending == ofU;
    }

    method DrawCapability(draws: seq<string>) returns (capability: Option<string>)
      ensures capability == FirstFree(records, draws)
    {
      for attempt := 0 to |draws|
        invariant FirstFree(records, draws) == FirstFree(records, draws[attempt..])
      {
        var candidate := draws[attempt];
        if IsCapability(candidate) && candidate !in records { return Some(candidate); }
        assert draws[attempt..][1..] == draws[attempt + 1..];
      }
      return None;
    }

    /** `draws` are the texts the four attempts at a random capability would produce. */
    method Issue(request: Option<IssueRequest>, draws: seq<string>) returns (result: IssueResult)
      requires Nested(config) && |draws| == 4
      modifies this
      ensures (records, result) == IssueEffect(config, safe, old(records), request, draws)
    {
      if request.None? { return IssueUnavailable; }
      var r := request.value;
      var aliasesOk := NormalizeAliases(safe, r.currentAliases);
      if !IsLowerHex(r.subject, 64) || !IsSessionId(r.sessionId) || !safe(r.alias) || !IsTime(r.now) ||
         r.purpose != PURPOSE || !aliasesOk || r.alias !in r.currentAliases
      {
        return IssueUnavailable;
      }
      if r.now > MAX_SAFE_INTEGER - config.ttlMs { return IssueUnavailable; }
      Sweep(r.now);
      if |records| >= config.capacity { return IssueUnavailable; }
      var ofSession, ofSubject := CountOutstanding(r.subject, r.sessionId);
      if ofSession >= config.perSession || ofSubject >= config.perSubject { return IssueUnavailable; }
      var capability := DrawCapability(draws);
      if capability.None? { return IssueUnavailable; }
      var expiresAt := r.now + config.ttlMs;
      records := records[capability.value := Record(r.subject, r.sessionId, r.alias, PURPOSE, expiresAt)];
      return Issued(capability.value, expiresAt);
    }

    method Resolve(request: Option<ResolveRequest>) returns (result: ResolveResult)
      modifies this
      ensures (records, result) == ResolveEffect(safe, old(records), request)
    {
      if request.None? { return ResolveUnavailable; }
      var r := request.value;
      var aliasesOk := NormalizeAliases(safe, r.currentAliases);
      if !IsLowerHex(r.subject, 64) || !IsSessionId(r.sessionId) || !IsTime(r.now) || !IsCapability(r.capability) ||
         r.purpose != PURPOSE || !aliasesOk
      {
        return ResolveUnavailable;
      }
      Sweep(r.now);
      if r.capability !in records { return ResolveUnavailable; }
      var stored := records[r.capability];
      if stored.subject != r.subject || stored.sessionId != r.sessionId || stored.purpose != PURPOSE ||
         stored.expiresAt <= r.now || stored.alias !in r.currentAliases
      {
        return ResolveUnavailable;
      }
      return Resolved(stored.alias);
    }
  }

  // --- quotas ----------------------------------------------------------------

  ghost predicate WithinQuotas(config: Config, records: Records) {
    && |records| <= config.capacity
    && (forall s :: |OfSession(records, s)| <= config.perSession)
    && (forall s :: |OfSubject(records, s)| <= config.perSubject)
  }

  lemma SubsetIsSmaller<T>(a: set<T>, b: set<T>)
    requires a <= b
    ensures |a| <= |b|
  {
    assert b == a + (b - a);
  }

  lemma SweepingKeepsQuotas(config: Config, records: Records, now: int)
    requires WithinQuotas(config, records)
    ensures WithinQuotas(config, Swept(records, now))
  {
    var live := Swept(records, now);
    assert live.Keys <= records.Keys;
    SubsetIsSmaller(live.Keys, records.Keys);
    forall s ensures |OfSession(live, s)| <= config.perSession {
      SubsetIsSmaller(OfSession(live, s), OfSession(records, s));
    }
    forall s ensures |OfSubject(live, s)| <= config.perSubject {
      SubsetIsSmaller(OfSubject(live, s), OfSubject(records, s));
    }
  }

  lemma AddingOneOfSession(live: Records, capability: string, record: Record, s: string)
    requires capability !in live
    ensures |OfSession(live[capability := record], s)| ==
            |OfSession(live, s)| + (if record.sessionId == s then 1 else 0)
  {
    var before, after := OfSession(live, s), OfSession(live[capability := record], s);
    assert capability !in before;
    assert after == if record.sessionId == s then before + {capability} else before;
  }

  lemma AddingOneOfSubject(live: Records, capability: string, record: Record, s: string)
    requires capability !in live
    ensures |OfSubject(live[capability := record], s)| == |OfSubject(live, s)| + (if record.subject == s then 1 else 0)
  {
    var before, after := OfSubject(live, s), OfSubject(live[capability := record], s);
    assert capability !in before;
    assert after == if record.subject == s then before + {capability} else before;
  }

  lemma AddingOneKeepsQuotas(config: Config, live: Records, capability: string, record: Record)
    requires WithinQuotas(config, live) && capability !in live && |live| < config.capacity
    requires |OfSession(live, record.sessionId)| < config.perSession
    requires |OfSubject(live, record.subject)| < config.perSubject
    ensures WithinQuotas(config, live[capability := record])
  {
    var after := live[capability := record];
    forall s ensures |OfSession(after, s)| <= config.perSession {
      AddingOneOfSession(live, capability, record, s);
    }
    forall s ensures |OfSubject(after, s)| <= config.perSubject {
      AddingOneOfSubject(live, capability, record, s);
    }
  }

  /** Issuing keeps all three quotas, and so does refusing to issue. */
  lemma IssuingKeepsQuotas(config: Config, safe: string -> bool, records: Records, request: Option<IssueRequest>,
                           draws: seq<string>)
    requires WithinQuotas(config, records)
    ensures WithinQuotas(config, IssueEffect(config, safe, records, request, draws).0)
  {
    if ValidIssue(config, safe, request) {
      var r, live := request.value, Swept(records, request.value.now);
      SweepingKeepsQuotas(config, records, r.now);
      FreeIsUnused(live, draws);
      var (after, result) := IssueEffect(config, safe, records, request, draws);
      if result.Issued? {
        AddingOneKeepsQuotas(config, live, result.capability, after[result.capability]);
      }
    }
  }

  lemma {:induction false} FreeIsUnused(records: Records, draws: seq<string>)
    ensures var free := FirstFree(records, draws);
            free.Some? ==> free.value !in records && IsCapability(free.value) && free.value in draws
  {
    if draws != [] {
      FreeIsUnused(records, draws[1..]);
      assert draws == [draws[0]] + draws[1..];
    }
  }

  // --- whole runs ------------------------------------------------------------

  datatype Call =
    | IssueCall(issue: Option<IssueRequest>, draws: seq<string>)
    | ResolveCall(resolve: Option<ResolveRequest>)

  /** A capability as it was issued. */
  datatype Issuance = Issuance(capability: string, record: Record)

  datatype History = History(records: Records, issued: seq<Issuance>)

  ghost function Perform(config: Config, safe: string -> bool, h: History, call: Call): History {
    match call
    case IssueCall(request, draws) =>
      var (records, result) := IssueEffect(config, safe, h.records, request, draws);
      History(records, if result.Issued? then h.issued + [Issuance(result.capability, records[result.capability])]
                       else h.issued)
    case ResolveCall(request) => h.(records := ResolveEffect(safe, h.records, request).0)
  }

  ghost function AfterCalls(config: Config, safe: string -> bool, calls: seq<Call>): History {
    if calls == [] then History(map[], [])
    else Perform(config, safe, AfterCalls(config, safe, calls[..|calls| - 1]), calls[|calls| - 1])
  }

  /** The latest issuance of a capability is `issued[i]`. */
  ghost predicate LatestIssue(issued: seq<Issuance>, i: int, capability: string) {
    && 0 <= i < |issued| && issued[i].capability == capability
    && forall j :: i < j < |issued| ==> issued[j].capability != capability
  }

  /** Every stored record is the one of the latest issuance of its capability. */
  ghost predicate Accounted(config: Config, safe: string -> bool, h: History) {
    forall c :: c in h.records ==>
      h.records[c].purpose == PURPOSE && safe(h.records[c].alias)
      && AccountedFor(h.issued, c, h.records[c])
  }

  ghost predicate AccountedFor(issued: seq<Issuance>, c: string, record: Record) {
    exists i :: LatestIssue(issued, i, c) && issued[i].record == record
  }

  /** A new issuance is the latest of its capability and displaces no other. */
  lemma IssuanceIsAccounted(issued: seq<Issuance>, latest: Issuance, c: string, record: Record)
    requires if c == latest.capability then record == latest.record else AccountedFor(issued, c, record)
    ensures AccountedFor(issued + [latest], c, record)
  {
    var after := issued + [latest];
    if c == latest.capability {
      assert LatestIssue(after, |issued|, c);
    } else {
      var i :| LatestIssue(issued, i, c) && issued[i].record == record;
      assert LatestIssue(after, i, c);
    }
  }

  lemma AccountingStep(config: Config, safe: string -> bool, h: History, call: Call)
    requires Accounted(config, safe, h)
    ensures Accounted(config, safe, Perform(config, safe, h, call))
  {
    var after := Perform(config, safe, h, call);
    forall c | c in after.records
      ensures after.records[c].purpose == PURPOSE && safe(after.records[c].alias)
      ensures AccountedFor(after.issued, c, after.records[c])
    {
      if after.issued != h.issued {
        IssuanceIsAccounted(h.issued, after.issued[|h.issued|], c, after.records[c]);
      }
    }
  }

  lemma {:induction false} EveryRun(config: Config, safe: string -> bool, calls: seq<Call>)
    requires Nested(config)
    ensures WithinQuotas(config, AfterCalls(config, safe, calls).records)
    ensures Accounted(config, safe, AfterCalls(config, safe, calls))
  {
    if calls == [] {
      assert forall s :: OfSession(map[], s) == {} && OfSubject(map[], s) == {};
    } else {
      var h, call := AfterCalls(config, safe, calls[..|calls| - 1]), calls[|calls| - 1];
      EveryRun(config, safe, calls[..|calls| - 1]);
      AccountingStep(config, safe, h, call);
      match call
      case IssueCall(request, draws) => IssuingKeepsQuotas(config, safe, h.records, request, draws);
      case ResolveCall(request) =>
        if request.Some? {
          SweepingKeepsQuotas(config, h.records, request.value.now);
        }
    }
  }

  /** In every run, whatever resolves was issued, most recently, to exactly that subject
      and session for exactly that alias; it has not expired and its alias is current. */
  lemma ResolvedWasIssued(config: Config, safe: string -> bool, calls: seq<Call>, request: ResolveRequest)
    requires Nested(config)
    requires ResolveEffect(safe, AfterCalls(config, safe, calls).records, Some(request)).1.Resolved?
    ensures var h := AfterCalls(config, safe, calls);
            var alias := ResolveEffect(safe, h.records, Some(request)).1.alias;
            && alias in request.currentAliases
            && exists i :: LatestIssue(h.issued, i, request.capability)
                 && h.issued[i].record.subject == request.subject && h.issued[i].record.sessionId == request.sessionId
                 && h.issued[i].record.alias == alias && h.issued[i].record.purpose == request.purpose
                 && request.now < h.issued[i].record.expiresAt
  {
    EveryRun(config, safe, calls);
    var h := AfterCalls(config, safe, calls);
    var i :| LatestIssue(h.issued, i, request.capability) && h.issued[i].record == h.records[request.capability];
  }

  /** Issuing never displaces a live record, and every live record survives it. */
  lemma IssuingDisplacesNothing(config: Config, safe: string -> bool, records: Records, request: IssueRequest,
                                draws: seq<string>, c: string)
    requires c in records && records[c].expiresAt > request.now
    ensures var (after, result) := IssueEffect(config, safe, records, Some(request), draws);
            c in after && after[c] == records[c] && (result.Issued? ==> result.capability != c)
  {
    FreeIsUnused(Swept(records, request.now), draws);
  }

  /** No call made before its deadline removes or changes a record. */
  lemma CallsKeepLiveRecords(config: Config, safe: string -> bool, h: History, call: Call, c: string, record: Record)
    requires c in h.records && h.records[c] == record && IsBefore(call, record.expiresAt)
    ensures var records := Perform(config, safe, h, call).records; c in records && records[c] == record
  {
    if call.IssueCall? && call.issue.Some? {
      IssuingDisplacesNothing(config, safe, h.records, call.issue.value, call.draws, c);
    }
  }

  /** The call, if well-formed at all, is made before this time. */
  ghost predicate IsBefore(call: Call, time: int) {
    match call
    case IssueCall(issue, _) => issue.Some? ==> issue.value.now < time
    case ResolveCall(resolve) => resolve.Some? ==> resolve.value.now < time
  }

  lemma AfterOneMore(config: Config, safe: string -> bool, calls: seq<Call>, call: Call)
    ensures AfterCalls(config, safe, calls + [call]) == Perform(config, safe, AfterCalls(config, safe, calls), call)
  {
    assert (calls + [call])[..|calls + [call]| - 1] == calls;
  }

  lemma LastCallKeeps(config: Config, safe: string -> bool, calls: seq<Call>, c: string, record: Record)
    requires calls != [] && IsBefore(calls[|calls| - 1], record.expiresAt)
    requires var records := AfterCalls(config, safe, calls[..|calls| - 1]).records; c in records && records[c] == record
    ensures var records := AfterCalls(config, safe, calls).records; c in records && records[c] == record
  {
    CallsKeepLiveRecords(config, safe, AfterCalls(config, safe, calls[..|calls| - 1]), calls[|calls| - 1], c, record);
  }

  lemma {:induction false} LiveRecordsLast(config: Config, safe: string -> bool, calls: seq<Call>, more: seq<Call>,
                                           c: string, record: Record)
    requires var records := AfterCalls(config, safe, calls).records; c in records && records[c] == record
    requires forall i :: 0 <= i < |more| ==> IsBefore(more[i], record.expiresAt)
    ensures var records := AfterCalls(config, safe, calls + more).records; c in records && records[c] == record
  {
    var all := calls + more;
    if more == [] {
      assert all == calls;
    } else {
      var init := more[..|more| - 1];
      LiveRecordsLast(config, safe, calls, init, c, record);
      assert all[..|all| - 1] == calls + init && all[|all| - 1] == more[|more| - 1];
      LastCallKeeps(config, safe, all, c, record);
    }
  }

  /** What was issued stays available: whatever is issued and resolved in between, before
      its deadline, it resolves for its subject and session while its alias is current, up
      to that deadline and not from then on; and for nobody else. */
  lemma IssuedStaysAvailable(config: Config, safe: string -> bool, calls: seq<Call>, issue: IssueRequest,
                             draws: seq<string>, more: seq<Call>, resolve: ResolveRequest)
    requires var (_, result) := IssueEffect(config, safe, AfterCalls(config, safe, calls).records, Some(issue), draws);
             result.Issued? && resolve.capability == result.capability
    requires forall i :: 0 <= i < |more| ==> IsBefore(more[i], issue.now + config.ttlMs)
    requires ValidResolve(safe, Some(resolve))
    ensures var h := AfterCalls(config, safe, calls + [IssueCall(Some(issue), draws)] + more);
            ResolveEffect(safe, h.records, Some(resolve)).1 ==
            if resolve.subject == issue.subject && resolve.sessionId == issue.sessionId
               && issue.alias in resolve.currentAliases && resolve.now < issue.now + config.ttlMs
            then Resolved(issue.alias) else ResolveUnavailable
  {
    var record := Record(issue.subject, issue.sessionId, issue.alias, PURPOSE, issue.now + config.ttlMs);
    var issued := calls + [IssueCall(Some(issue), draws)];
    AfterOneMore(config, safe, calls, IssueCall(Some(issue), draws));
    IssuedIsStored(config, safe, AfterCalls(config, safe, calls).records, issue, draws);
    LiveRecordsLast(config, safe, issued, more, resolve.capability, record);
    StoredResolves(safe, AfterCalls(config, safe, issued + more).records, resolve, record);
  }

  lemma IssuedIsStored(config: Config, safe: string -> bool, records: Records, issue: IssueRequest, draws: seq<string>)
    requires IssueEffect(config, safe, records, Some(issue), draws).1.Issued?
    ensures var (after, result) := IssueEffect(config, safe, records, Some(issue), draws);
            && result.capability in after
            && after[result.capability] ==
               Record(issue.subject, issue.sessionId, issue.alias, PURPOSE, issue.now + config.ttlMs)
  {
  }

  lemma StoredResolves(safe: string -> bool, records: Records, resolve: ResolveRequest, record: Record)
    requires ValidResolve(safe, Some(resolve)) && record.purpose == PURPOSE
    requires resolve.capability in records && records[resolve.capability] == record
    ensures ResolveEffect(safe, records, Some(resolve)).1 ==
            if resolve.subject == record.subject && resolve.sessionId == record.sessionId
               && record.alias in resolve.currentAliases && resolve.now < record.expiresAt
            then Resolved(record.alias) else ResolveUnavailable
  {
  }

  // --- what is granted -------------------------------------------------------

  /** The capabilities that have not expired; those of one session, and of one subject. */
  ghost function Live(records: Records, now: int): set<string> {
    set c | c in records && now < records[c].expiresAt
  }

  ghost function LiveOfSession(records: Records, now: int, sessionId: string): set<string> {
    set c | c in records && now < records[c].expiresAt && records[c].sessionId == sessionId
  }

  ghost function LiveOfSubject(records: Records, now: int, subject: string): set<string> {
    set c | c in records && now < records[c].expiresAt && records[c].subject == subject
  }

  /** A drawn text that can be handed out. */
  ghost predicate IsUsable(records: Records, now: int, draw: string) {
    && |draw| == 46 && "rc_" <= draw && (forall i :: 3 <= i < |draw| ==> IsBase64urlChar(draw[i]))
    && draw !in Live(records, now)
  }

  lemma LiveAreSwept(records: Records, now: int, sessionId: string, subject: string)
    ensures var swept := Swept(records, now);
            && swept.Keys == Live(records, now) && |swept| == |Live(records, now)|
            && OfSession(swept, sessionId) == LiveOfSession(records, now, sessionId)
            && OfSubject(swept, subject) == LiveOfSubject(records, now, subject)
  {
    assert |Swept(records, now)| == |Swept(records, now).Keys|;
  }

  lemma {:induction false} FirstFreeIsFirst(records: Records, draws: seq<string>)
    ensures match FirstFree(records, draws)
            case None => forall i :: 0 <= i < |draws| ==> !(IsCapability(draws[i]) && draws[i] !in records)
            case Some(free) =>
              exists i :: 0 <= i < |draws| && draws[i] == free && IsCapability(free) && free !in records
                          && forall j :: 0 <= j < i ==> !(IsCapability(draws[j]) && draws[j] !in records)
  {
    if draws != [] {
      FirstFreeIsFirst(records, draws[1..]);
      if FirstFree(records, draws).Some? && !(IsCapability(draws[0]) && draws[0] !in records) {
        var free := FirstFree(records, draws).value;
        var i :| 0 <= i < |draws[1..]| && draws[1..][i] == free
                 && forall j :: 0 <= j < i ==> !(IsCapability(draws[1..][j]) && draws[1..][j] !in records);
        forall j | 0 <= j < i + 1 ensures !(IsCapability(draws[j]) && draws[j] !in records) {
          assert j > 0 ==> draws[1..][j - 1] == draws[j];
        }
        assert draws[i + 1] == free;
      } else if FirstFree(records, draws).None? {
        forall j | 0 <= j < |draws| ensures !(IsCapability(draws[j]) && draws[j] !in records) {
          assert j > 0 ==> draws[1..][j - 1] == draws[j];
        }
      }
    }
  }

  /** The first usable draw is the one that is handed out. */
  ghost predicate IsFirstUsable(records: Records, now: int, draws: seq<string>, capability: string) {
    exists i :: 0 <= i < |draws| && draws[i] == capability && IsUsable(records, now, capability)
                && forall j :: 0 <= j < i ==> !IsUsable(records, now, draws[j])
  }

  lemma FreeIsUsable(records: Records, now: int, draws: seq<string>)
    ensures match FirstFree(Swept(records, now), draws)
            case None => forall i :: 0 <= i < |draws| ==> !IsUsable(records, now, draws[i])
            case Some(free) => IsFirstUsable(records, now, draws, free)
  {
    var swept := Swept(records, now);
    FirstFreeIsFirst(swept, draws);
    assert forall draw :: IsUsable(records, now, draw) <==> IsCapability(draw) && draw !in swept;
  }

  /** A request is granted exactly if it has the documented form and there is room: fewer
      live capabilities than the capacity in all, than the session quota in its session, than
      the subject quota for its subject; and one of the drawn texts is usable. It then gets
      the first of those, until the end of the time to live, and nothing else changes but that
      expired records go. */
  lemma IssuesWhileThereIsRoom(config: Config, safe: string -> bool, records: Records, r: IssueRequest,
                               draws: seq<string>)
    ensures var (after, result) := IssueEffect(config, safe, records, Some(r), draws);
            && (result.Issued? <==>
                  && IsLowerHex(r.subject, 64) && |r.sessionId| == 43
                  && (forall i :: 0 <= i < |r.sessionId| ==> IsBase64urlChar(r.sessionId[i]))
                  && safe(r.alias) && r.purpose == "direct-message"
                  && |r.currentAliases| <= 4096 && r.alias in r.currentAliases
                  && (forall i :: 0 <= i < |r.currentAliases| ==> safe(r.currentAliases[i]))
                  && (forall i, j :: 0 <= i < j < |r.currentAliases| ==> r.currentAliases[i] != r.currentAliases[j])
                  && r.now >= 0 && r.now + config.ttlMs <= 9007199254740991
                  && |Live(records, r.now)| < config.capacity
                  && |LiveOfSession(records, r.now, r.sessionId)| < config.perSession
                  && |LiveOfSubject(records, r.now, r.subject)| < config.perSubject
                  && exists i :: 0 <= i < |draws| && IsUsable(records, r.now, draws[i]))
            && (result.Issued? ==>
                  && IsFirstUsable(records, r.now, draws, result.capability)
                  && result.expiresAt == r.now + config.ttlMs
                  && after.Keys == Live(records, r.now) + {result.capability}
                  && (forall c :: c in Live(records, r.now) ==> after[c] == records[c])
                  && after[result.capability] ==
                     Record(r.subject, r.sessionId, r.alias, "direct-message", r.now + config.ttlMs))
  {
    LiveAreSwept(records, r.now, r.sessionId, r.subject);
    FreeIsUsable(records, r.now, draws);
  }

  /** A capability resolves exactly for a request of the documented form that names it while
      it is live, by its own subject and session, with its alias among the current ones. */
  lemma ResolvesExactlyItsBinding(safe: string -> bool, records: Records, r: ResolveRequest, alias: string)
    requires forall c :: c in records ==> records[c].purpose == "direct-message"
    ensures ResolveEffect(safe, records, Some(r)).1 == Resolved(alias) <==>
            && IsLowerHex(r.subject, 64) && |r.sessionId| == 43
            && (forall i :: 0 <= i < |r.sessionId| ==> IsBase64urlChar(r.sessionId[i]))
            && |r.capability| == 46 && "rc_" <= r.capability
            && (forall i :: 3 <= i < |r.capability| ==> IsBase64urlChar(r.capability[i]))
            && r.purpose == "direct-message" && 0 <= r.now <= 9007199254740991
            && |r.currentAliases| <= 4096 && alias in r.currentAliases
            && (forall i :: 0 <= i < |r.currentAliases| ==> safe(r.currentAliases[i]))
            && (forall i, j :: 0 <= i < j < |r.currentAliases| ==> r.currentAliases[i] != r.currentAliases[j])
            && r.capability in Live(records, r.now)
            && records[r.capability] == Record(r.subject, r.sessionId, alias, "direct-message",
                                               records[r.capability].expiresAt)
  {
  }

  // --- isolation -------------------------------------------------------------

  ghost function Sessions(records: Records): set<string> {
    set c | c in records :: records[c].sessionId
  }

  ghost function Subjects(records: Records): set<string> {
    set c | c in records :: records[c].subject
  }

  lemma SizeWithout<T>(all: set<T>, some: set<T>)
    requires some <= all
    ensures |all| == |all - some| + |some|
  {
    assert all == (all - some) + some;
  }

  lemma OneShareMore(n: nat, share: nat)
    requires n > 0
    ensures n * share == (n - 1) * share + share
  {
  }

  lemma {:induction false} SharesBound(keys: set<string>, owner: map<string, string>, owners: set<string>, share: nat)
    requires keys <= owner.Keys && forall c :: c in keys ==> owner[c] in owners
    requires forall o :: o in owners ==> |set c | c in keys && owner[c] == o| <= share
    ensures |keys| <= |owners| * share
    decreases owners
  {
    if owners == {} {
      assert keys == {};
    } else {
      var o :| o in owners;
      var mine := set c | c in keys && owner[c] == o;
      var rest := keys - mine;
      forall p | p in owners - {o} ensures |set c | c in rest && owner[c] == p| <= share {
        assert (set c | c in rest && owner[c] == p) == set c | c in keys && owner[c] == p;
      }
      SharesBound(rest, owner, owners - {o}, share);
      SizeWithout(keys, mine);
      SizeWithout(owners, {o});
      OneShareMore(|owners|, share);
    }
  }

  /** The store is never filled by few: its size is bounded by the number of sessions and
      of subjects in it, times their quotas. */
  lemma FewCannotFillTheStore(config: Config, records: Records)
    requires Nested(config) && WithinQuotas(config, records)
    ensures |records| <= |Sessions(records)| * config.perSession
    ensures |records| <= |Subjects(records)| * config.perSubject
  {
    var bySession := map c | c in records :: records[c].sessionId;
    forall s | s in Sessions(records)
      ensures |set c | c in records.Keys && bySession[c] == s| <= config.perSession {
      assert (set c | c in records.Keys && bySession[c] == s) == OfSession(records, s);
    }
    SharesBound(records.Keys, bySession, Sessions(records), config.perSession);
    var bySubject := map c | c in records :: records[c].subject;
    forall s | s in Subjects(records)
      ensures |set c | c in records.Keys && bySubject[c] == s| <= config.perSubject {
      assert (set c | c in records.Keys && bySubject[c] == s) == OfSubject(records, s);
    }
    SharesBound(records.Keys, bySubject, Subjects(records), config.perSubject);
  }

  /** Under the defaults, in every run, a full store holds capabilities of at least 256
      sessions and 64 subjects. */
  lemma DefaultIsolation(safe: string -> bool, calls: seq<Call>)
    ensures Configure(60000, 4096, None, None) == Some(Config(60000, 4096, 16, 64))
    ensures var records := AfterCalls(Config(60000, 4096, 16, 64), safe, calls).records;
            |records| >= 4096 ==> |Sessions(records)| >= 256 && |Subjects(records)| >= 64
  {
    var config := Config(60000, 4096, 16, 64);
    EveryRun(config, safe, calls);
    FewCannotFillTheStore(config, AfterCalls(config, safe, calls).records);
  }

  /** The maxima of a configuration. */
  ghost predicate WithinMaxima(config: Config) {
    config.perSession <= 256 && config.perSubject <= 1024
  }

  /** The configurations the constructor can produce are exactly the nested ones within the
      maxima; and without quotas of its own a capacity gets the largest nested defaults. */
  lemma ConfiguredStoresAreNested(config: Config)
    ensures (exists perSession, perSubject ::
               Configure(config.ttlMs, config.capacity, perSession, perSubject) == Some(config))
            <==> Nested(config) && WithinMaxima(config)
    ensures Configure(config.ttlMs, config.capacity, None, None) == Some(config) <==>
            && Nested(config) && config.perSession <= 16 && config.perSubject <= 64
            && (config.perSession == 16 || config.perSession == config.capacity)
            && (config.perSubject == 64 || config.perSubject == config.capacity)
  {
    if Nested(config) && WithinMaxima(config) {
      assert Configure(config.ttlMs, config.capacity, Some(config.perSession), Some(config.perSubject)) == Some(config);
    }
  }
}
