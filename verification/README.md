# Verified models of the HODLXXI Social boundaries

Dafny models of the logic with the most state, branching and arithmetic in the HODLXXI
Social repository, with proofs of what each of them promises. `dafny verify dfyconfig.toml`
checks everything.

| modules | what they model |
|---|---|
| `Text`, `Delimited`, `Permutations`, `Domain` | strings in code-unit order, decimal and hexadecimal numerals, split and join; reordered lists; public keys and access statuses |
| `X25519Keys`, `RecipientDirectory`, `ProtectedContent` | the Full recipient directory: the blacklist of X25519 keys, the all-or-nothing validator loop, the protected-content gates |
| `SocialGraph` | graph context and visibility |
| `ProvisionalKeyStore`, `ApprovalProtocol`, `ApprovalSessions`, `UndisturbedApproval` | the shared browser database, its transactions, any number of tabs preparing a provisional key and asking the external signer once, under which session they act, and what an undisturbed call achieves |
| `CapabilityStore` | the opaque capability store with its nested quotas |
| `SessionStore`, `MobileSession`, `MobileAnswers` | the session store and the mobile session manager, with reads, logouts and installations split at their awaits, and what each of them answers |
| `HttpServer` | header framing, bounded body reading and the one-response handler |
| `StaticPath` | the confinement of static paths |
| `Json`, `Base64url`, `MessageEnvelope` | JSON text, base64url, and the canonical envelope wire |
| `Ipv6`, `Audience` | the canonical audience grammar |
| `RelayFilter` | the relay filter normaliser |

Code that changes things step by step is a class or a method with a loop, proved equal to a
function of its inputs or of the old state; runs are sequences of such steps, and the
properties of runs are lemmas about those functions. The two protocols
(`ApprovalProtocol`, `MobileSession`) are state machines whose steps are the stretches of
code between two awaits, scheduled in any order, with every failure and every upstream
answer.

Where the code does not meet a promise for every input, the exact condition is proved:

- The high-bit test and the seven listed keys together cover every alias of the listed field
  elements (`X25519Keys.ListIsClosedUnderAliases`); the list alone would not
  (`X25519Keys.HighBitTestIsNeeded`).
- A logout denies the record in its slot exactly when its identifier is not still cancelling
  another record (`MobileSession.LogoutDeniesUnlessReused`). The retry map keeps an
  acknowledged ticket until its deadline, so a random identifier drawn a second time lends
  that acknowledgement to a new record: `MobileSession.ReusedIdentifierSurvivesLogout` gives
  the run. With fresh identifiers a record is read back exactly while it is undenied and
  unexpired (`MobileSession.ReadsExactlyTheUndenied`).
- A denied issuance can be presented again without an acknowledgement exactly by a response
  that ends at least a second after the retention of its cancellation: no other response is
  presented (`MobileSession.DeniedIssuanceStaysDenied`), and each of these that passes the
  checks of its format is, in some run (`MobileSession.LaterResponseIsPresented`).
- The confinement test of the rehearsal server passes for every accepted path exactly unless
  the web root is `/`, where it refuses every file
  (`StaticPath.AcceptedTargetsStayBelowRoot`).
- The Full-network gate admits less than `deriveAccess`: an operator, a subject spelled in
  upper case and a blank evidence reference are refused
  (`ProtectedContent.FullNetworkNeedsDerivedFull`).

## Model

| member | source | states |
|---|---|---|
| X25519Keys.ListIsClosedUnderAliases | src/full-recipient-directory.mjs:34-71 | among keys with a clear top bit, the list holds exactly the encodings of the field elements of the seven listed ones, read as section 5 of RFC 7748 reads them: every alias is listed and nothing else is |
| X25519Keys.HighBitTestIsNeeded | src/full-recipient-directory.mjs:71 | the encoding of 2^255 denotes a listed element but is not in the list, so only the high-bit test refuses it |
| X25519Keys.ElementIsTheReducedValue | src/full-recipient-directory.mjs:34-42 | masking the top bit and one conditional subtraction of the prime is reduction modulo 2^255 and then modulo 2^255 - 19 |
| Domain.NormalizationIsCanonical | src/domain.mjs:4-7 | the strict test of a key holds exactly of 64 lowercase hexadecimal digits, and normalising reaches such a key at once |
| Domain.AccessIsGranted | src/domain.mjs:18-26 | Full and Operator are derived exactly where a current assertion of the one source and version grants them to the same key, in whatever case; access is Limited in every other case |
| RecipientDirectory.CollectRecipients | src/full-recipient-directory.mjs:100-113 | the loop with its two sets and the previous subject succeeds exactly when every recipient normalises, subjects strictly increase and keys are distinct, and then lists all of them in order |
| RecipientDirectory.NormalizeFullRecipientDirectory | src/full-recipient-directory.mjs:90-118 | available with all recipients in order exactly when header, every recipient, order and distinctness are right at that time; otherwise unavailable |
| RecipientDirectory.AcceptanceWindow | src/full-recipient-directory.mjs:64-97 | a structurally valid snapshot is accepted at exactly the times of one half-open interval, from the latest start to the earliest expiry of snapshot, keys and authorities, no longer than five minutes |
| RecipientDirectory.RecipientIsSoundAndLive | src/full-recipient-directory.mjs:64-88 | the check of one recipient separates into what does not depend on the time and one half-open interval of times |
| RecipientDirectory.WindowOfAll | src/full-recipient-directory.mjs:73-77 | snapshot and all recipients are live at a time exactly when it lies between the latest start and the earliest expiry |
| RecipientDirectory.AcceptedOrderingIsUnique | src/full-recipient-directory.mjs:104-113 | a set of recipients has at most one accepted ordering |
| RecipientDirectory.SublistIsAccepted | src/full-recipient-directory.mjs:99-114 | any subsequence of an accepted list is accepted at the same time |
| RecipientDirectory.SubjectSetIsRedundant | src/full-recipient-directory.mjs:101-111 | a subject that repeats an earlier one always fails the order test, so the set of seen subjects never decides anything |
| RecipientDirectory.AcceptedKeysAvoidListedElements | src/full-recipient-directory.mjs:71 | no key of an accepted directory denotes a listed field element |
| ProtectedContent.FullNetworkNeedsDerivedFull | src/protected-content.mjs:41-58 | the Full-network gate opens exactly when the record derives Full, both subjects are the same canonical spelling, and an evidence reference, if any, is not blank |
| ProtectedContent.DecisionsByAudience | src/protected-content.mjs:41-58 | public content is open to everyone and an unsupported audience to no one, whatever record comes along; the full network exactly to the subject of a current Full record |
| ProtectedContent.SortIsAnOrderedPermutation | src/protected-content.mjs:89-117 | sorting permutes every list into code-unit order, which is strict exactly when nothing is repeated |
| ProtectedContent.RecipientSubjects | src/protected-content.mjs:107-118 | the sorted list of distinct canonical subjects, or nothing |
| ProtectedContent.NormalizeCurrentFullRecipients | src/protected-content.mjs:78-90 | the sorted list of the distinct subjects with a current Full record each, or nothing |
| ProtectedContent.ListingIgnoresOrder | src/protected-content.mjs:107-118 | the result is the same for every ordering of the subjects |
| ProtectedContent.RecordListingIgnoresOrder | src/protected-content.mjs:78-90 | the result is the same for every ordering of the authority records |
| ProtectedContent.DirectorySubjectsPassUnchanged | src/protected-content.mjs:107-118 | the subject list of an accepted directory goes through the recipient gate unchanged |
| ProtectedContent.DirectoryAuthorityDerivesFull | src/full-recipient-directory.mjs:75-77 | every authority record an accepted directory rests on derives Full for its subject at that time |
| SocialGraph.ContextIsDistance | src/visibility.mjs:5-14 | self, direct, friend-of-friend and unrelated are exactly the shortest-path lengths 0, 1, 2 and more in the undirected friend graph |
| SocialGraph.ContextIsSymmetric | src/visibility.mjs:5-14 | viewer and subject may be exchanged |
| SocialGraph.OnlyFriendshipsMatter | src/visibility.mjs:8 | sponsor-trust edges change nothing |
| SocialGraph.VisibleIsWithinRadius | src/visibility.mjs:16-23 | a subject is visible exactly within distance 1 for Limited and 2 for Full and Operator |
| SocialGraph.VisibilityOnlyGrows | src/visibility.mjs:5-23 | adding friendships or raising the status never hides anyone |
| SocialGraph.DecisionsAreReasoned | src/visibility.mjs:16-23 | denied by default outside the one policy, a known status and a known context; each reason is given exactly for the rule that decided |
| ProvisionalKeyStore.SharedDatabase.Create | web/messaging-device-ed25519-key-v2.mjs:449-473 | creation re-reads the X25519 row, runs the guard and adds, changing no existing record |
| ProvisionalKeyStore.SharedDatabase.ClaimSigning | web/messaging-device-ed25519-key-v2.mjs:474-539 | the claim is a compare-and-swap on an unclaimed record under the pending row and the guard; anything else writes nothing |
| ProvisionalKeyStore.SharedDatabase.Persist | web/messaging-device-ed25519-key-v2.mjs:540-572 | the artifact is stored under the same claim and identity once; a different later one is refused |
| ProvisionalKeyStore.TransactionsExtend | docs/SOCIAL_PREACCEPTANCE_ED25519_HANDOFF_V2.md:116-130 | no transaction removes a record or changes an identity, a private key, a claim or an artifact already there |
| ProvisionalKeyStore.CreationCommits | web/messaging-device-ed25519-key-v2.mjs:449-473 | a creation commits exactly if the row stands, the guard passes and the device has no record, and then adds that record alone |
| ProvisionalKeyStore.ClaimAnswers | web/messaging-device-ed25519-key-v2.mjs:474-539 | a claim on the record it was made for, under a standing row and a passing guard, learns of the artifact, else of the earlier claim, else is granted, which alone writes; in every other case it aborts |
| ProvisionalKeyStore.PersistenceAnswers | web/messaging-device-ed25519-key-v2.mjs:540-572 | an artifact is stored exactly under its claim and identity; storing it again succeeds without a change and another one is refused |
| ApprovalProtocol.InvOnEveryRun | web/mobile-device-authorization-seams-v2.mjs:252-397 | the protocol invariant holds after every schedule of any number of tabs, with crashes and session changes anywhere |
| ApprovalProtocol.SignerIsCalledAtMostOnce | docs/SOCIAL_PREACCEPTANCE_ED25519_HANDOFF_V2.md:148-158 | in every run each provisional record sees at most one call of the signer |
| ApprovalProtocol.RunExtends | docs/SOCIAL_PREACCEPTANCE_ED25519_HANDOFF_V2.md:98-130 | in every run a record's identity and private key stay those of its creation; claims and artifacts are never cleared |
| ApprovalProtocol.ArtifactsAreDurableAndUnique | docs/SOCIAL_PREACCEPTANCE_ED25519_HANDOFF_V2.md:160-171 | an artifact handed out is in the store then and ever after, equals every other one handed out for that record, and carries what the one signer call returned |
| ApprovalProtocol.PublishedKeysConverge | docs/SOCIAL_PREACCEPTANCE_ED25519_HANDOFF_V2.md:124-125 | all tabs publish one identity for a device |
| ApprovalProtocol.CreationAndClaimSawThePendingRow | docs/SOCIAL_PREACCEPTANCE_ED25519_HANDOFF_V2.md:116-124 | whenever a run adds a record or a claim, the X25519 row was pending with exactly its identity |
| ApprovalProtocol.AbandonedClaimNeverSigns | docs/SOCIAL_PREACCEPTANCE_ED25519_HANDOFF_V2.md:148-151 | after a crash between claim and artifact no later run calls the signer or hands anything out for that record |
| ApprovalSessions.EventsLeaveUnderTheirSession | docs/SOCIAL_PREACCEPTANCE_ED25519_HANDOFF_V2.md:134-168 | in every run each event leaves in a call begun by that tab for that content or wire, for a record of the subject of the session, seen pending during the call; when a key is published, the signer called or an artifact handed out, the session is the one the call began with, as every checked move found it, the return of the signer among them |
| ApprovalSessions.SignedWiresAreForTheirRecord | web/mobile-device-authorization-seams-v2.mjs:252-397 | in every run the signer is called only for a wire and a claim that repeat the stored record, and an artifact handed out was made for such a wire and passed the signature check |
| ApprovalSessions.StoredClaimIsOfItsWire | web/messaging-device-ed25519-key-v2.mjs:540-572 | in every run the claim beside a stored artifact is the one that its wire makes for that record |
| UndisturbedApproval.UndisturbedRunHandsOut | web/mobile-device-authorization-seams-v2.mjs:252-397 | from an empty store one tab's preparation and approval, undisturbed, publish the generated key, claim the record, call the signer once, store what it returned under the claim and hand it out; nothing else is written or logged |
| UndisturbedApproval.ExactlyOneArtifact | docs/SOCIAL_PREACCEPTANCE_ED25519_HANDOFF_V2.md:148-171 | whatever any tabs do after that run, the signer was called once, exactly that artifact is handed out for the record, and a retry of any idle tab that finds the row pending as before is handed it again without a signer call |
| UndisturbedApproval.PreparationFindsTheStored | web/messaging-device-ed25519-key-v2.mjs:832-842 | whatever happened before, a preparation of the stored content publishes the stored identity and generates nothing |
| UndisturbedApproval.LoserPublishesTheWinner | web/messaging-device-ed25519-key-v2.mjs:884-905 | of two tabs racing to create, the second one changes nothing and publishes the identity of the first |
| UndisturbedApproval.LateClaimIsHandedTheArtifact | web/mobile-device-authorization-seams-v2.mjs:305-322 | an approval that comes to claim after another tab has signed is handed the artifact of that tab, without a signer call |
| CapabilityStore.Store.Sweep | src/server/opaque-recipient-capability.mjs:315-324 | exactly the unexpired records stay |
| CapabilityStore.Store.Issue | src/server/opaque-recipient-capability.mjs:326-453 | issuing does what the specification function says, refusing without a change but the sweep |
| CapabilityStore.Store.Resolve | src/server/opaque-recipient-capability.mjs:455-523 | resolving returns what the specification function says, changing nothing but the sweep |
| CapabilityStore.IssuingKeepsQuotas | docs/OPAQUE_RECIPIENT_CAPABILITY_V1.md:204-223 | issuing keeps the session, subject and global quotas |
| CapabilityStore.IssuesWhileThereIsRoom | src/server/opaque-recipient-capability.mjs:326-453 | a request is granted exactly if it has the documented form, fewer live capabilities than each of the three quotas exist in all, for its session and for its subject, and a drawn text is usable; it gets the first usable one until the time to live ends, and only expired records go |
| CapabilityStore.ResolvesExactlyItsBinding | src/server/opaque-recipient-capability.mjs:455-523 | a capability resolves exactly for a request of the documented form, while it is live, by its own subject and session, with its alias among the current ones |
| CapabilityStore.EveryRun | docs/OPAQUE_RECIPIENT_CAPABILITY_V1.md:204-223 | in every run of calls the quotas hold and every stored record is the latest issue of its capability |
| CapabilityStore.ResolvedWasIssued | docs/OPAQUE_RECIPIENT_CAPABILITY_V1.md:73-95 | in every run, what resolves was issued last to exactly that subject, session, alias and purpose, is unexpired, and names a current alias |
| CapabilityStore.IssuedStaysAvailable | src/server/opaque-recipient-capability.mjs:326-523 | through any calls made before its deadline, what was issued resolves for its subject and session while its alias is current, up to the deadline and not from then on; for anyone else it is unavailable |
| CapabilityStore.IssuingDisplacesNothing | src/server/opaque-recipient-capability.mjs:378-446 | issuing never displaces or repeats a live capability |
| CapabilityStore.FewCannotFillTheStore | docs/OPAQUE_RECIPIENT_CAPABILITY_V1.md:225-227 | the store is never larger than its sessions, or its subjects, times their quota |
| CapabilityStore.DefaultIsolation | docs/OPAQUE_RECIPIENT_CAPABILITY_V1.md:212-227 | under the defaults, in every run, a full store holds at least 256 sessions and 64 subjects |
| CapabilityStore.ConfiguredStoresAreNested | src/server/opaque-recipient-capability.mjs:266-311 | the configurations the constructor produces are exactly those with nested quotas within the maxima, and without quotas of its own a capacity gets the largest nested defaults |
| SessionStore.BoundedSessions.Sweep | src/server/social-oauth-memory.mjs:36-43 | exactly the slots whose retention has not run out stay |
| SessionStore.BoundedSessions.Create | src/server/social-oauth-memory.mjs:44-70 | a record is stored under a new key while there is room, and nothing else changes |
| SessionStore.BoundedSessions.Get | src/server/social-oauth-memory.mjs:83-87 | an undenied unexpired record, or nothing |
| SessionStore.BoundedSessions.BeginLogout | src/server/social-oauth-memory.mjs:73-82 | the slot is marked with a fixed deadline; a repeated call returns the same ticket |
| SessionStore.SessionManager.Sweep | src/server/social-mobile-session-v1.mjs:12-20 | retry state past its deadline goes together with the slot of its own record, then stale aliases go |
| SessionStore.SessionManager.BeginRead | src/server/social-mobile-session-v1.mjs:30-38 | a read up to its await |
| SessionStore.SessionManager.EndRead | src/server/social-mobile-session-v1.mjs:39-45 | a read after its await: the same stored object, rechecked |
| SessionStore.SessionManager.BeginLogout | src/server/social-mobile-session-v1.mjs:72-79 | the local denial, in the slot before any capacity is consulted |
| SessionStore.SessionManager.EndLogout | src/server/social-mobile-session-v1.mjs:80-98 | success only with an acknowledgement; the slot is freed if the retry map owns it |
| SessionStore.SessionManager.EndInstall | src/server/social-mobile-session-v1.mjs:52-70 | one alias per issuance, reused only for the identical undenied record |
| MobileSession.InvOnEveryRun | src/server/social-mobile-session-v1.mjs:30-98 | in every interleaving slots, tickets, aliases, history and log stay consistent, and no record leaves its slot before its deadline except by an acknowledged logout |
| MobileSession.NoReadAfterDenial | docs/SOCIAL_MOBILE_CONSUMER_PHASE2B.md:71 | no read that completes after a denial returns the denied record |
| MobileSession.SuccessIsAcknowledged | docs/SOCIAL_MOBILE_CONSUMER_PHASE2B.md:71 | a logout succeeds only after the upstream acknowledged that cancellation |
| MobileSession.DeniedIssuanceStaysDenied | docs/SOCIAL_MOBILE_CONSUMER_PHASE2B.md:69-71 | until acknowledged, a denied issuance is not presented again, at any load and at any later time, except by a response that ends at least a second after the retention of the cancellation |
| MobileSession.LaterResponseIsPresented | src/server/social-mobile-session-v1.mjs:46-70 | the exception is real: each such response that passes the checks of its format is presented in a run without any acknowledgement |
| MobileSession.OneLiveAliasPerIssuance | docs/SOCIAL_MOBILE_CONSUMER_PHASE2B.md:67-69 | one issuance never has two aliases, and both maps stay within their capacities |
| MobileSession.PendingCancellationIsHeld | docs/SOCIAL_MOBILE_CONSUMER_PHASE2B.md:71 | an unacknowledged cancellation keeps its slot, record and deadline until that deadline, at any load |
| MobileSession.DeadlineNeverMoves | docs/SOCIAL_MOBILE_CONSUMER_PHASE2B.md:71 | the deadline of a cancellation is that of the first denial in every later logout |
| MobileSession.LogoutDeniesUnlessReused | src/server/social-mobile-session-v1.mjs:72-79 | a logout denies the record in the slot exactly when its identifier is not still cancelling another record |
| MobileSession.ReadsExactlyTheUndenied | src/server/social-mobile-session-v1.mjs:30-38 | with fresh identifiers, a stored record is found by a read exactly while it is undenied and unexpired |
| MobileSession.LogoutFindsItsRecord | src/server/social-mobile-session-v1.mjs:72-79 | with fresh identifiers, a repeated logout finds the pending ticket and a first one denies the stored record |
| MobileSession.ReusedIdentifierSurvivesLogout | src/server/social-mobile-session-v1.mjs:72-98 | a run in which an identifier drawn twice lets a record be read after its logout succeeded |
| MobileAnswers.ReadBegins | src/server/social-mobile-session-v1.mjs:30-34 | with fresh identifiers a read returns a desktop record at once, and leaves a mobile one waiting for the upstream, exactly while the record is undenied and unexpired |
| MobileAnswers.WaitingReadCompletes | src/server/social-mobile-session-v1.mjs:35-45 | with fresh identifiers a waiting read returns its record exactly if the upstream confirmed it, it is of the first mobile version, and it is still undenied and unexpired |
| MobileAnswers.EveryReturnIsConfirmed | src/server/social-mobile-session-v1.mjs:30-45 | in every run each returned record is a desktop record returned by the beginning of its read, or one of the first mobile version returned by a waiting read that was confirmed |
| MobileAnswers.SweepKeepsExactlyTheRetained | src/server/social-oauth-memory.mjs:36-43 | in every run a sweep leaves a record in its slot exactly while its retention runs, unless an acknowledged logout freed the slot |
| MobileAnswers.CreatesWhileThereIsRoom | src/server/social-oauth-memory.mjs:44-70 | in every run a record is stored exactly if its key is not held by a retained record and fewer than the capacity are retained |
| MobileAnswers.KnownIssuancePresents | src/server/social-mobile-session-v1.mjs:56-70 | with fresh identifiers a repeated installation of a stored, undenied, unexpired issuance presents its alias exactly if the response is that record and has a second left, and stores nothing |
| MobileAnswers.NewIssuancePresents | src/server/social-mobile-session-v1.mjs:56-70 | an issuance without an alias is stored and presented under the drawn identifier exactly if its response has the form of a mobile record with a second left, the identifier is free and there is room |
| MobileAnswers.LogoutBegins | src/server/social-mobile-session-v1.mjs:72-79 | with fresh identifiers a logout of a retained record denies it; slot and waiting logout hold one ticket, dated by the first denial |
| MobileAnswers.LogoutIsRetried | src/server/social-mobile-session-v1.mjs:78-79 | the retry map takes the identifier in unless it is full |
| MobileAnswers.OneTicketPerIdentifier | src/server/social-mobile-session-v1.mjs:72-79 | in every run a denied slot and the retry map hold one ticket for an identifier that both hold |
| MobileAnswers.LogoutEnds | src/server/social-mobile-session-v1.mjs:80-98 | in every run a waiting logout succeeds exactly if the upstream acknowledges it, now or before, and otherwise changes nothing |
| MobileAnswers.LogoutFreesItsSlot | src/server/social-mobile-session-v1.mjs:93-95 | a logout that succeeds frees the slot of its record if the retry map holds its ticket |
| MobileAnswers.CancelledIdentifiersAreClosed | src/server/social-mobile-session-v1.mjs:30-70 | while an identifier is in the retry map, no read of it begins or completes and no installation presents it |
| HttpServer.MessagingBodyFraming | scripts/hodlxxi-social-server.mjs:205-291 | the header scan decides exactly the rule on the multiset of lower-cased header pairs, so any two raw lists with the same pairs, in whatever order, are decided alike |
| HttpServer.PairOrderIsIrrelevant | scripts/hodlxxi-social-server.mjs:214-231 | under every permutation of the header pairs the scan decides the same, the bff is asked the same and the answer is the same |
| HttpServer.NumeralDeclares | scripts/hodlxxi-social-server.mjs:263-281 | the test of the length values holds exactly when there is one Content-Length, the canonical decimal of a number from 1 to the bound |
| HttpServer.ReadMessagingBody | scripts/hodlxxi-social-server.mjs:293-330 | all the bytes, if there are between 1 and the bound; the loop holds after each chunk what the turn-by-turn function of `RetentionIsBounded` says |
| HttpServer.RetentionIsBounded | scripts/hodlxxi-social-server.mjs:296-316 | after every prefix of every body a reader keeps exactly the bytes of that prefix, at most the bound; it has thrown exactly if the prefix is too long or has a chunk that is no bytes |
| HttpServer.ReadMobileBody | scripts/hodlxxi-social-server.mjs:427-440 | all the bytes, if exactly as many as declared and within the bound; its loop takes the same turns with the mobile bound |
| HttpServer.ChunkingIsIrrelevant | scripts/hodlxxi-social-server.mjs:293-330 | two splittings of the same bytes, of a stream that ends or breaks off, are read alike by both readers, for every bound and every declared length |
| HttpServer.ReadersReturnTheData | scripts/hodlxxi-social-server.mjs:293-330 | each reader accepts exactly the streams that end, of byte chunks only, whose data has the right length, and returns that data |
| HttpServer.Outgoing.Send | scripts/hodlxxi-social-server.mjs:332-343 | status, headers and exactly one end of the response |
| HttpServer.Handle | scripts/hodlxxi-social-server.mjs:352-488 | exactly one response is ended, and the bff is asked exactly what the specification says |
| HttpServer.BffGetsOnlyFramedBodies | scripts/hodlxxi-social-server.mjs:352-488 | the bff is asked at most once, never after a rejection, and gets a body exactly on listed POST routes: all delivered bytes, within the bound, under one Content-Length, and as many as declared on mobile routes |
| HttpServer.ClientReceives | scripts/hodlxxi-social-server.mjs:352-488 | the client receives the reply of the bff as it stands whenever the bff was asked and replied; otherwise a rejection: 413 exactly if the headers break the rule, with the expired cookie exactly on the callback, 400 exactly if only the target is invalid, 500 in every other case |
| HttpServer.BffIsAskedTheRequest | scripts/hodlxxi-social-server.mjs:352-488 | the bff is asked exactly if the target is valid, the headers obey the rule and the body of the route can be read; with the verb, target, single-valued headers and that body |
| HttpServer.AdmittedByRoute | scripts/hodlxxi-social-server.mjs:205-291 | the rule on headers route by route: what an enabled mobile route, a POST to a messaging route, and any other request must and may carry |
| HttpServer.LastValueIsSet | scripts/hodlxxi-social-server.mjs:332-343 | each name that is set ends up with its last value and other headers stay |
| HttpServer.RoutesAreDisjoint | scripts/hodlxxi-social-server.mjs:350-351 | no mobile route the constructor accepts is a messaging route |
| StaticPath.AcceptedTargetsStayBelowRoot | scripts/hodlxxi-social-auth-rehearsal.mjs:209-310 | an accepted target resolves to the root's segments followed by its own, so the confinement test passes exactly unless the root is `/` |
| StaticPath.ResolveAppends | scripts/hodlxxi-social-auth-rehearsal.mjs:306 | resolving names below a normalised root appends them |
| StaticPath.ResolutionIsInjective | scripts/hodlxxi-social-auth-rehearsal.mjs:306-310 | two accepted targets reach one file only through one pathname |
| StaticPath.AcceptsExactlyNames | scripts/hodlxxi-social-auth-rehearsal.mjs:209-251 | without a query exactly `/`, and one or more proper names free of `#`, `%` and backslashes, are accepted |
| StaticPath.OnlyTheRevisionMayBeAsked | scripts/hodlxxi-social-auth-rehearsal.mjs:209-251 | a query is accepted exactly if it is the current revision, undecoded and uncut, on an accepted pathname of a revisioned asset; it leads to the same file |
| Json.ParseOfPrint | src/server/message-envelope-v128f1.mjs:270-279 | `JSON.parse` undoes `JSON.stringify` on every value whose numbers are spelled as JSON allows |
| Json.TextRoundTrip | src/server/message-envelope-v128f1.mjs:210-233 | a quoted string reads back as its text, whatever it contains |
| Base64url.CanonicalIsEncoded | src/server/message-envelope-v128f1.mjs:116-133 | a field is accepted exactly when it is the unpadded encoding of a number of bytes within its bounds |
| Base64url.DecodeOfEncode | src/server/message-envelope-v128f1.mjs:125-129 | decoding undoes encoding |
| MessageEnvelope.CheckAscending | src/server/message-envelope-v128f1.mjs:148-162 | the loop that compares each handle with the one before accepts exactly the strictly ascending lists of accepted handles |
| MessageEnvelope.WireIsStringified | src/server/message-envelope-v128f1.mjs:210-233 | the wire built field by field is `JSON.stringify` of the normalised record |
| MessageEnvelope.WireFits | docs/SECURE_MESSAGING_V1_28F1_ENVELOPE_STORAGE_BOUNDARY.md:40-53 | the wire of every valid envelope is ASCII and at most 26,401 bytes, so the cap of 32,768 refuses none |
| MessageEnvelope.NormalizedIsValid | src/server/message-envelope-v128f1.mjs:135-200 | whatever the normaliser returns is valid |
| MessageEnvelope.AcceptsExactlyTheRecords | src/server/message-envelope-v128f1.mjs:135-200 | the normaliser makes an envelope of a value exactly when the envelope is valid and the value is its record, with the documented constants, the documented keys and no others at every level |
| MessageEnvelope.ValidEnvelopesCarryBytes | src/server/message-envelope-v128f1.mjs:116-200 | an envelope is valid exactly if it carries identifiers of 32 bytes and of a digest, 1 to 16 ascending handles of 16 bytes, a nonce of 12, a ciphertext of 17 to 16,400, and for each device a key of 32 bytes and a wrap of 48 |
| MessageEnvelope.RecordNormalizes | src/server/message-envelope-v128f1.mjs:135-200 | the normaliser returns a normalised record unchanged |
| MessageEnvelope.MemberOrderIsIrrelevant | docs/SECURE_MESSAGING_V1_28F1_ENVELOPE_STORAGE_BOUNDARY.md:58-61 | two objects with the same members, in whatever order, normalise alike |
| MessageEnvelope.WireRoundTrip | src/server/message-envelope-v128f1.mjs:210-279 | parsing the wire of a valid envelope gives it back |
| MessageEnvelope.AcceptedWiresArePrints | docs/SECURE_MESSAGING_V1_28F1_ENVELOPE_STORAGE_BOUNDARY.md:63-70 | the accepted wires are exactly the prints of valid envelopes, each parsing to the envelope it prints |
| MessageEnvelope.DigestPreimageIsInjective | src/server/message-envelope-v128f1.mjs:281-293 | valid envelopes with one digest preimage are one envelope |
| Ipv6.CompressedRunIsFirstLongest | src/server/messaging-device-admission-v1.mjs:53-57 | the compressed run is the first longest run of at least two zero groups |
| Ipv6.ParseOfSerialize | src/server/messaging-device-admission-v1.mjs:53-57 | parsing undoes serializing, for every address |
| Ipv6.CanonicalAddressesAreSerialized | docs/EXACT_MESSAGING_DEVICE_ADMISSION_V1.md:383-386 | the accepted addresses are exactly the serializations of eight pieces |
| Audience.HostsAreSpelledApart | docs/EXACT_MESSAGING_DEVICE_ADMISSION_V1.md:373-386 | different hosts are spelled differently; no accepted DNS name is an accepted IPv4 address |
| Audience.AudiencesAreSpellings | src/server/messaging-device-admission-v1.mjs:44-67 | the accepted audiences are exactly the spellings of valid origins |
| Audience.SpellingsAreUnique | docs/EXACT_MESSAGING_DEVICE_ADMISSION_V1.md:366-390 | every origin has one accepted spelling and no two share one |
| Audience.AudiencesFollowTheGrammar | docs/EXACT_MESSAGING_DEVICE_ADMISSION_V1.md:366-390 | the accepted audiences are exactly those of the documented grammar: dotted labels of which the last names no number, four decimal octets, or eight pieces in brackets, with any port but the default one, and at most 255 characters |
| RelayFilter.CopyDataValues | src/nostr.mjs:41-50 | a list is copied whole, or refused for a hole |
| RelayFilter.ValidatePublicRelayFilter | src/nostr.mjs:73-103 | the loop over the allowed fields builds the normalised filter or refuses |
| RelayFilter.NormalizationIsIdempotent | src/nostr.mjs:73-103 | normalising again changes nothing |
| RelayFilter.FieldOrderIsIrrelevant | src/nostr.mjs:76-100 | the order in which fields were added does not matter |
| RelayFilter.ResultIsOrdered | src/nostr.mjs:81-102 | the result holds allowed fields only, exactly the given ones, each once, in the fixed order, and under each the normal form of its value |
| RelayFilter.SelectionIsPreserved | src/nostr.mjs:52-58 | lowercasing a list of prefixes leaves the keys it selects the same |
| RelayFilter.AcceptedFiltersKeepTheirMeaning | src/nostr.mjs:41-103 | a filter is accepted exactly if it has allowed fields only and each holds what it may; then numbers and kinds are kept as they are and each prefix list keeps its texts in order, in lower case |

## Left out

- JavaScript objects: proxies, dense-array copies, accessors, prototypes, symbols and frozen results; inputs are already extracted records or JSON values, with an option where extraction fails.
- Cryptography: SHA-256, Ed25519, Schnorr signatures, HPKE and random generators are parameters or absent; digest claims stop at their preimages.
- Text: `toLowerCase` and the order of strings are those of ASCII text and of code units; JSON escapes of unpaired surrogates read as the replacement character.
- Times and sizes are integers; the window difference at src/full-recipient-directory.mjs:97 is exact for safe integers.
- SocialGraph.ContextIsDistance: edges hold keys as they are compared; `relationship`, which normalises them (src/domain.mjs:13-16), is not part of this model.
- Clocks of the session store run forward, and one reading serves each stretch between two awaits.
- Freshness at delivery: the directory is judged at the time captured before its await (src/protected-content.mjs:132-137).
- ApprovalProtocol: the desktop session and the key boundary's context are one session per tab; deadlines, cancellation and the relationship check appear as a tab stopping or as a changed session; claims and identities are records rather than canonical wires, and the parsers and digests are function parameters.
- ApprovalSessions.EventsLeaveUnderTheirSession: the moves that go on whatever the session has become are left out of its last part, as the code does not end the call there: storing signed evidence, and a creation refused by its guard, whose call is checked again before it publishes.
- ProvisionalKeyStore: transactions are atomic and serial, as the database provides them; opening and upgrading the database are not part of this model.
- CapabilityStore: the spelling rules of privacy-safe aliases are a parameter, and each random draw is a text.
- SessionStore: the per-key promise chains are replaced by free interleaving; a full lock map and a failing upstream are a logout that never ends; the grammar of access tokens is not modelled.
- HttpServer.Handle: parsing of the request target is an input; `send` does not throw; the body timer is a stream that fails; decoding of UTF-8 and what `Number` makes of a parsed Content-Length are parameters.
- HttpServer.BffGetsOnlyFramedBodies: `Number` is taken to read canonical decimals as they are spelled, and the parsed Content-Length to be the only raw one; on the three messaging routes the number of bytes is not compared with the Content-Length, because the server does not compare it.
- StaticPath.AcceptedTargetsStayBelowRoot: lexical only; symbolic links and reading files are not part of this model.
- MessageEnvelope.AcceptedWiresArePrints: which numerals evaluate to 1 is a parameter that accepts `1`; byte inputs are their ASCII text.
- Ipv6.ParseOfSerialize: the `URL` parser and serializer are those of section 3.5 of the URL Standard, on hexadecimal digits and colons; the repository relies on the runtime for them.
- Event mapping and validation in src/nostr.mjs, the envelope and payload wrappers of src/protected-content.mjs, the wiring of the one shared capability store, Enrollment V2 proofs, token clients, configuration, rendering and start-up code are not modelled.
