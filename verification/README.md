# NyayaVault: a verified model of the evidence vault's backend

The backend keeps legal evidence: an audit log whose events are linked by hashes, evidence items that pass from
custodian to custodian, append-only document versions in an object store and in a write-once blockchain registry,
and an organisation tree that decides who may see which case. This project models those parts and proves the
whole-history promises their documentation makes, or says exactly when they hold.

The model has two layers. Value-level *machines* describe one statement or storage call as a step (in `Custody` one
endpoint call, whose overlaps `CustodyRaces` then takes apart), and theorems speak of every run of them: audit
appends, uploads, anchoring tasks, case creations and custody calls interleave freely. *Classes* (`AuditTable`,
`EvidenceTables`, `DocumentTables`, `InMemoryStorage`, `AnchorTables`, `DocumentRegistry`, `DepartmentTable`,
`CaseTable`, `EvidenceNumberTable`, `UploadInspector`) run the same operations in place, with the loops the program
has, and each method's postcondition ties it to the machine. Check everything with `dafny verify dfyconfig.toml`.

| file | what it models |
|---|---|
| `JsonText`, `CanonicalJson`, `AuditEvents` | the hash pre-image: a JSON printer and parser (sections 4, 5 and 7 of RFC 8259), key sorting, timestamps, event payloads |
| `AuditChain`, `AuditLog`, `AuditProtocol` | the chain checker's theory, the log table with its two algorithms, concurrent appends under the advisory lock |
| `Custody`, `CustodyRaces`, `CustodyTrail`, `EvidenceService` | every endpoint that touches evidence, transfers, case status or uploads; the same calls overlapping; what that does to the audit trail; the same over tables |
| `DocumentStore`, `DocumentService` | interleaved uploads with failures anywhere; one request over tables and object store |
| `Anchoring` | registry contract, anchoring tasks, the three-way verdict |
| `Departments`, `Authorization`, `LikeSearch` | materialised paths, access resolution and its query form, SQL LIKE (section 8.5 of ISO/IEC 9075-2) |
| `CaseNumbers`, `EvidenceNumbers` | the two count-based allocators |
| `TextSniff`, `UploadInspection`, `Filenames` | UTF-8 sniffing (section 4 of RFC 3629), the streaming inspection, safe names and object keys |
| `Basics`, `Decimals`, `Identifiers` | shared vocabulary |

## What is assumed

* SHA-256 is a function parameter. Where a result needs collision-freeness it asks for it on the texts concerned
  only; where the walk needs it, that no digest equals the genesis value (and, where rows are read back, that none is
  empty). Nothing assumes digests of a fixed length.
* UUIDs are inputs; freshness is stated where it is used (`DocumentStore.FreshKey`).
* The clock is an input. That readings under the lock move on is a hypothesis of the linearity theorem and
  `AuditProtocol.NextAppendIntactIff` shows it is exactly what is needed.
* A transaction is a set of pending rows, made visible by commit and dropped by rollback; unique constraints are
  checked at insert and make an insert wait for another transaction's uncommitted row.
* Storage calls, RPC calls and commits succeed or fail as the environment pleases; a write to the store, like a
  contract call, may also be done and reported as failed.

## Where the code and its documentation part

* `verify_chain` is documented to notice deletions; it notices all but the deletion of the newest events
  (`AuditChain.DeletionUnnoticedIffSuffix`).
* An event that does not sort last, by clock reading and then by id, makes the next append fork the chain
  (`AuditProtocol.NextAppendIntactIff`, `AuditProtocol.EqualReadingsFork`).
* A failed refresh after the commit makes `store_version` delete the object of a committed version; such steps are
  exactly what keeps a committed version from verifying (`DocumentStore.VerifiesUnlessLost`,
  `DocumentStore.LateFailureLosesObject`).
* "Anchor failed, no chain record" is wrong exactly when a receipt was lost, or a stranger used the version's name,
  while the hash was still free (`Anchoring.FailedOnChainIff`, `Anchoring.FailedAnchorMayBeOnChain`).
* "Hash not found on chain despite success status!" comes up with the registry reachable and nothing amiss exactly when
  the version is anchored between the question to the registry and the loading of its anchor
  (`Anchoring.VerdictsAreMeaningful`, `Anchoring.VerdictMayBeOvertaken`).
* The guard in `build_object_key` called unreachable can fire: `a..pdf` is an accepted name
  (`Filenames.TwoDotsSurvive`, `Filenames.KeyRefusedIff`).
* A long text file in a three-byte script is refused as unrecognisable although it is valid UTF-8
  (`UploadInspection.ThreeByteTextFileRefused`).
* The listing query shows creators and members without CASE_VIEW the cases that the per-case check refuses them
  (`Authorization.QueryAgreesWithCheck`, `Authorization.CreatorListedYetRefused`). Every seeded role holds CASE_VIEW
  (backend/app/seed.py:156-176), so only a role added later meets this.
* Moving a department with children leaves its descendants' paths stale, and a move under itself is accepted
  (`Departments.MoveStalesDescendants`, `Departments.InnerMoveStales`, `Departments.SelfMoveAccepted`).
* "A transfer is already pending" does not stop two overlapping initiations, after which the second recipient's
  acceptance fails inside `update_status` (`CustodyRaces.MarkedThroughoutIff`, `CustodyTrail.TwoInitiationsRace`,
  `CustodyTrail.SecondAcceptanceFails`).
* An archived case can be changed, or reopened, by a request that had read it before
  (`CustodyRaces.FrozenCaseChangesIff`, `CustodyRaces.ArchivedCaseReopensIff`, `CustodyTrail.ArchivalRaces`).
* A transfer call commits its audit event after its columns. A call on the same item in between leaves a trail that
  shows another status than the row (`CustodyTrail.OvertakenTrailRightIff`, `CustodyTrail.AcceptanceOvertakes`).
* A lost race can leave an evidence number unused. The winner keeps the numbers gapless exactly when as many rival
  items came in during its attempt as it had lost attempts before (`EvidenceNumbers.WinnerKeepsGaplessIff`).

## Model

| member | source | states |
|---|---|---|
| JsonText.ValueRoundTrip | backend/app/services/audit_service.py:57-59 | an RFC 8259 parser reads any printed value back and stops where the value ends, whatever delimiter follows |
| JsonText.NextCharInvertsEscape | backend/app/services/audit_service.py:57-59 | every character, those written as surrogate pairs included, is recovered from its ASCII escape |
| JsonText.EscapeIs | backend/app/services/audit_service.py:57-59 | which of the spellings the grammar allows is chosen: the seven short escapes, printable ASCII as it is, all else as small hexadecimal digits |
| JsonText.PrintInjective | backend/app/services/audit_service.py:57-59 | two JSON values with one text are one value |
| CanonicalJson.CanonicalTextIsMeaning | backend/app/services/audit_service.py:57-59 | canonical texts agree exactly when the JSON values do, dictionaries taken as mappings |
| CanonicalJson.SortedUnique | backend/app/services/audit_service.py:57-59 | equal dictionaries have one sorted listing |
| AuditEvents.TimestampText | backend/app/services/audit_service.py:62-74 | timestamp texts agree exactly for one instant, stored with a zone or without |
| AuditEvents.TimestampReads | backend/app/services/audit_service.py:62-74 | year, month, day, hour, minute, second and microsecond stand in their places of `YYYY-MM-DDTHH:MM:SS.ffffff+00:00` |
| AuditEvents.PreImageUnambiguous | backend/app/services/audit_service.py:91-106 | pre-images agree exactly when every hashed field and the predecessor's hash agree, the optional court grant included |
| AuditEvents.PreImageReads | backend/app/services/audit_service.py:91-106 | whoever parses a pre-image finds the documented entries under the documented names, sorted, and nothing else |
| AuditChain.NoReturn | backend/app/services/audit_service.py:242-276 | the checker's cursor never comes back to a value it had: with unique hashes and none equal to genesis |
| AuditChain.PathFits | backend/app/services/audit_service.py:242-276 | a walk is no longer than the table, so the loop ends |
| AuditChain.ReportUnique | backend/app/services/audit_service.py:225-294 | at most one report explains a table, so the checker has no choice in what it says |
| AuditChain.IntactIffReported | backend/app/services/audit_service.py:211-294 | reported intact exactly when the rows can be ordered into a chain from genesis in which every hash recomputes |
| AuditChain.ReportSays | backend/app/services/audit_service.py:225-294 | what each finding, index, row id and count means in terms of the rows alone: how many claim the last hash reached, how many were not reached |
| AuditChain.HeadIsReported | backend/app/services/audit_service.py:286-294 | of a linear history the reported head is the hash of its last event |
| AuditChain.HeadCommitsToHistory | backend/app/services/audit_service.py:225-285 | two chains with one head hash have the same length and the same hashed fields, links and hashes throughout |
| AuditChain.ChainHashesDiffer | backend/app/services/audit_service.py:225-285 | no hash repeats in a chain under a digest that tells its rows apart |
| AuditChain.DeletionUnnoticedIffSuffix | backend/app/services/audit_service.py:214-224 | removing rows from an intact log leaves it intact exactly when the removed rows are the newest |
| AuditChain.EditReportedWhereItIs | backend/app/services/audit_service.py:225-273 | in whatever order the edited table is read, an edit of hashed content is reported at its place in the chain, with the row's id |
| AuditLog.CollisionFreeBinds | backend/app/services/audit_service.py:105-106 | a digest without collisions on the log's pre-images tells its rows apart |
| AuditLog.HeadPinsHistory | backend/app/services/audit_service.py:77-106 | with such a digest, one head hash means one history |
| AuditLog.NewestIs | backend/app/services/audit_service.py:114-121 | the head lookup finds a row of the table that no other sorts after, by instant and then by id in code-point order |
| AuditLog.HeadIsLatest | backend/app/services/audit_service.py:114-121 | wherever it is in the table, the row later than all others, or as late with a greater id, gives the head hash; an empty hash reads as genesis |
| AuditLog.AuditTable.RecordEvent | backend/app/services/audit_service.py:124-193 | appends exactly the row built on the hash of the latest row, or fails, exactly without attribution or on a repeated id or hash, and leaves the table alone |
| AuditLog.AuditTable.VerifyChain | backend/app/services/audit_service.py:211-294 | terminates with the one report the table's walk explains, hence intact exactly for linear histories, with the last event's hash as head, and otherwise with the place and kind of the break |
| AuditLog.GroupByPrevious | backend/app/services/audit_service.py:238-240 | the dictionary lists, per predecessor hash, exactly the rows that claim it, in table order |
| AuditProtocol.StepKeepsInv | backend/app/services/audit_service.py:109-193 | every statement of every session keeps one chain whose last row is newest |
| AuditProtocol.EveryInterleavingIsLinear | backend/app/services/audit_service.py:109-193 | as long as each new event sorts after those before it, in every interleaving committed plus pending rows are one chain whose tail the next head lookup finds, and the committed log checks as intact |
| AuditProtocol.CommittedOnlyGrows | backend/app/services/audit_service.py:136-142 | committed events are never changed or dropped |
| AuditProtocol.CommittedIff | backend/app/services/audit_service.py:136-142 | all or nothing, in every interleaving: an event is committed exactly when a session inserted it and then committed with its transaction unbroken |
| AuditProtocol.PendingIff | backend/app/services/audit_service.py:136-142 | what a session has pending is exactly what it inserted since its transaction last ended |
| AuditProtocol.RecordEventIsThreeSteps | backend/app/services/audit_service.py:146-180 | lock, head lookup and insert, uninterrupted, append the row `record_event` appends |
| AuditProtocol.NextAppendIntactIff | backend/app/services/audit_service.py:114-121 | after an append the next one leaves the log intact exactly when the first sorted after all before it |
| AuditProtocol.EqualReadingsFork | backend/app/services/audit_service.py:114-121 | three accepted appends at one clock reading that leave no linear history |
| AuditProtocol.TwoClaims | backend/app/services/audit_service.py:246-252 | two rows with one predecessor admit no linear history |
| Custody.CallPerforms | backend/app/services/evidence_service.py:113-237 | every successful endpoint call does one of five effects on items, transfers and trail, and nothing else |
| Custody.StepKeepsInv | backend/app/services/evidence_service.py:113-237 | every call keeps items, transfers and audit trail in agreement |
| Custody.EveryStateIsConsistent | backend/app/routers/evidence.py:42-227 | the invariants hold after every sequence of calls by anyone, one after another |
| Custody.ReplayRebuildsCustody | backend/app/services/evidence_service.py:121-139 | replaying the audit events alone gives every item's status and custodian |
| Custody.OnePendingTransfer | backend/app/services/evidence_service.py:144-187 | an item has one pending transfer while marked TRANSFER_PENDING and none otherwise |
| Custody.CustodyIsUnbroken | backend/app/services/evidence_service.py:190-213 | completed transfers link end to end from whoever registered the item to its custodian |
| Custody.ResolutionSucceedsIff | backend/app/services/evidence_service.py:190-237 | accepting or rejecting succeeds exactly when the recipient of a pending transfer, still authorised, asks: `update_status` never refuses it |
| Custody.ResolveSucceedsIff | backend/app/services/evidence_service.py:190-237 | in any state, resolving succeeds exactly for the recipient of a pending transfer, authorised, of an item pending or sealed; what then changes |
| Custody.TransitionTable | backend/app/services/evidence_service.py:23-33 | the ten transitions there are |
| Custody.RegisterSucceedsIff | backend/app/routers/evidence.py:42-57 | registering succeeds exactly with EVIDENCE_CREATE on an existing case and an unused id; what then changes |
| Custody.SealSucceedsIff | backend/app/routers/evidence.py:166-175 | sealing succeeds exactly with EVIDENCE_SEAL for a registered item; only its status changes, and one event records it |
| Custody.StartSucceedsIff | backend/app/routers/evidence.py:178-189 | starting an analysis succeeds exactly with EVIDENCE_ANALYZE for the custodian of an item in custody |
| Custody.CompleteSucceedsIff | backend/app/routers/evidence.py:192-203 | completing one succeeds exactly with EVIDENCE_ANALYZE for the custodian of an item under analysis |
| Custody.SubmitSucceedsIff | backend/app/routers/evidence.py:206-215 | submitting succeeds exactly with EVIDENCE_SUBMIT for an analysed item |
| Custody.ArchiveSucceedsIff | backend/app/routers/evidence.py:218-227 | archiving succeeds exactly with EVIDENCE_ARCHIVE for an item submitted to court |
| Custody.InitiateSucceedsIff | backend/app/services/evidence_service.py:144-187 | a transfer starts exactly with EVIDENCE_TRANSFER, by the custodian, of an item sealed or in custody, to another active user |
| Custody.UploadSucceedsIff | backend/app/routers/documents.py:129-180 | a new version is taken exactly with both CASE_UPDATE and DOCUMENT_UPLOAD on the case |
| Custody.StatusChangeSucceedsIff | backend/app/routers/cases.py:131-145 | a case status changes exactly for MANAGE access with CASE_VIEW, and not out of ARCHIVED |
| Custody.OnlyManagersChangeStatus | backend/app/services/case_service.py:143-159 | whatever call changes the status of a case is a status change by somebody with MANAGE access |
| Custody.Refusals | backend/app/services/evidence_service.py:113-116 | an authorised call in the wrong status is refused as invalid, an analysis by another than the custodian as denied |
| Custody.RefusedAtTheGate | backend/app/services/authorization.py:51-69 | a caller without access to the case finds no item, one with access but without authority is denied |
| Custody.InitiationRefusals | backend/app/services/evidence_service.py:144-161 | why a transfer is not started, refusal by refusal |
| Custody.ResolutionRefusals | backend/app/services/evidence_service.py:190-220 | why accepting or rejecting is refused, refusal by refusal |
| Custody.CaseCallRefusals | backend/app/services/authorization.py:51-69 | why a registration, an upload or a status change is refused |
| Custody.TransitionsGoForward | backend/app/services/evidence_service.py:23-33 | the transition table goes forward except between custody and a pending transfer |
| Custody.StatusNeverGoesBack | backend/app/services/evidence_service.py:113-141 | over any continuation an item stays, keeps its case, and its phase does not go back |
| Custody.WhoeverStartsCompletes | backend/app/routers/evidence.py:178-203 | every completed analysis was completed by whoever started it |
| Custody.FrozenStep | backend/app/services/authorization.py:86-101 | on a case outside the mutable statuses no call changes anything but archives submitted items |
| Custody.FrozenCaseStaysUntouched | backend/app/services/authorization.py:94-99 | while a case stays frozen no sequence of calls adds a version, item or transfer, or changes a custodian |
| Custody.ArchivedForever | backend/app/services/authorization.py:148-150 | an archived case is archived, and untouched, in every continuation |
| CustodyRaces.ApplyIsSettled | backend/app/services/evidence_service.py:113-237 | a call whose checks pass writes exactly the columns, and owes exactly the event, that the overlapping model gives it |
| CustodyRaces.SerialWhenChecksHold | backend/app/services/evidence_service.py:113-237 | overlapping calls whose checks would still pass when they write leave the rows of all tables but the trail as the same calls do one after another |
| CustodyRaces.LandingKeepsMarkedIff | backend/app/services/evidence_service.py:144-187 | one write keeps "marked pending" and "has one pending transfer" the same exactly unless it hits a pending item without resolving that transfer |
| CustodyRaces.MarkedThroughoutIff | backend/app/services/evidence_service.py:144-237 | over a run of overlapping calls that agreement holds all along exactly when no call writes so |
| CustodyRaces.ResolutionFailsInsideIff | backend/app/services/evidence_service.py:190-237 | past the checks made up front a resolution fails in `update_status` exactly when the item is neither pending nor sealed |
| CustodyRaces.ResolutionSucceedsUnclobbered | backend/app/services/evidence_service.py:190-237 | while no write has hit a pending item so, it never fails there |
| CustodyRaces.ChainThroughoutIff | backend/app/services/evidence_service.py:190-213 | over a run of overlapping calls hand-overs link from registrar to custodian all along exactly when every acceptance lands while its sender is custodian |
| CustodyRaces.AnalystThroughoutIff | backend/app/routers/evidence.py:178-203 | an item under analysis is held by whoever started it all along exactly when every start lands in its actor's custody |
| CustodyRaces.LandingAltersIff | backend/app/services/evidence_service.py:113-237 | which writes change a case's items, transfers or versions, call by call |
| CustodyRaces.FrozenCaseChangesIff | backend/app/services/authorization.py:86-101 | a step changes a frozen case exactly when it lands such a call on it, which, archiving an item apart, passed its checks while the case was open for changes |
| CustodyRaces.ArchivedCaseReopensIff | backend/app/services/authorization.py:148-150 | a step reopens an archived case exactly when it lands a change to another status, which read the case before it was archived |
| CustodyTrail.CalmTrailRebuildsCustody | backend/app/services/evidence_service.py:121-139 | over any overlaps, as long as no call lands on an item between a transfer call's two commits and no second commit is lost, replaying the trail shows every item that owes no event as its row is |
| CustodyTrail.OvertakenTrailRightIff | backend/app/services/evidence_service.py:174-186 | a call run between a transfer call's two commits leaves the trail right exactly when it is on another item |
| CustodyTrail.AcceptanceOvertakes | backend/app/services/evidence_service.py:174-186 | a run in which an item in the recipient's custody is shown as pending with the sender by a trail that owes nothing |
| CustodyTrail.TwoInitiationsRace | backend/app/services/evidence_service.py:144-187 | a run that leaves one item with two pending transfers |
| CustodyTrail.SecondAcceptanceFails | backend/app/services/evidence_service.py:190-213 | a run after which an authorised recipient of a pending transfer is refused inside `update_status` |
| CustodyTrail.ArchivalRaces | backend/app/services/case_service.py:143-159 | runs in which an archived case gains a version, and is reopened |
| EvidenceService.EvidenceTables.UpdateStatus | backend/app/services/evidence_service.py:113-141 | moves the status along the ten transitions and records it, or refuses and changes nothing |
| EvidenceService.EvidenceTables.RegisterEvidence | backend/app/routers/evidence.py:42-57 | succeeds exactly with EVIDENCE_CREATE on an existing case and an unused id: a new item in the registering actor's custody and no other item touched; otherwise nothing changes |
| EvidenceService.EvidenceTables.SealEvidence | backend/app/routers/evidence.py:166-175 | succeeds exactly with EVIDENCE_SEAL for a registered item, and then changes its status alone |
| EvidenceService.EvidenceTables.Start | backend/app/routers/evidence.py:178-189 | succeeds exactly with EVIDENCE_ANALYZE for the custodian of an item in custody, and changes its status alone |
| EvidenceService.EvidenceTables.Complete | backend/app/routers/evidence.py:192-203 | succeeds exactly with EVIDENCE_ANALYZE for the custodian of an item under analysis |
| EvidenceService.EvidenceTables.SubmitEvidence | backend/app/routers/evidence.py:206-215 | succeeds exactly with EVIDENCE_SUBMIT for an analysed item |
| EvidenceService.EvidenceTables.ArchiveEvidence | backend/app/routers/evidence.py:218-227 | succeeds exactly with EVIDENCE_ARCHIVE for an item submitted to court |
| EvidenceService.EvidenceTables.InitiateTransfer | backend/app/services/evidence_service.py:144-187 | succeeds exactly for the custodian, with EVIDENCE_TRANSFER, of an item sealed or in custody, to another active user: a pending transfer is added and the custodian stays |
| EvidenceService.EvidenceTables.AcceptTransfer | backend/app/services/evidence_service.py:190-213 | succeeds exactly for the authorised recipient of a pending transfer of an item pending or sealed, who becomes custodian of that item alone; a refusal changes nothing |
| EvidenceService.EvidenceTables.RejectTransfer | backend/app/services/evidence_service.py:216-237 | succeeds under the same conditions and leaves every custodian; a refusal changes nothing |
| DocumentStore.StepKeepsInv | backend/app/services/document_service.py:107-206 | every statement and storage call of every upload, failures included, keeps rows, objects and requests in agreement and only appends rows |
| DocumentStore.VersionsAreConsecutive | backend/app/services/document_service.py:98-134 | in every interleaving a document's versions are 1 to `current_version`, each once, neighbours unlike in hash |
| DocumentStore.NumberingAndCheck | backend/app/services/document_service.py:98-127 | a request is numbered one above all versions of its document, and refused exactly when the newest version has its bytes' hash: A, B, A is three versions |
| DocumentStore.StepNeverOverwrites | backend/app/services/document_service.py:136-142 | no step, whatever keys are drawn, replaces a stored object, and only the write of a request adds one, with that request's bytes |
| DocumentStore.CommittedVersionsStay | backend/app/services/document_service.py:117-134 | no committed version is changed or dropped |
| DocumentStore.VerifiesUnlessLost | backend/app/services/document_service.py:188-206 | a committed version verifies exactly unless an earlier step was the clean-up of its own request failing after the commit |
| DocumentStore.LedgersRecordSteps | backend/app/services/document_service.py:193-206 | a key's object was lost, or abandoned, exactly when a named step of the run did it |
| DocumentStore.LateFailureLosesObject | backend/app/services/document_service.py:191-206 | a run of one upload whose committed version does not verify |
| DocumentStore.StorageMatchesDatabase | backend/app/services/document_service.py:107-206 | a key is stored exactly when committed or in flight, exactly unless such a late failure, a failed clean-up or a write done but reported as failed hit it |
| DocumentService.InMemoryStorage.Put | backend/app/storage.py:199-204 | stores the payload under its key, or refuses a wrong length and stores nothing; a write reported as failed may have been done |
| DocumentService.DocumentTables.NextVersionNumber | backend/app/services/document_service.py:98-104 | the first number above all versions of the document, 1 for a new one |
| DocumentService.DocumentTables.StoreVersion | backend/app/services/document_service.py:107-206 | one request does what its steps in the machine do: already stored, key taken, write failed, failed later or created, each exactly when it should be, with the rows and objects of each outcome |
| DocumentService.DocumentTables.VerifyVersion | backend/app/services/document_service.py:259-300 | verified exactly when the stored object re-hashes to the recorded digest, however it is chunked |
| Anchoring.DocumentRegistry.AnchorHash | blockchain/contracts/DocumentRegistry.sol:23-41 | writes the entry for an unanchored hash, and reverts without a change for an anchored one |
| Anchoring.DocumentRegistry.GetAnchor | blockchain/contracts/DocumentRegistry.sol:43-53 | the entry of an anchored hash, a revert otherwise |
| Anchoring.StepKeepsInv | backend/app/services/blockchain_service.py:104-155 | every step of uploads, tasks and strangers keeps ANCHORED meaning "the registry names this version" |
| Anchoring.RegistryOnlyGrows | blockchain/contracts/DocumentRegistry.sol:23-41 | registry entries are never changed or removed over a run |
| Anchoring.AnchoredForever | backend/app/services/blockchain_service.py:119-155 | once ANCHORED, the registry names exactly that case, document and version for ever |
| Anchoring.OneAnchoredPerHash | backend/app/services/blockchain_service.py:55-80 | at most one version per hash is ANCHORED |
| Anchoring.VerdictsAreMeaningful | backend/app/routers/documents.py:389-409 | each of the five verdicts exactly: object altered; pending; failed; with the registry asked first and the anchor loaded later, "not on chain despite success" exactly for a version anchored in between, "verified" exactly for one anchored before, whose record names it |
| Anchoring.VerdictMayBeOvertaken | backend/app/routers/documents.py:389-409 | a run in which a version anchored between the two reads raises that alarm |
| Anchoring.CallFailsOnChainIff | backend/app/services/blockchain_service.py:55-80 | one call reports failure for a version on chain exactly when the record was there before or the hash was free and the receipt was lost |
| Anchoring.ConfirmedIffWritten | backend/app/services/blockchain_service.py:55-155 | over a run a version's record is on chain exactly when some step put it there while its hash was free |
| Anchoring.FailedOnChainIff | backend/app/routers/documents.py:400-402 | with one task per version, a FAILED version is on chain exactly when its receipt was lost or a stranger used its name while the hash was free |
| Anchoring.FailedAnchorMayBeOnChain | backend/app/services/blockchain_service.py:73-80 | a run in which a FAILED version has its own entry on chain |
| Anchoring.AnchorTables.AnchorDocumentHash | backend/app/services/blockchain_service.py:55-80 | registry and status after a call that is not sent, sent and lost, or confirmed |
| Anchoring.AnchorTables.AnchorBackgroundTask | backend/app/services/blockchain_service.py:104-155 | one task changes anchor and registry as its steps in the machine do: a pending anchor becomes ANCHORED exactly when its hash was free and the receipt arrived, and nothing else changes |
| Anchoring.AnchorTables.VerifyChain | backend/app/routers/documents.py:370-409 | the five verdicts, each exactly when it is due, on the digest of all chunks joined, or the failure of a missing object |
| Departments.ConsistentIffRight | backend/app/models/department.py:52-82 | every path is what its listener would write exactly when every path spells out the chain of parents from a root |
| Departments.PrefixIffAncestor | backend/app/models/department.py:50-82 | in a consistent table one path is a prefix of another exactly for an ancestor or the same department |
| Departments.ScopeIsSubtree | backend/app/services/authorization.py:169-171 | the LIKE condition of the query selects exactly the subtree |
| Departments.FitsIffSixDeep | backend/app/models/department.py:39 | a path fits 255 characters exactly down to the sixth level |
| Departments.EditKeepsConsistencyIff | backend/app/routers/departments.py:70-104 | an edit keeps the table consistent exactly when it is refused, moves nothing, or moves a childless department under another |
| Departments.RunStaysSound | backend/app/routers/departments.py:31-104 | whatever the edits, names stay unique, parents exist and no department disappears |
| Departments.PathsIndexTheTree | backend/app/models/department.py:50-82 | after any run of creations, renames and such moves, path prefixes are exactly ancestry |
| Departments.MoveStalesDescendants | backend/app/models/department.py:70-82 | a move outside the own subtree leaves everyone rooted and makes stale exactly the proper descendants |
| Departments.InnerMoveStales | backend/app/models/department.py:70-82 | a table of four departments in which an accepted move leaves a grandchild stale |
| Departments.MoveInsideDetaches | backend/app/routers/departments.py:96-102 | a move under itself or a descendant is accepted and leaves no chain to a root |
| Departments.SelfMoveAccepted | backend/app/routers/departments.py:96-102 | a department moved under itself, accepted |
| Departments.ResavingRestores | backend/app/models/department.py:70-82 | re-saving the stale rows, parents first, restores a consistent table, to a depth of six |
| Departments.CreationIs | backend/app/routers/departments.py:31-60 | an accepted creation adds one row with its name, parent and path, and each refusal has its reason |
| Departments.UpdateIs | backend/app/routers/departments.py:70-104 | an accepted update renames and moves as asked, re-places the row under its parent of now when anything is assigned, leaves every other row, and each refusal has its reason |
| Departments.DepartmentTable.CreateDepartment | backend/app/routers/departments.py:31-60 | the same of the table in place, where the path is the insert listener's |
| Departments.DepartmentTable.UpdateDepartment | backend/app/routers/departments.py:70-104 | the same of the table in place, the update listener running only when a field is assigned |
| Authorization.FirstMatchIsHighest | backend/app/services/authorization.py:105-126 | the first rule that applies gives the highest level any applicable rule gives |
| Authorization.CanWriteIff | backend/app/services/authorization.py:71-101 | each of the seven writes is allowed exactly to holders of its permission who are ADMIN, creator or assigned at CONTRIBUTE or MANAGE, on a case OPEN, UNDER_INVESTIGATION or SUBMITTED |
| Authorization.CanReadIff | backend/app/services/authorization.py:71-101 | any other action is allowed exactly to holders of its permission who are ADMIN, creator, assigned at any level, or oversee the case through their department |
| Authorization.AllowsIff | backend/app/services/authorization.py:86-101 | the check on resolved access, action and status, without naming its tables |
| Authorization.LiteralSets | backend/app/services/authorization.py:86-99 | the seven writing permissions and the three mutable statuses |
| Authorization.ListedIffAccess | backend/app/services/authorization.py:152-179 | the outer-join query lists a case exactly when access resolves to some level |
| Authorization.QueryAgreesWithCheck | backend/app/services/authorization.py:71-101 | query and check agree on a case exactly for ADMIN, for CASE_VIEW holders and for users who neither created it nor are assigned to it |
| Authorization.CreatorListedYetRefused | backend/app/services/authorization.py:164-167 | a creator without permissions is listed the case the check refuses |
| Authorization.QueryListsCases | backend/app/services/authorization.py:173-179 | the query lists existing cases only, each once, in spite of join duplicates |
| LikeSearch.ThreePassesAreOne | backend/app/services/case_service.py:115 | three replacements in this order escape every special character once |
| LikeSearch.StripIs | backend/app/services/case_service.py:112-115 | stripping takes white space off both ends and nothing else |
| LikeSearch.AsciiSpaces | backend/app/services/case_service.py:112-115 | which ASCII characters are white space |
| LikeSearch.SearchFindsSubstrings | backend/app/services/case_service.py:112-121 | the pattern matches exactly when the lower-cased term occurs in the lower-cased text |
| LikeSearch.LikePrefix | backend/app/services/authorization.py:171 | a plain prefix followed by a percent sign matches exactly the texts it begins |
| CaseNumbers.NumberInjective | backend/app/services/case_service.py:28-41 | year and sequence number can be read off a case number |
| CaseNumbers.FoundIffOfYear | backend/app/services/case_service.py:37-40 | the LIKE prefix counts a case number exactly under its own year |
| CaseNumbers.NumberLooks | backend/app/services/case_service.py:28-41 | the 42nd number of 2026 is NV-2026-000042 |
| CaseNumbers.CountIs | backend/app/services/case_service.py:36-40 | the query counts the rows that begin with the year's prefix |
| CaseNumbers.StepKeepsInv | backend/app/services/case_service.py:44-97 | every step of every creation keeps each year's numbers consecutive |
| CaseNumbers.NumbersAreConsecutive | backend/app/services/case_service.py:44-97 | in every interleaving with retries and failures, a year's numbers are exactly 1 to its count, each once |
| CaseNumbers.OnlyCommitsAdd | backend/app/services/case_service.py:54-97 | cases come in by commits alone, each under the number its creation inserted |
| CaseNumbers.UninterruptedCreation | backend/app/services/case_service.py:44-97 | a creation nobody interferes with commits the number after the last of the year |
| CaseNumbers.GivingUpMeansFiveWinners | backend/app/services/case_service.py:54-97 | a creation that gives up has seen at least five other cases committed since it began |
| CaseNumbers.UnrivalledAttemptWins | backend/app/services/case_service.py:44-97 | with no rival during the first attempt it takes the next number of the year |
| CaseNumbers.CaseTable.GenerateCaseNumber | backend/app/services/case_service.py:28-41 | the number after the count of the year's cases |
| CaseNumbers.CaseTable.CreateCase | backend/app/services/case_service.py:44-97 | takes the first proposal that no rival commits meanwhile, or none when all five are beaten |
| EvidenceNumbers.NumberLooks | backend/app/services/evidence_service.py:60-62 | the seventh item of a case is numbered -EV-0007 after the case number |
| EvidenceNumbers.CountIs | backend/app/services/evidence_service.py:60 | the query counts the rows of the case |
| EvidenceNumbers.EvidenceNumberTable.Allocate | backend/app/services/evidence_service.py:58-102 | takes the first of five proposals not taken when it inserts, or none, which without rivals means five unused numbers |
| EvidenceNumbers.AloneTakesLeastFree | backend/app/services/evidence_service.py:58-62 | without rivals that is the least free of the five numbers after the count |
| EvidenceNumbers.AloneFailsOnlyAfterSkips | backend/app/services/evidence_service.py:58-102 | without rivals an allocation fails only if at least five numbers up to the count are unused |
| EvidenceNumbers.AloneStaysGapless | backend/app/services/evidence_service.py:58-62 | without rivals a gapless case gets the next number and stays gapless |
| EvidenceNumbers.WinnerKeepsGaplessIff | backend/app/services/evidence_service.py:58-102 | whatever rivals do, a winner on gapless numbers keeps them so exactly when as many rival items came in during its attempt as attempts were lost before |
| EvidenceNumbers.LostRaceSkips | backend/app/services/evidence_service.py:60-62 | a single lost race on a gapless case leaves a number unused |
| TextSniff.SignatureIff | backend/app/services/file_validation.py:64-88 | a binary format is found exactly when one of its signatures is at the head: the order of the tests does not matter |
| TextSniff.SniffedIff | backend/app/services/file_validation.py:64-106 | each format exactly: binary ones by signature; plain text without one, under .txt, without NUL and UTF-8 throughout or up to its last four bytes |
| TextSniff.CharacterIffGrammar | backend/app/services/file_validation.py:95-106 | the decoder's characters are those of the nine alternatives of the RFC 3629 grammar |
| TextSniff.DecodesIffUtf8 | backend/app/services/file_validation.py:95-106 | decoding does not raise exactly on whole characters one after the other |
| TextSniff.DecodesIffBoundary | backend/app/services/file_validation.py:95-106 | well-formed UTF-8 cut short decodes exactly when cut between characters |
| TextSniff.WindowAccepted | backend/app/services/file_validation.py:95-106 | NUL-free text cut to a window of n bytes is recognised exactly when n or n-4 is a character boundary |
| TextSniff.LongUniformText | backend/app/services/file_validation.py:95-106 | long text of equally wide characters is recognised exactly unless they take three bytes |
| TextSniff.ThreeByteTextRefused | backend/app/services/file_validation.py:68-92 | such a text has no recognised format at all |
| UploadInspection.UploadInspector.InspectUpload | backend/app/services/file_validation.py:147-220 | however the bytes are cut into reads: accepted exactly for an allowed name, a size within bounds, the one format of the extension and agreeing checks; each refusal has one reason, the first that applies; content, digest and size are of all bytes received; never more than the limit is spooled |
| UploadInspection.UploadInspector.Receive | backend/app/services/file_validation.py:165-181 | the reading loop hashes and spools all bytes, keeps the first 8192 as head, and stops beyond the limit |
| UploadInspection.ExtensionToMime | backend/app/services/file_validation.py:36-38 | the table from extensions to types is the allow-list turned round |
| UploadInspection.MediaTypes | backend/app/config.py:22-31 | the media type each permitted extension stands for |
| UploadInspection.DeclaredIff | backend/app/services/file_validation.py:203-208 | a declared type agrees exactly when blank, the extension's own or the catch-all, up to case, outer white space and parameters |
| UploadInspection.TextFileAcceptedIff | backend/app/services/file_validation.py:89-106 | a well-formed text file is accepted exactly when within bounds and short, or cut favourably by the window |
| UploadInspection.ThreeByteTextFileRefused | backend/app/services/file_validation.py:183-187 | a long text file of three-byte characters is refused |
| Filenames.SanitizeIsSafeAndIdempotent | backend/app/storage.py:42-63 | non-empty, safe characters only, no dot in front, at most 111 characters, and unchanged by a second pass |
| Filenames.SafeCharacters | backend/app/storage.py:31 | the 65 characters kept |
| Filenames.SquashIs | backend/app/storage.py:52 | safe characters stay in place and order, and each run of others becomes one underscore |
| Filenames.SanitizeKeepsSafeNames | backend/app/storage.py:50-63 | a directory with either slash, white space around and dots before it are all that is dropped from a safe name of moderate length, and nothing left becomes "document" |
| Filenames.CappedIs | backend/app/storage.py:56-63 | the part after the last dot keeps ten characters, the part before it a hundred, a name without a dot 110 |
| Filenames.CapKeepsExtension | backend/app/storage.py:56-63 | cutting a name to size neither grants nor removes an allowed extension |
| Filenames.AcceptedNames | backend/app/services/file_validation.py:130-144 | accepted exactly when present, short enough, without NUL and allowed by the extension of the cleaned name; what is returned is the sanitised name and its extension |
| Filenames.ExtensionIs | backend/app/services/file_validation.py:60-61 | the extension is what follows the last dot, lower-cased, unless only dots come before |
| Filenames.LowerAsciiIs | backend/app/services/file_validation.py:60-61 | the 26 capitals become their small letters and nothing else changes |
| Filenames.RefusedNames | backend/app/services/file_validation.py:130-144 | why a name is refused, in order: blank, over 255 characters, a NUL, none of nine extensions |
| Filenames.KeyRefusedIff | backend/app/storage.py:66-86 | key building fails exactly for a sanitised name with two adjacent dots |
| Filenames.TwoDotsSurvive | backend/app/storage.py:83-85 | such a name exists, is its own sanitised form and is accepted for upload |
| Filenames.KeySplitsUniquely | backend/app/storage.py:74-81 | an object key determines case, document, version, UUID and sanitised name |
| Filenames.KeyParts | backend/app/storage.py:66-81 | the fixed words of a key and where case, document, version, UUID and name stand in it |

## Left out

- Custody.CallPerforms: takes each endpoint call as one step although transfers commit twice, inside the status change and after their audit event; `CustodyRaces` and `CustodyTrail` take the two apart.
- Custody.ReplayRebuildsCustody: speaks of calls one after another; a call between a transfer call's two commits, or the loss of the second, breaks the replay, as `CustodyTrail.OvertakenTrailRightIff` and `CustodyTrail.CalmTrailRebuildsCustody` say.
- Custody.OnePendingTransfer: speaks of calls one after another; `CustodyRaces.MarkedThroughoutIff` says what overlapping calls do to it.
- Custody.FrozenCaseStaysUntouched: speaks of calls one after another; `CustodyRaces.FrozenCaseChangesIff` says what overlapping calls do to it.
- Custody.ArchivedForever: speaks of calls one after another; `CustodyRaces.ArchivedCaseReopensIff` says what overlapping calls do to it.
- CustodyRaces.SerialWhenChecksHold: says nothing of the audit trail, whose events may be recorded in another order; a request reads all its rows at one moment and writes all its columns at another, and reads spread over several moments are not modelled.
- Custody.CustodyIsUnbroken: evidence numbers, descriptive fields and the source document's hash of an item are not part of the state.
- DocumentStore.VerifiesUnlessLost: the object store changes only through the service; tampering behind its back is what verification reports and is not a step of the machine.
- DocumentStore.StorageMatchesDatabase: key building that fails on two adjacent dots ends a request before its first write and is not a step; fields of a version other than number, key, hash and size are dropped.
- Anchoring.AnchorTables.AnchorBackgroundTask: transaction hash, block number, error text and the audit event of an attempt are not modelled.
- Departments.EditKeepsConsistencyIff: permissions, descriptions, organisation types and the audit event that follows an update are not modelled; an edit whose path overflows the column is refused, as the declared column width has it.
- Departments.ResavingRestores: re-saving is an update of a row's own fields one row after the other; the repository has no endpoint that does it in bulk.
- Authorization.ListedIffAccess: a path in the user's department must hold no LIKE wildcard; `Departments.PathIsPlain` shows none of the paths the listeners write does.
- LikeSearch.SearchFindsSubstrings: lower-casing is per character and leaves the three special characters alone; database collations and characters whose lower case is longer are out.
- JsonText.ValueRoundTrip: floats, lone surrogates and values that only `default=str` can print are left out, as is what a JSON column does to metadata between write and read.
- CanonicalJson.CanonicalTextIsMeaning: booleans and numbers are kept apart, as their texts are, where Python's own equality is not; floats are left out.
- AuditEvents.TimestampText: instants are in UTC already; conversion from other zones is left out.
- AuditLog.AuditTable.RecordEvent: database triggers and permissions that protect the table from edits are not modelled; edits and deletions appear as hypotheses of the tampering theorems.
- CaseNumbers.NumbersAreConsecutive: cases are never deleted, and all case numbers come from the allocator; seeded or imported numbers are out.
- EvidenceNumbers.EvidenceNumberTable.Allocate: an integrity error of the audit insert in the same attempt is not distinguished.
- UploadInspection.UploadInspector.InspectUpload: the ZIP library's verdict on a Word container is a parameter, and the spool's move from memory to disk is not visible.
- Filenames.SanitizeIsSafeAndIdempotent: text is a sequence of code points; no Unicode normalisation takes place, as in the program.
- The court portal, court locking and court access links: several endpoints flush without committing and use names that are never imported.
- The demonstration endpoint that rewrites a version's object key: the setting that enables it is taken to be off.
- MinIO, web3, password hashing, tokens, text extraction and full-text search: foreign calls.
- SQLAlchemy's identity map and row locking: the advisory lock of the audit chain is the only lock modelled.
- Timelines, statistics, pagination, the frontend, schemas, configuration, migrations and seed data: plumbing and easy counts.
- Case creation's membership row and audit event, and member assignment: they add no invariant of their own.
