# Stella Runtime: verified protocols

A Dafny model of the crash-recoverable protocols of Stella Runtime and of the canonical forms their checksums rest on,
with proofs of what they promise over every run.  `dafny verify dfyconfig.toml` checks everything.

## What is modelled

| component | modules | source |
|---|---|---|
| Activation barrier | `SyncProtocol`, `SyncSafety`, `SyncGuarantees`, `SyncExactness`, `SyncEvidence`, `SyncDecisions`, `Sync` | `src/sync/index.ts` |
| Change-set publication | `ChangeSets`, `PublicationProtocol`, `PublicationSafety`, `PublicationRecords`, `Publication` | `src/publication/index.ts` |
| Projection exchange | `ExchangeProtocol`, `ExchangeSafety`, `ExchangeHistory`, `ExchangeDecisions`, `Exchange` | `src/personal-data/exchange.ts` |
| Canonical JSON and text | `Unicode`, `JsonStrings`, `JsonNumbers`, `Jcs`, `JcsCanonicity`, `JsonSyntax`, `JsonTexts`, `PayloadText` | `src/personal-data/canonical.ts` |
| Projection producer and consumer | `ProjectionModel`, `ProjectionConformance`, `ProjectionSoundness`, `ProjectionOrder`, `ProjectionIdentity`, `IdentityBuilds`, `Projection` | `src/personal-data/projection.ts` |
| Candidate admission | `AdmissionProtocol`, `AdmissionSafety`, `AdmissionDecisions`, `AdmissionSnapshots`, `Admission` | `src/admission/index.ts`, `src/admission/persistence.ts` |
| Publication over the admission store | `AdmittedPublication`, `AdmittedRecords` | `src/publication/index.ts`, `src/admission/persistence.ts` |
| State ledger and outbox | `StateViews`, `StateProtocol`, `StateConstraints`, `StateSafety`, `StateGuarantees`, `StateDecisions`, `Reanswers`, `State` | `src/state/index.ts`, `src/state/management.ts`, `src/state/canonical.ts` |
| Recovery restore | `RestoreProtocol`, `RestoreSafety`, `RestoreContents`, `RestoreDecisions`, `Restore` | `src/recovery/index.ts` |
| Retrieval paths | `RetrievalProtocol`, `RetrievalSafety`, `RetrievalDecisions`, `Retrieval` | `src/openclaw/consumption.ts` |
| Generation build and verify | `GenerationRecords`, `GenerationModel`, `GenerationSafety`, `GenerationContents`, `GenerationBuilds`, `GenerationOrder`, `Generation` | `src/generation/index.ts`, `src/authority/index.ts` |
| Core canonical JSON and order | `Canonical`, `Ordering`, `CoreJson` | `src/core/canonical-json.ts` |

Each imperative component comes in four layers.  A `...Protocol` (or `...Model`) module is the specification: durable
state is one datatype value and every operation a function of it and of what the ports answer.  The `...Safety`,
`...Guarantees` and similar modules prove properties of that specification over every run.  The `...Decisions`,
`...Evidence`, `...Records`, `...Soundness`, `...Contents` and `...Builds` modules say in the fields of inputs, outcomes
and stored records, and in none of the specification's own predicates, when each operation goes through, what it then
leaves, and what every stored record and every acceptance means; `JsonSyntax` and `JsonTexts` do the same for the
serializers by reading their output back as RFC 8259 does.  A class named after the source's own keeps the source's
fields, loops and handlers, updates them in place, and every method of it is proved to do what the specification does,
so the properties hold of the imperative code too.

## How crashes, hashes and ports are modelled

- A running process is its durable state and a number `life` of effects it still performs before it dies.  Every atomic
  write, rename, directory removal, SQL transaction and host call is one effect; a dead process performs none.  A claim
  "for every `life`" is a claim about a crash between any two effects.  In `RestoreProtocol` copying a database and
  writing a JSON file are two effects each, torn and then whole.
- A SHA-256 checksum is a constructor over what is hashed, so it is injective and nothing else is assumed of it.
  Content-derived names (generation ids, projection revisions, change set ids) are such constructors too.
- What a port, a host or git answers is an input of each operation, chosen freely, whether the call succeeds or not.
  The assumptions made: a host verification succeeds only when the host really serves that target; `findCommit` finds a
  commit that exists; a commit that is returned has landed and is of the asked change set; ids and routing tokens that
  the source draws at random are fresh.
- Clocks, random ids, process liveness and directory listing order are inputs.
- Unicode normalization form C and `JSON.parse` are parameters with stated properties, which can be met
  (`PayloadText.IdentityNormalizes`, `JcsCanonicity.ParserExists`).  Text is a sequence of UTF-16
  code units, which is what the source's `<` compares.

## Where the code does less than expected

Each of these is a property one would state for all runs or inputs, or that a comment states, which the code does not
keep on all of them.  The lemmas named say exactly when it holds; where it takes a run to break it, a concrete run is a
lemma too.

- Gate safety fails in two windows.  A sync that inherits an interrupted destructive replacement journals `prepared`
  over a host nobody verified, and a crash there makes the next startup reopen.  And a sync that fails before it touches
  the host, because runs do not drain or because a domain is no longer current after they did, calls the host's restore
  before it journals anything, so a crash reopens from `gate_closed` or `runs_drained` over an unknown host.  Runs:
  `SyncExactness.InheritedReplacementOpensUnverified`, `SyncExactness.UndrainedSyncOpensUnverified`,
  `SyncExactness.StaleSyncOpensUnverified`, and from a fresh runtime `SyncExactness.SecondSyncOpensUnverified`.  The
  exact condition, from any disk, is `SyncExactness.SyncIsGateSafeExactly`.
- A destructive replacement that is retried forgets what it withdrew: it compares with what is active now, which may be
  the replacement itself, so a failed retry can bring the withdrawn prior back.
  (`SyncExactness.WithdrawnPriorComesBack`, `SyncExactness.RetryKeepsPriorWithdrawnExactly`)
- A retry inherits the prior pointer of the attempt before it, so the active pointer may then be neither prior nor
  target.  (`SyncExactness.RetryKeepsBracketExactly`)
- Source determinism over history is lost exactly with a collection that removes a revision whose source is not bound,
  one committed before bindings existed: some later publication of that source then commits another revision.  A
  publication that dies right after its claim hides this, because its binding stays.
  (`ExchangeHistory.CollectingKeepsDeterminismExactly`, `ExchangeHistory.CollectingUnboundLosesDeterminism`,
  `ExchangeHistory.DeadClaimHidesTheConflict`)
- An import without events does not rewrite the history row of revision 0, so the store reports the predicted view only
  if the prediction carries the initialization time; and a manifest prepared without events at another time is refused
  by its own head check.  (`StateGuarantees.ImportReportsPrediction`, `StateGuarantees.PreparedManifestImports`)
- Restore recovery gets stuck on a journal or lock that was torn while being written, and so does every later restore.
  (`RestoreSafety.DiesTakingLock`, `RestoreSafety.DiesWritingJournal`, `RestoreSafety.TornFilesBlockForever`,
  `RestoreSafety.RecoverySucceedsExactly`)
- A malformed target database is called replaceable in a comment (`src/recovery/index.ts:1174`), but the run guard
  before it refuses such a target.  The model follows the code.  (`RestoreSafety.GuardedTargetIsNeverReplaced`)
- Whether a restore is already applied is decided on head, events and outbox, so a target with other view history,
  imports or confirmations than the snapshot counts as restored and stays.  (`RestoreContents.ImportCountsAsApplied`,
  `RestoreSafety.AlreadyAppliedIsSnapshotExactly`)
- Two retrieval applies since one capture are not undone when the second dies between the ownership write and the
  configuration write.  (`RetrievalSafety.TwoAppliesLeaveAPath`, `RetrievalSafety.TwoAppliesAreUndoneExactly`)
- A second restore of retrieval paths drops a path that was owned at capture time and that others added since.
  (`RetrievalSafety.RestoreIsIdempotentExactly`)
- Two context entries with one category and id, or two background values of one kind, are not refused, and their order
  then shows in the bytes.  (`ProjectionOrder.EntryOrderIsForgottenExactly`,
  `ProjectionIdentity.BuilderOrderIsForgottenExactly`, `ProjectionIdentity.TwoOfOneKindShow`)
- `canonicalJson` is canonical but not RFC 8785: array-index keys come first, by number, and surrogates without a partner
  are escaped instead of refused.
  (`CoreJson.AgreesWithJcsExactly`)
- The admission store's `preparePublication` looks at `consumed` only once an artifact is bound, so a receipt that was
  consumed inside the service can still be bound and published; the other way round it cannot.
  (`AdmissionSafety.ConsumedIsPreparedExactly`, `AdmissionSafety.PreparedIsNeverConsumed`)

## Model

| member | source | states |
|---|---|---|
| SyncProtocol.ForbiddenExactlyWhenPriorIsWithdrawn | src/sync/index.ts:672-689 | A replacement forbids restoring the prior exactly when some destructive policy domain drops or re-checksums a document the prior had; the two nested loops of the source mean exactly this quantified statement |
| SyncSafety.GateSafety | src/sync/index.ts:567-967 | Gate safety over all runs: any sequence of syncs, recoveries and gate closings, each dying after any durable write or host call, keeps "gate absent and pointer present implies the host serves exactly that generation", and the pointer is always backed by a stored receipt with the same generation, revision and manifest checksum. Runs that enter one of the two windows below are excluded |
| SyncSafety.InitialInv | src/sync/index.ts:374-429 | A fresh runtime, with no journal and no pointer, satisfies the invariant, so GateSafety speaks of every reachable state |
| SyncSafety.RecoveryKeepsInv | src/sync/index.ts:585-653 | Startup recovery keeps the invariant from any crash point, and when it says clean and lives, the host really serves the pointer |
| SyncSafety.SyncKeepsInv | src/sync/index.ts:691-967 | One sync, dying anywhere, keeps the invariant unless it enters one of the two windows |
| SyncExactness.InheritedReplacementOpensUnverified | src/sync/index.ts:593-598 | First window, as a concrete run: a sync that inherits an interrupted destructive replacement over a host that does not serve the active pointer, and dies having journaled `prepared`, makes the next startup open the gate over that host |
| SyncExactness.RetryIsGateSafeExactly | src/sync/index.ts:704-783 | Retrying an inherited replacement is gate-safe for every crash point and every answer with the given outcome of the preflight (draining, domains current) if and only if the host serves the active pointer when the retry starts and the preflight succeeds or there is no inherited prior |
| SyncExactness.UndrainedSyncOpensUnverified | src/sync/index.ts:943-955 | Second window, as a concrete run from any rest state (one recovery has nothing to do on, a gate closed for maintenance included) with an active pointer: draining fails, the handler calls the host restore, and a crash before that is journaled makes the next startup reopen from `gate_closed` over an unknown host |
| SyncExactness.StaleSyncOpensUnverified | src/sync/index.ts:770-783 | The same window after a successful drain: a domain of the generation is no longer current, and a crash in the rollback makes the next startup reopen from `runs_drained` over an unknown host |
| SyncExactness.SecondSyncOpensUnverified | src/sync/index.ts:691-967 | A run from the fresh runtime that breaks gate safety: the first sync activates undisturbed, the second does not drain and dies in the rollback, and startup opens over an unknown host |
| SyncExactness.SyncIsGateSafeExactly | src/sync/index.ts:691-967 | From any disk that keeps the invariant, whatever it has to recover first: with the answers to that recovery and the outcome of the preflight (draining, domains current) given, a sync and the startup after it are gate-safe for every crash point and every other answer if and only if the sync cannot start, or that recovery blocks it, or else what it inherits, if anything, is over a host that serves the active pointer, and its preflight succeeds or it has nothing to fall back on, which is the inherited prior or the pointer that recovery leaves |
| SyncExactness.SyncFromRestIsGateSafeExactly | src/sync/index.ts:770-783 | In particular, a sync from any rest state is gate-safe for every crash point and every answer with the given outcome of the preflight if and only if the preflight (draining, and for a composite generation the domains being current) succeeds or no pointer is active |
| SyncGuarantees.CallKeepsBracket | src/sync/index.ts:691-967 | Any sync that does not retry an inherited replacement, and any recovery, dying anywhere, leaves the pointer at the journaled prior or the journaled target, never a third value; for retries `SyncExactness.RetryKeepsBracketExactly` says exactly when |
| SyncGuarantees.ForbiddenReplacementIsNeverUndone | src/sync/index.ts:604-653 | Once a forbidden replacement is journaled at `host_applying` or later, any number of startup recoveries leaves host and pointer as they were, and the gate reopens only on the journaled target that the host is verified to serve |
| SyncGuarantees.ForbiddenSyncIgnoresHandler | src/sync/index.ts:943-955 | From `host_applying` on, the failure handler of a forbidden attempt never calls the host restore or writes the prior pointer, whatever the host would answer |
| SyncGuarantees.PointerMovesOnlyOnEvidence | src/sync/index.ts:443-495 | Every call keeps the pointer, goes back to the journaled prior, or points at a target whose receipt, carrying the evidence the host gave, is stored; what that evidence says is `SyncEvidence.PointerMovesOnReports` |
| SyncGuarantees.RecoveriesEndAtPriorOrTarget | src/sync/index.ts:567-653 | Interrupting and rerunning recovery any number of times leaves the pointer at the prior or at the target, never a third value, with the gate safe throughout |
| SyncGuarantees.UndisturbedRecoveryRestoresPrior | src/sync/index.ts:567-584 | With a host that goes back and no crash, recovery of a non-forbidden attempt ends open on the prior generation |
| SyncExactness.UndisturbedSyncActivates | src/sync/index.ts:691-941 | From any rest state, with a host that serves the target and no crash, a sync ends with the pointer, the receipt, the journal and the gate of the target |
| SyncExactness.RetryKeepsPriorWithdrawnExactly | src/sync/index.ts:753-770 | No crash point and no answer of the rollback handler makes a difference to a retry, so that it cannot go back to the prior it inherits, if and only if there is no prior, or its preflight succeeds and it is itself destructive against what is active now: what the inherited replacement withdrew is not remembered |
| SyncExactness.WithdrawnPriorComesBack | src/sync/index.ts:640-652 | Concrete run: a replacement that withdrew documents of the active generation completes and dies before opening, startup cannot confirm it and parks it, the same generation is retried and fails to apply, and the gate opens on the withdrawn generation |
| SyncExactness.RetryKeepsBracketExactly | src/sync/index.ts:691-770 | A sync that retries an inherited replacement leaves the pointer at its journaled prior or target for every crash point and answer if and only if the pointer was one of the two and was never moved off the prior, or already names the generation that is retried |
| Sync.SyncRuntime.RecoverPrior | src/sync/index.ts:567-583 | The rollback calls the host, puts the prior pointer back, has the host verified, journals and reopens, in that order and only as far as each succeeds and the process lives; behind a closed gate it keeps the invariant, and when it reports success alive, the host serves the pointer |
| Sync.SyncRuntime.RecoverInterrupted | src/sync/index.ts:585-653 | The branch ladder of startup recovery gives the disk and answer of the specification at every crash point, and leaves a gate-safe disk when started on one |
| Sync.SyncRuntime.HandleFailure | src/sync/index.ts:943-964 | After any throw the handler restores the prior or, where that is forbidden, only journals the failure and leaves host and pointer alone; wherever it dies, an attempt past `host_applying` behind its gate stays gate-safe |
| Sync.SyncRuntime.TryActivate | src/sync/index.ts:770-941 | From drain to gate opening: disk and the journal variable a handler would see are the specified ones wherever the attempt throws or the process dies; and when it gets through alive, the applied host has reported the target and each of its domains in full, with nothing left of what they replace |
| Sync.SyncRuntime.SyncGeneration | src/sync/index.ts:691-967 | A whole sync, recovery before it and handler included, gives the specified disk at every crash point, and keeps a safe disk safe outside the two windows |
| Sync.SyncRuntime.CloseMaintenanceGate | src/sync/index.ts:316-336 | Closing the gate for maintenance writes only the gate file and keeps the invariant |
| ExchangeSafety.ActiveNeverDangles | src/personal-data/exchange.ts:619-724 | Over every run of publishes, recoveries, collections and retention writes with crashes anywhere, `active.json` is absent or names a stored revision that verifies and whose manifest checksum it carries |
| ExchangeSafety.RecoveryKeepsDestiny | src/personal-data/exchange.ts:746-919 | A recovery, interrupted anywhere, never changes where the publication will end: at the old pointer from `acquired`, at the new one from any later phase |
| ExchangeSafety.RecoveryFinishesOrUndoes | src/personal-data/exchange.ts:659-724 | After any number of interrupted recoveries, one that lives frees the lock and leaves exactly the destined pointer |
| ExchangeSafety.CollectListedKeepsInv | src/personal-data/exchange.ts:921-1000 | The collection loop removes only revisions that are neither active nor retained, over any directory listing and any crash point |
| ExchangeHistory.PublishThenRecover | src/personal-data/exchange.ts:659-724 | A publish that dies at any point, then any interrupted recoveries and one that lives, ends with the lock free and the old pointer or the new one |
| ExchangeHistory.UndisturbedPublishActivates | src/personal-data/exchange.ts:659-724 | An undisturbed publish of a claimable source commits the revision, activates it and frees the lock |
| ExchangeHistory.SourceDeterminismOverHistory | src/personal-data/exchange.ts:460-514 | Across all publishes, crashes, recoveries and collections of bound revisions, any two revisions ever committed with the same source revision are the same projection revision, with the same as-of time |
| ExchangeHistory.CollectingKeepsDeterminismExactly | src/personal-data/exchange.ts:921-1000 | From a deterministic history, after a collection that may have died anywhere, every later run whose collections remove only bound revisions stays deterministic if and only if every revision this collection removed had its source bound |
| ExchangeHistory.CollectingUnboundLosesDeterminism | src/personal-data/exchange.ts:460-514 | Concrete run: collecting an unbound legacy revision lets the same source be published again under another revision |
| ExchangeHistory.DeadClaimHidesTheConflict | src/personal-data/exchange.ts:687-692 | Concrete run: after such a collection the new publication dies right after its claim and is rolled back, which leaves its binding, so that no stored revision and no binding shows the conflict any more and publishing it again breaks determinism |
| Exchange.FileProjectionExchange.ClaimSourceBinding | src/personal-data/exchange.ts:460-514 | A source is accepted exactly when its binding agrees or, without one, when every stored revision reads and none of that source disagrees; the binding is then written, as specified at every crash point |
| Exchange.FileProjectionExchange.CommitRevision | src/personal-data/exchange.ts:619-657 | An existing revision is verified and kept, a new one is renamed into place whole; never a partial directory under a revision name |
| Exchange.FileProjectionExchange.PublishIdentityProjection | src/personal-data/exchange.ts:659-724 | Lock, temporary directory, commit, pointer and release leave the disk the specification gives at every crash point, so `ExchangeSafety.ActiveNeverDangles` and `ExchangeHistory.PublishThenRecover` hold of it |
| Exchange.FileProjectionExchange.CommitAndActivate | src/personal-data/exchange.ts:694-720 | The phases from `temporary_written` to release leave the specified disk at every crash point |
| Exchange.FileProjectionExchange.RecoverPublication | src/personal-data/exchange.ts:746-919 | Recovery by lock phase, undoing before `temporary_written` and finishing after it, leaves the specified disk at every crash point |
| Exchange.FileProjectionExchange.CollectOrphanRevisions | src/personal-data/exchange.ts:921-1000 | The loop removes the listed revisions that are neither active nor retained, up to the crash point, and nothing else |
| PublicationSafety.PublishedAtMostOnce | src/publication/index.ts:701-839 | Over every run of approvals, publishes and recoveries with crashes anywhere: a change set has at most one commit; a finalized receipt implies its commit; a completed journal implies its commit and a finalization naming the same source revision |
| PublicationSafety.OneCommitPerReceipt | src/publication/index.ts:389-418 | Change sets competing for one receipt yield at most one commit between them, over every run |
| PublicationSafety.HistoryIsAppendOnly | src/publication/index.ts:389-418 | Over every run a bound artifact, a finalization and a landed commit never change |
| PublicationSafety.ResultsAgree | src/publication/index.ts:701-839 | Two calls that report a result for one change set, any number of crashed calls apart, report the same source revision |
| PublicationSafety.UndisturbedRecoveryCompletes | src/publication/index.ts:747-839 | One undisturbed recovery completes a resumable change set, reusing the landed commit when there is one and landing exactly one otherwise |
| Publication.ChangeSetPublicationCoordinator.RecordApproval | src/publication/index.ts:355-387 | An approval is recorded once: the same fresh record again changes nothing, one over any different stored record of the receipt is refused, and a consistent disk stays consistent |
| Publication.ChangeSetPublicationCoordinator.PreparePublication | src/publication/index.ts:389-418 | A receipt is bound to its first artifact, the same artifact again changes nothing, and any other is refused; a consistent disk stays consistent, and success leaves the receipt bound to this change set |
| Publication.ChangeSetPublicationCoordinator.LoadPreparedPublication | src/publication/index.ts:420-447 | The directory scan, in whatever order, finds exactly the record of the receipt the change set id names, and nothing when any record is invalid |
| Publication.ChangeSetPublicationCoordinator.FinalizePublication | src/publication/index.ts:449-481 | A bound receipt takes its first finalization, the same one again changes nothing, and any other is refused; naming the landed commit of its change set it keeps a consistent disk consistent |
| Publication.ChangeSetPublicationCoordinator.ObtainCommit | src/publication/index.ts:776-812 | A commit that exists is reused after its checks, and only if there is none is one landed, against the tree the journal expects; a consistent disk stays consistent, and what is returned is the one commit of the change set, with the tree the journal expects and the checksum of its change set |
| Publication.ChangeSetPublicationCoordinator.Finish | src/publication/index.ts:813-838 | Journal, finalization and completion are written in that order, each skipped where already there; holding the one commit of the journaled change set it keeps the disk consistent at every crash point and lands nothing more |
| Publication.ChangeSetPublicationCoordinator.Publish | src/publication/index.ts:701-745 | A publish, first or repeated, keeps a consistent disk consistent at every crash point and reports only the one commit of its change set |
| Publication.ChangeSetPublicationCoordinator.Recover | src/publication/index.ts:747-754 | A recovery does what resuming the journal is specified to do at every crash point and keeps a consistent disk consistent |
| AdmittedPublication.PublishedAtMostOnce | src/admission/persistence.ts:127-307 | The same over the admission store as approval port, for every interleaving of admission calls with crashing publications from the empty store on: no two commits name one receipt; every commit is of the change set its receipt is bound to, and that receipt was never invalidated and approves a recorded revision; finalized receipts and completed journals have their commits |
| AdmittedPublication.PublishingRefines | src/publication/index.ts:701-745 | A publish over the admission store does nothing where the store refuses to bind, and otherwise does, at every crash point, what a publish over the approval records the store stands for does, outcome included |
| AdmittedPublication.RecoveringRefines | src/publication/index.ts:747-839 | So does a recovery |
| AdmittedPublication.LoadingRefines | src/admission/persistence.ts:246-270 | Of the receipts bound to a change set, whichever the snapshot lists first, the store returns the one the change set names, with its recorded revision |
| AdmittedPublication.AdmissionKeepsInv | src/admission/index.ts:612-1067 | No admission call disturbs a publication under way: bindings, finalizations and what they approve stay as the journals and commits need them |
| ChangeSets.ChangeSetIgnoresOrder | src/publication/index.ts:195-255 | Every ordering of the same operations gives the same artifact, or the same refusal |
| ChangeSets.ArtifactRebuilds | src/publication/index.ts:195-255 | Rebuilding an artifact from its own operations gives it back, which is what the store's tamper check compares |
| ChangeSets.ChangeSetIdIsInjective | src/publication/index.ts:195-255 | Equal change set ids mean the same receipt, candidate and operations |
| Canonical.SortSorts | src/core/canonical-json.ts:8-9 | The canonical sort orders by code units and keeps every element |
| Canonical.SortIgnoresOrder | src/core/canonical-json.ts:8-9 | With distinct keys the sorted list depends only on the elements, not on their order |
| Unicode.WellPairedExactlyWhenUnicode | src/personal-data/canonical.ts:1-14 | The surrogate-pairing check holds of exactly the texts that are the UTF-16 form of some sequence of Unicode scalars |
| Unicode.IsUnicodeScalarString | src/personal-data/canonical.ts:1-14 | The index loop that looks one unit ahead and skips it accepts exactly the well-paired texts |
| JsonStrings.StringTextIsDecodable | src/personal-data/canonical.ts:20-23 | A quoted, escaped string, surrogates without a partner included, can be read back off the front of any text, so the escaping is injective and self-delimiting |
| JsonNumbers.NumberTextIsInjective | src/personal-data/canonical.ts:24-29 | The five layouts of Number::toString (zero, whole, mixed, fraction, scientific) print two finite numbers alike only if they are equal or both zero |
| JsonNumbers.NumberTextIsDecodable | src/personal-data/canonical.ts:24-29 | The same with anything that can follow a number in JSON after it |
| Jcs.CanonCommutesWithSort | src/personal-data/canonical.ts:45-51 | Sorting the entries and then canonicalizing each gives what canonicalizing and then sorting gives |
| Jcs.SerializeJcs | src/personal-data/canonical.ts:16-54 | The recursive serializer, throws included, returns exactly the plain rendering of the canonical form of its argument |
| Jcs.SerializeItems | src/personal-data/canonical.ts:30-39 | The array loop fails on the first item that throws and otherwise holds the text of every item |
| Jcs.SerializeMembers | src/personal-data/canonical.ts:40-51 | The loop over entries sorted by code units fails on the first bad key or value and otherwise holds the text of every member |
| JcsCanonicity.RenderIsDecodable | src/personal-data/canonical.ts:16-54 | A value can be read off the front of a text, whatever follows it: rendering is injective and self-delimiting |
| JcsCanonicity.SerializationIsCanonical | src/personal-data/canonical.ts:16-54 | Two serializable values have the same text if and only if they are equal up to object member order, with -0 equal to 0 (sections 3.2.2 and 3.2.3 of RFC 8785) |
| JcsCanonicity.SameIsSerializableAlike | src/personal-data/canonical.ts:16-54 | Values equal up to member order are serializable together or refused together |
| JcsCanonicity.AcceptsExactlyCanonicalText | src/personal-data/projection.ts:671-686 | For any JSON.parse that reads canonical texts correctly, parseJcsDocument accepts a text if and only if it is the serialization of some value, and returns a value equal to that one |
| PayloadText.CanonicalizationIsIdempotent | src/personal-data/canonical.ts:62-82 | A text payload is accepted as it stands if and only if it has the canonical form said without the pipeline (LF only, normal form C, no BOM, well paired, exactly one final LF), and canonicalizing twice is canonicalizing once |
| PayloadText.CanonicalTextIsCanonical | src/personal-data/canonical.ts:62-82 | Whatever the pipeline produces has the canonical form |
| PayloadText.LineEndingsDoNotMatter | src/personal-data/canonical.ts:75-81 | Texts that differ in line endings or in one final line ending have one payload |
| CoreJson.CanonicalJsonIsCanonical | src/core/canonical-json.ts:44-59 | Two JSON values have one `canonicalJson` text, so `canonicalJsonEqual` and `checksumCanonicalJson` identify them, if and only if they are equal up to member order and the sign of zero, although rebuilt objects enumerate array-index keys first |
| CoreJson.AgreesWithJcsExactly | src/core/canonical-json.ts:15-51 | The core text of a JSON value is the one of RFC 8785 if and only if its texts pair their surrogates and, in every object, whatever key sorts before an array-index key is a smaller array-index key |
| CoreJson.IndexKeysAreTurnedRound | src/core/canonical-json.ts:35-41 | Concrete value: an object with keys 10 and 9 has different core and RFC 8785 texts |
| CoreJson.EnumerationIsByRank | src/core/canonical-json.ts:35-41 | An object rebuilt from entries sorted by key enumerates all of them, ordered by rank: array indices before names |
| CoreJson.RankIsByValue | src/core/canonical-json.ts:35-41 | The rank of array-index keys is their number, whatever their lengths |
| AdmissionSafety.UnresolvedApprovalsAreNeverStale | src/admission/index.ts:612-1067 | Over every run, with and without a store: candidate revisions are numbered 1..n, and every live confirmation and every unconsumed, uninvalidated, unprepared receipt is for its candidate's last revision, owned by the candidate's current authorization, which has not ended |
| AdmissionSafety.ReachableStatesAreCurrent | src/admission/index.ts:612-1067 | The same from the empty store, so for every reachable state |
| AdmissionSafety.OnlyTheCurrentRevisionIsConsumed | src/admission/index.ts:928-974 | A consumption that succeeds is of a non-rejected approval of the candidate's last revision n, under its current authorization, active now, with the authority head still matching |
| AdmissionSafety.DecidedReceiptsNeverChange | src/admission/persistence.ts:127-307 | Over every interleaving of admission and publication calls with fresh receipt ids: a bound artifact and a finalization never change, an invalidated receipt stays exactly as it is (never consumed, prepared or finalized), and recorded revisions are never rewritten |
| AdmissionSafety.ConsumedAtMostOnce | src/admission/index.ts:928-974 | After one successful consumption every later one of that receipt fails, whatever happens in between |
| AdmissionSafety.PreparedIsNeverConsumed | src/admission/index.ts:928-974 | Once bound to an artifact a receipt is never consumed directly, whatever happens in between |
| AdmissionSafety.ConsumedIsPreparedExactly | src/admission/persistence.ts:127-172 | After a direct consumption, and whatever happens in between, binding the receipt succeeds if and only if it is bound to that artifact already, or to none while its authorization is active: being consumed does not prevent it |
| AdmissionSafety.BoundToOneArtifact | src/admission/persistence.ts:149-172 | After a receipt is bound, preparing it again succeeds if and only if it is for the same artifact, whatever happens in between |
| AdmissionSafety.FinalizedOnce | src/admission/persistence.ts:272-307 | After a finalization, another is accepted if and only if it is the same one, whatever happens in between |
| AdmissionSafety.NewRevisionSupersedes | src/admission/index.ts:1052-1067 | Storing a revision, by creation or rewrite, leaves no live confirmation and no live receipt of that candidate |
| AdmissionSnapshots.SnapshotRoundTrip | src/admission/index.ts:976-1050 | A snapshot, listing the maps in any order, restores to the same maps whenever every record hangs off a known authorization or candidate |
| AdmissionSnapshots.ApplyKeepsRooted | src/admission/index.ts:580-974 | Every call keeps that condition, so a store row written by the service can always be read back |
| Admission.CandidateAdmissionService.EndDiscovery | src/admission/index.ts:612-637 | Ending an authorization deletes every confirmation and invalidates every open receipt it owns, entry by entry, and touches no other |
| Admission.CandidateAdmissionService.InvalidateCandidateApprovals | src/admission/index.ts:1052-1067 | The two loops delete exactly the candidate's confirmations and invalidate exactly its open receipts |
| Admission.CandidateAdmissionService.CreateCandidate | src/admission/index.ts:639-689 | A new target starts at revision 1 and an existing one is taken over at its next revision with its approvals invalidated; on any error, in the source's order, the maps stay as they were |
| Admission.CandidateAdmissionService.ReviseCandidate | src/admission/index.ts:691-727 | A rewrite appends revision n + 1 and invalidates what approved revision n; on any error the maps stay as they were |
| Admission.CandidateAdmissionService.PrepareConfirmation | src/admission/index.ts:729-788 | A confirmation opens only on the last revision, under its own active authorization, and keeps every live approval current |
| Admission.CandidateAdmissionService.Decide | src/admission/index.ts:832-898 | Deciding a confirmation closes its token and records a receipt whose decision is rejected exactly for the reject button and otherwise accepted or rewritten by the revision, for the fields of the confirmation; every live approval stays current |
| Admission.CandidateAdmissionService.Consume | src/admission/index.ts:928-974 | A receipt is consumed under exactly the specified conditions; the failures that find it stale first mark it invalidated; every live approval stays current |
| Admission.CandidateAdmissionService.Prepare | src/admission/persistence.ts:127-172 | A receipt is bound to its first artifact and to no other, under exactly the specified conditions, and every live approval stays current |
| Admission.CandidateAdmissionService.Finalize | src/admission/persistence.ts:272-307 | A bound receipt is finalized and consumed once, the same finalization again changes nothing and any other is refused, and every live approval stays current |
| Admission.CandidateAdmissionService.CreateSnapshot | src/admission/index.ts:991-1006 | The snapshot lists every map completely and without repetition |
| Admission.CandidateAdmissionService.RestoreSnapshot | src/admission/index.ts:1008-1050 | Restoring fails exactly on a broken reference or a repeated key and otherwise rebuilds exactly the listed maps |
| Admission.CandidateAdmissionService.Transact | src/admission/index.ts:976-989 | A stored call is all or nothing: the row afterwards restores to the state after the call, or to the state before it when the call threw, and keeps the invariant |
| StateViews.ViewIsLatestEvents | src/state/index.ts:924-958 | A reduced view holds, once per state and in canonical order, exactly the latest event of that state |
| StateViews.ReductionsAgree | src/state/management.ts:89-106 | The values and checksum the store computes are the ones `reduceEvents` predicts |
| StateSafety.LedgerHeadAndHistoryAgree | src/state/index.ts:451-697 | Over every run of imports, corrections, claims and served runs: sequence numbers are exactly 1..active_seq, history rows are exactly 0..active_seq, and the head and every history row carry the checksum and version `#reduceView` recomputes there |
| StateSafety.InitializedInv | src/state/management.ts:221-240 | A freshly initialized store satisfies it |
| StateSafety.CorrectKeepsInv | src/state/index.ts:558-697 | A correction keeps ledger, head and history in agreement |
| StateSafety.ImportKeepsInv | src/state/management.ts:242-296 | An import does too, because the expected head it writes was simulated from the same events |
| StateGuarantees.ViewsNeverChange | src/state/index.ts:699-709 | A view at an existing revision is the same after any run |
| StateGuarantees.ImportReportsPrediction | src/state/management.ts:242-296 | After an import the store reports exactly the predicted view if and only if there were events or the prediction carries the initialization time (the history row of revision 0 is not rewritten) |
| StateGuarantees.PreparedManifestImports | src/state/management.ts:443-471 | A manifest prepared for a pristine store is accepted by it if and only if it has events or was prepared with the initialization time: an empty one fails its own head check otherwise |
| StateGuarantees.PlannedCorrectionHitsItsBase | src/state/management.ts:322-415 | A planned correction recorded after any interleaving of other calls is recorded onto exactly the events and view it was planned against |
| StateGuarantees.OneCorrectionPerReceipt | src/state/index.ts:173-179 | A correction receipt is single use: after one recorded correction no later one with that receipt is ever created |
| Reanswers.OutboxStaysConsistent | src/state/index.ts:711-809 | Over every run each session has at most one open row, the completion count is 1 exactly when the row is completed, and a row in flight has a successor run distinct from the prior run |
| Reanswers.ResolvedAtMostOnce | src/state/index.ts:764-809 | A claim acts only while its own attempt is in flight, and after one completion or release no later completion or release of it succeeds, whatever happens in between |
| Reanswers.StaleClaimNeverActs | src/state/index.ts:764-809 | A released claim stays dead when the row is claimed again, by the same successor or another |
| Reanswers.CompletedIsFinal | src/state/index.ts:764-784 | A completed row never changes |
| Reanswers.CountsAreExact | src/state/index.ts:711-809 | Over every run a row's attempt count grows by exactly its successful claims and its completion count by its successful completions, of which there is at most one, and exactly one if and only if the row ends completed |
| StateConstraints.RunsKeepConstrained | src/state/index.ts:112-169 | Over every run the rows keep what the schema declares unique: event sequence numbers, ids and idempotency keys, outbox idempotency keys and one open row a session, import checksums and receipts |
| State.SqliteStateStore.ReduceView | src/state/index.ts:924-958 | The row loop over a map and the final sort compute the specified view and checksum |
| State.SqliteStateStore.InsertEvents | src/state/index.ts:480-502 | Inserting row by row succeeds exactly when no unique constraint is ever violated |
| State.SqliteStateStore.ImportBaseline | src/state/index.ts:451-556 | An import happens whole or not at all: every constraint failure rolls the tables back to where they were |
| State.SqliteStateStore.Correct | src/state/index.ts:558-697 | A correction happens whole or not at all, and keeps ledger, head and history in agreement |
| State.SqliteStateStore.Claim | src/state/index.ts:711-747 | A pending row goes in flight with its attempt count one higher, anything else is refused without a change, and the outbox stays consistent |
| State.SqliteStateStore.ClaimForSession | src/state/index.ts:749-762 | Claiming for a session claims the session's one pending row, whichever way it is found, or nothing |
| State.SqliteStateStore.Complete | src/state/index.ts:764-784 | Exactly the claim whose attempt, successor and mode are in flight completes its row, which is then retired for good; any other is refused without a change, and the outbox stays consistent |
| State.SqliteStateStore.Release | src/state/index.ts:786-809 | Exactly the claim whose attempt, successor and mode are in flight gives its row back as pending, with the reason recorded, and is retired; any other claim, or a malformed reason, is refused without a change, and the outbox stays consistent |
| RestoreSafety.RecoveryKeeps | src/recovery/index.ts:556-611 | A recovery of an interrupted restore, itself dying or failing anywhere, never changes what the target will end as; when it gets through, the target is that, with journal and lock gone |
| RestoreSafety.RestoreIsAllOrNothing | src/recovery/index.ts:1030-1254 | One restore that crashes, is aborted or fails at any step leaves a state from which recovery gives back exactly the previous target; only past the final journal removal is it exactly the staged snapshot |
| RestoreSafety.RunsAreAllOrNothing | src/recovery/index.ts:556-611 | Over every run of restores and recoveries, each dying or failing anywhere, recovery ends at the target before the run or at the whole of one of the snapshots restored in it: never a mix, never a torn file |
| RestoreSafety.RestoreThenRecover | src/recovery/index.ts:556-611 | A restore that died anywhere, any number of interrupted recoveries and one that gets through leave the target exactly as before (absent included) or exactly the staged snapshot; a recovery torn off in its copy is repaired |
| RestoreSafety.DiesTakingLock | src/recovery/index.ts:380-389 | Concrete run: a restore dies having opened its lock file and not written it, and leaves a torn lock |
| RestoreSafety.DiesWritingJournal | src/recovery/index.ts:1191-1194 | Concrete run: a restore dies having opened its journal file and not written it, and leaves a torn journal over an untouched target |
| RestoreSafety.TornFilesBlockForever | src/recovery/index.ts:586-611 | From a torn lock or journal, every later sequence of restores and recoveries leaves every file as it is, each call giving up |
| RestoreSafety.RestoringAgainChangesNothing | src/recovery/index.ts:1147-1176 | Restoring a snapshot whose digest the target already has leaves the target as it is, whatever dies or fails |
| RestoreSafety.AlreadyAppliedIsSnapshotExactly | src/recovery/index.ts:1147-1176 | A restore that reports its snapshot as already applied leaves the staged snapshot in place if and only if schema, instance, activation time, history, imports and confirmations, which the digest does not read, agree too |
| RestoreContents.BackupDropsExactly | src/recovery/index.ts:703-850 | The row by row selection of a backup drops exactly the events and history rows beyond the head, and keeps exactly the confirmations that join an open correction; nothing of the ledger is lost if and only if no row lies beyond the head |
| RestoreContents.BackupSucceedsExactly | src/recovery/index.ts:703-850 | Inserting the selected rows under the constraints of the snapshot tables and reading them back succeeds, for tables that kept their own constraints, if and only if no open correction counts a completion |
| RestoreContents.RunsAreSound | src/state/index.ts:451-809 | Every run of the store keeps what a backup relies on: ledger, head and history in step, a consistent outbox, and the declared constraints |
| RestoreContents.RestoredLedger | src/recovery/index.ts:703-850 | Of a store that its own runs produced, the selection and reinsertion loses nothing and reorders nothing: head, events, history and imports come back as they were |
| RestoreContents.RestoredViews | src/recovery/index.ts:703-850 | After backup and restore every view at every revision is the same, and ledger, head and history still agree |
| RestoreContents.RestoredIsSound | src/recovery/index.ts:1118-1145 | The restored store keeps every invariant and constraint of the original, so that it runs on and can be backed up in turn |
| RestoreContents.RestoredOutbox | src/recovery/index.ts:1132-1140 | Exactly the open corrections come back, every one pending with its attempts counted and nothing in flight, with exactly their confirmations |
| RestoreContents.ClaimsDoNotSurvive | src/recovery/index.ts:1132-1140 | A claim in flight when the backup was taken can never complete or release on the restored store, whatever runs there |
| RestoreContents.BackupIsReadable | src/recovery/index.ts:414-496 | The backup of a consistent store passes the checks a restore makes of it, before and after staging |
| RestoreContents.BackupThenRestore | src/recovery/index.ts:1030-1254 | An undisturbed restore of a backup onto a target the guard allows ends with exactly the restored store in place, journal and lock gone |
| RestoreContents.ImportCountsAsApplied | src/recovery/index.ts:1147-1176 | Concrete run from reachable stores: the backup of a fresh store, restored over that store after an import without events, counts as already applied, and the row of the import stays |
| Restore.RuntimeRecovery.RollBack | src/recovery/index.ts:556-584 | Rolling back copies the saved target back or removes the new one, then removes stage and journal; wherever it dies or fails, what the target will end as is unchanged, and when it gets through alive the target is that |
| Restore.RuntimeRecovery.RecoverInterrupted | src/recovery/index.ts:586-611 | Recovery refuses a live owner and otherwise rolls back and unlocks, as specified at every crash point, and keeps what the target will end as |
| Restore.RuntimeRecovery.HandleFailure | src/recovery/index.ts:1222-1250 | The catch block over the two flags undoes a replaced target and keeps the journal when undoing fails, so that wherever it dies recovery still ends at the target as it was |
| Restore.RuntimeRecovery.StageSnapshot | src/recovery/index.ts:1118-1145 | Staging writes only the staged database, torn or whole, at every crash point, and leaves what the target will end as alone |
| Restore.RuntimeRecovery.ReplaceTarget | src/recovery/index.ts:1147-1208 | From the staged database to the removed journal: files and the two flags the catch block reads are the specified ones wherever it throws or dies |
| Restore.RuntimeRecovery.Restore | src/recovery/index.ts:1030-1254 | A whole restore leaves the specified files for every crash point, failure and abort, so `RestoreSafety.RestoreIsAllOrNothing` holds of it |
| RetrievalSafety.UndoneExactly | src/openclaw/consumption.ts:538-605 | After a capture and one apply that died anywhere, with others adding foreign paths before and after it, a restore gives the captured list in order followed by exactly the paths the others added, and the ownership record as captured |
| RetrievalSafety.ApplyKeepsOtherPaths | src/openclaw/consumption.ts:564-605 | A completed apply keeps, in order, every path that is neither owned nor listed for removal, and adds only its target |
| RetrievalSafety.RestoreIsRerunnable | src/openclaw/consumption.ts:786-813 | A restore interrupted anywhere and run again gives what one uninterrupted restore gives |
| RetrievalSafety.RestoreIsIdempotentExactly | src/openclaw/consumption.ts:786-813 | A second restore over a completed one changes nothing if and only if no path added meanwhile was one the instance owned when captured |
| RetrievalSafety.TwoAppliesLeaveAPath | src/openclaw/consumption.ts:582-600 | Concrete run: a second apply that dies between the ownership write and the config write leaves the first target in the list for good |
| RetrievalSafety.TwoAppliesAreUndoneExactly | src/openclaw/consumption.ts:564-600 | Two applies since one capture, whatever their cutover plans and whether or not the host takes their lists, are undone from every crash point if and only if the first target was already captured, or is the second, or is refused because a path it must preserve is missing |
| Retrieval.ConsumptionAdapter.Filter | src/openclaw/consumption.ts:593-594 | The filter keeps, in order, what does not resolve into the set |
| Retrieval.ConsumptionAdapter.ApplyTarget | src/openclaw/consumption.ts:564-605 | Ownership is written first and the list second; at every crash point list and record are the specified ones, so `RetrievalSafety.UndoneExactly` holds of it |
| Retrieval.ConsumptionAdapter.Restore | src/openclaw/consumption.ts:786-813 | Pushing path by path gives the captured list followed by the foreign paths it lacks, as specified at every crash point |
| Ordering.OrderIsForgottenExactly | src/core/canonical-json.ts:8-9 | Every order of a list sorts to the same sequence if and only if elements with one key are one element |
| Ordering.SortIsStable | src/core/canonical-json.ts:8-9 | The sort keeps elements with equal keys in the order they came in |
| ProjectionConformance.ContextIsNormal | src/personal-data/projection.ts:304-326 | Normalizing an identity context twice is normalizing it once |
| ProjectionConformance.ConsumerAcceptsProducer | src/personal-data/projection.ts:695-843 | Every publication the producer makes, served with its own pointer, passes the consumer for every purpose that fits it and comes back with the same manifest and the same payload bytes |
| ProjectionConformance.ProducedManifestIsAccepted | src/personal-data/projection.ts:365-460 | A produced manifest passes every manifest check of the consumer, in particular the recomputed revision and the collection order |
| ProjectionConformance.ProducedPayloadsAreConsumed | src/personal-data/projection.ts:788-827 | Every produced payload, JSON, identity context or text, passes the consumer's payload checks and is returned byte for byte, in order |
| ProjectionConformance.OneRevisionOneContent | src/personal-data/projection.ts:249-270 | Two consumptions that succeed under one projection revision, whatever the ports serve, agree on origin, collections and every payload byte |
| ProjectionIdentity.BuiltIdentityIsConsumed | src/personal-data/projection.ts:573-661 | Every identity projection that is built, served with the pointer `pointerFor` makes, passes the consumer for `identity_background` and gives back the same manifest and payload bytes |
| ProjectionIdentity.BuilderOrderIsForgottenExactly | src/personal-data/projection.ts:573-661 | A build that goes through gives the same revision, bytes and ledger for every order of references, policies and background values if and only if background values of one kind are one value up to the order of its references |
| ProjectionIdentity.TwoOfOneKindShow | src/personal-data/projection.ts:573-661 | Concrete input: two different injury constraints are accepted, and published in the order they came in |
| ProjectionOrder.ProducerIgnoresOrder | src/personal-data/projection.ts:272-293 | Permuting any producer input collection, the references inside conflicts and the insides of identity contexts leaves the whole publication unchanged |
| ProjectionOrder.EntryOrderIsForgottenExactly | src/personal-data/projection.ts:304-326 | Every order of the entries gives the same normalized context if and only if entries with the same category and id are the same entry: two different ones are not refused and keep the order they came in |
| ProjectionOrder.ContextIgnoresOrder | src/personal-data/projection.ts:304-326 | With one entry per category and id, the order of categories, entries and references does not show in the normalized context |
| Projection.AcceptedClaimsAgree | src/personal-data/projection.ts:174-199 | Over any run of claims, two accepted claims on one source revision are the same claim |
| Projection.PublicationsAgree | src/personal-data/projection.ts:443-452 | Two publications of one source revision through one ledger, any claims apart, have one projection revision and one as-of time |
| Projection.ProjectionDeterminismLedger.Claim | src/personal-data/projection.ts:191-198 | A claim is accepted exactly when the source revision is new or bound to the same claim, and then it is bound |
| Projection.ProjectionDeterminismLedger.Publish | src/personal-data/projection.ts:365-460 | A publication is made only with its claim on the ledger |
| Projection.ConsumePayloads | src/personal-data/projection.ts:788-827 | The loop checks and collects payloads in manifest order up to the first that fails, as specified |
| Projection.CollectIdentityEntries | src/personal-data/projection.ts:578-602 | The loop pushes one entry per identity field that is present, in field order |
| GenerationSafety.OneIdOneContent | src/generation/index.ts:1595-1984 | Two directories accepted under one generation id have equal records, digest, registry, projection entries, index, view, domain projections, domain index, manifest inputs and projected documents; only the package version and files beyond these may differ |
| GenerationSafety.VerifierAcceptsBuild | src/generation/index.ts:1595-1984 | Whatever a build writes passes every check of the verifier: directory name, files, registry, rebuilt records and their references, identity, domain inputs, recomputed payloads and documents |
| GenerationRecords.ReaderAndVerifierAgree | src/generation/index.ts:395-461 | The reader checks lint, contract and references of the records as read; the verifier checks the records it rebuilds from the sorted, section-sorted ones that are kept: of records parsed right and with distinct ids, both accept exactly the same |
| GenerationRecords.ReferencesCarryOver | src/generation/index.ts:819-870 | Whether every reference resolves depends only on which records there are, not on their order or the order of their sections |
| GenerationSafety.WrittenFilesHold | src/generation/index.ts:1359-1413 | Every file of a written manifest is present, carries its listed checksum and the build's metadata, and depends only on listed files |
| GenerationSafety.EmbeddedIsValid | src/generation/index.ts:1205-1268 | An embedded domain covers its manifest's payloads exactly: none missing, none twice, none unlisted |
| GenerationOrder.BuildIgnoresOrder | src/generation/index.ts:1283-1313 | Permuting records, domains, the sections of any record and the payloads of any domain gives the same directory: same id, manifest, payloads and documents, or the same refusal |
| GenerationOrder.RecordsIgnoreOrder | src/generation/index.ts:1283-1285 | The kept records do not depend on the order they were read in |
| GenerationOrder.AuthorityIgnoresOrder | src/generation/index.ts:513-583 | The reader accepts the same records in whatever order they and their sections come |
| GenerationOrder.DomainsIgnoreOrder | src/generation/index.ts:1205-1268 | The embedded domains do not depend on the order of the domain list, refusals included |
| Generation.CheckListing | src/generation/index.ts:1622-1632 | The set deletion over the listing reports exactly the files that are not in the manifest and the listed files that are not there |
| Generation.CheckFile | src/generation/index.ts:1640-1675 | For one file the branches report exactly the conditions it fails, and end the verification exactly when it cannot be read or parsed |
| Generation.CheckFiles | src/generation/index.ts:1640-1675 | The loop accumulates exactly the issues of the files up to the first unreadable one |
| Generation.VerifyFiles | src/generation/index.ts:1622-1675 | No issue is collected if and only if every file condition of an acceptable generation holds; when all files are readable the issues are exactly the violated conditions |
| Generation.PathCount | src/generation/index.ts:1636-1639 | Comparing the size of the path set with the number of files detects a path listed twice, and nothing else |
| SyncEvidence.TargetAcceptedExactly | src/sync/index.ts:443-495 | What the host reports for a new target is accepted if and only if it names the generation, revision, projection and configuration, and its first entry for every domain of the generation reports that revision and manifest checksum, desired and indexed counts equal to the desired count, the revision it replaces (the one that was active, or none), and zero hits of what was replaced by stable id, text and source reference; stated in the fields of the reply |
| SyncEvidence.ActiveConfirmedExactly | src/sync/index.ts:497-565 | What the host reports for the active pointer is accepted if and only if the binding compiles, the host answers, and it serves in every field the generation of the active pointer, with the sentinels of its receipt and zero hits in every domain |
| SyncEvidence.RunsKeepStored | src/sync/index.ts:691-967 | Over every run, the two windows included, pointers and receipts name stored generations |
| SyncEvidence.PointerMovesOnReports | src/sync/index.ts:817-936 | Over every run from a fresh runtime, each call leaves the pointer, returns it to the journaled prior, or moves it to a generation whose every domain the host has reported in full, with nothing left of what was active before it, whose receipt records that report, and for which every preflight, cutover and currency check passed; stated in the fields of reply, receipt and pointer |
| SyncEvidence.ActivatedOnReports | src/sync/index.ts:770-941 | A sync that returns has activated its target on such a report and on all of its checks, with the journal completed and the gate open |
| SyncEvidence.GateOpensOnReports | src/sync/index.ts:567-653 | Over every run, once an interrupted sync may have touched the host, a closed gate is opened only where the host has reported in every field, sentinels included, the generation the pointer then names, or the target just activated |
| PublicationRecords.CreatedExactly | src/publication/index.ts:195-262 | A change set is created if and only if the receipt accepts or rewrites exactly this candidate revision and the files are not none, have distinct paths and hash to what they say; it names receipt, candidate, base and each file in path order, and its id and checksum are of just that |
| PublicationRecords.RecordsAlwaysSay | src/publication/index.ts:593-632 | Over every run, however calls die, each approval, journal and finalization says in its own fields what it should: a journal is of the change set its receipt is bound to and carries no commit or a landed one with that change set's id and checksum and the tree the journal expects; a finalization names the commit its journal carries |
| PublicationRecords.PublishedIsCommitted | src/publication/index.ts:763-840 | A reported publication is a completed journal whose landed commit has the checksum of its change set and the tree it expects, and the source revision reported is that commit |
| PublicationRecords.FirstPublishLandsValidatedTree | src/publication/index.ts:721-812 | A first publication that reports success was opened on checked inputs and landed one commit, over the tree that both of its validations answered |
| PublicationRecords.EveryCallSteps | src/publication/index.ts:701-812 | One call keeps every journal's change set and expected tree, opens one only on a clean dedicated checkout for an approved change set over the validated tree, and lands at most one commit, only where none of that change set exists and the tree was validated again |
| AdmittedRecords.RecordsAlwaysSay | src/admission/persistence.ts:127-310 | The same over the admission store: bindings, journals and finalizations say what they should, whatever admission does in between |
| AdmittedRecords.EveryCallSteps | src/publication/index.ts:776-812 | A publication or recovery over the admission store does to journals and commits what the coordinator over approval records may do |
| AdmittedRecords.FirstPublishLandsValidatedTree | src/publication/index.ts:727-812 | Over the admission store too, a first publication that reports success landed one commit over the tree both validations answered |
| AdmittedRecords.EveryCommitIsGranted | src/admission/index.ts:832-898 | From the empty store on, whatever admission and publication calls run: for every commit the authority holds, the receipt it names is bound to its change set, approves the recorded revision and the files in it, and comes from a call in which the grantor of that discovery accepted that revision on the confirmation message bound to it |
| AdmissionDecisions.DecidesExactly | src/admission/index.ts:832-898 | A decision goes through if and only if the grantor of an active authorization answers the message bound to a pending request; it closes the request, and records accept of revision 1 as accepted, accept of a later revision as rewritten and reject as rejected |
| AdmissionDecisions.ConsumesExactly | src/admission/index.ts:928-972 | A receipt is consumed if and only if it is unused and not invalidated, approves exactly the given revision, its authorization is active and the authority head is the base; which failures invalidate it is stated too |
| AdmissionDecisions.PreparesExactly | src/admission/persistence.ts:127-200 | A receipt is bound if and only if it is decided for a recorded revision, not rejected or invalidated, and bound to this artifact already or to none under an active authorization |
| AdmissionDecisions.FinalizesExactly | src/admission/persistence.ts:272-307 | A receipt is finalized if and only if it is bound, every field of the finalization is that of the receipt and its change set, and it is finalized with it already or with none |
| AdmissionDecisions.RequestsExactly | src/admission/index.ts:729-788 | A confirmation is requested if and only if the channel is right, the authorization active and the owner, the revision the last one, and the token new and long enough |
| AdmissionDecisions.BindsExactly | src/admission/index.ts:790-821 | A message is bound if and only if the request's authorization is active, the message is of its instance and no other message is bound |
| AdmissionDecisions.CreatesExactly | src/admission/index.ts:639-689 | A candidate revision is stored if and only if the type, base, head and every source fit an active authorization and the target is new or another discovery's; it is numbered next and supersedes exactly the unresolved approvals of its candidate |
| AdmissionDecisions.RevisesExactly | src/admission/index.ts:691-727 | A revision is stored if and only if the candidate's active owner gives a base and sources that fit; it is numbered next and supersedes exactly the unresolved approvals of its candidate |
| AdmissionDecisions.EndsExactly | src/admission/index.ts:612-637 | Ending a discovery withdraws its requests and invalidates its unresolved receipts, and changes nobody else's |
| AdmissionDecisions.RejectedIsNeverUsed | src/admission/index.ts:869-871 | After a decision with the reject button goes through, no later sequence of calls consumes, binds or finalizes that receipt |
| AdmissionDecisions.AcceptedIsConsumed | src/admission/index.ts:869-871 | After a decision with the accept button goes through, consuming the receipt at once for the request's revision succeeds if and only if the authorization is still active and the head is still the base |
| AdmissionDecisions.ApprovalsAreGranted | src/admission/index.ts:832-898 | In every reachable store, each receipt that is not a rejection comes from a call in which an authorized sender who is the grantor of the request's authorization pressed accept on the message bound to it, and it is of that request's revision |
| AdmissionDecisions.UsedIsGranted | src/admission/index.ts:928-972 | So does every receipt that was consumed, bound or finalized |
| ProjectionSoundness.ConsumesExactly | src/personal-data/projection.ts:695-830 | For every port, a manifest is consumed if and only if the pointer is for the caller's instance and pair and is active with the manifest's revision, or stale with it last verified and the purpose identity background or fitness history; the manifest bytes have the pointer's checksum, origin and revision, are the hash of their own content, in order and without repeats; the pair fits the purpose and a capability of it is available; every payload has its listed checksum and is canonical; and the pointer has not changed. What is returned is what was served |
| ProjectionSoundness.ProducesExactly | src/personal-data/projection.ts:365-470 | A publication is made if and only if no path or id is given twice, contexts are the origin's own and every value has canonical bytes; it holds every category, reference, conflict, retraction and capability given, in order, and every payload with its value in canonical bytes and its checksum listed |
| GenerationContents.VerifiedSays | src/generation/index.ts:1088-1200 | In every directory that verifies: the digest names the active system with its record's version and two sections, and lists a module, once and by id, if and only if a kept record with that id is a governing module whose governed_by is the active system, with that record's version and Runtime digest section; registry, entries, index and view say of each kept record its own id, role, version, checksum, governor, references and body; domain index and documents say what is embedded; and every reference among the records is there |
| GenerationContents.BuiltSays | src/generation/index.ts:1269-1440 | Every directory a build returns verifies, says all of that, and keeps exactly the records that were read and the domain projections that were consumed, sorted, none of which offers current fitness state |
| SyncDecisions.RecoversExactly | src/sync/index.ts:585-653 | An undisturbed recovery of any journal over any disk: by phase, the gate and the pointer it goes on to the target, back to the prior, parks the attempt or leaves it alone, with host, pointer, journal and gate stated for each case |
| SyncDecisions.ActivatesExactly | src/sync/index.ts:691-941 | An undisturbed sync activates if and only if the recovery before it did not block, everything was built and captured, every check passed and the applied host reported the generation and each of its domains in full |
| SyncDecisions.MaintenanceStaysClosed | src/sync/index.ts:585-603 | A gate closed for maintenance names the revision given or the active one, and no startup opens it over a completed journal |
| AdmissionDecisions.FailedConsumptionInvalidates | src/admission/index.ts:944-950 | Consuming a receipt whose authorization has gone invalidates it where there is no store; with a store the throw takes that back |
| ExchangeDecisions.RecoversExactly | src/personal-data/exchange.ts:746-920 | An undisturbed recovery over any disk: by lock, lease, owner and phase it does nothing, gives the lock back, removes the temporary, moves and activates the revision, or stays degraded, with the whole disk stated for each case in the fields of trees and pointers |
| ExchangeDecisions.PublishesExactly | src/personal-data/exchange.ts:659-728 | An undisturbed publication goes through if and only if it is accepted, the lock and the temporary name are free, manifest and payloads are whole and named by their content, the source is bound to this revision or free among whole revisions, and a revision already there is whole and the same; then the revision is stored as given or as it was and active, its source is bound, and nothing else has changed |
| ExchangeDecisions.CollectsExactly | src/personal-data/exchange.ts:921-1025 | An undisturbed collection under a free lock removes exactly the listed, aged revisions that are neither active nor retained, unless one of them is not whole |
| ExchangeDecisions.StoredAreWhole | src/personal-data/exchange.ts:659-728 | Over every run from an empty exchange, every stored revision has its manifest and every payload, conforming and named by their content, and the active pointer is of one of them, field by field |
| GenerationBuilds.AuthorityExactly | src/generation/index.ts:522-584 | The reader accepts exactly records with distinct ids, each valid under its schema's layer, with every section its kind asks for, whose every reference names a record of the right kind and whose active system is a governing system |
| GenerationBuilds.BuildsExactly | src/generation/index.ts:1269-1440 | A generation is built if and only if the package has a version, the authority is accepted, source references are absent or lists, and each domain projection offers no current state, is its manifest's own, has every payload as listed and with text, under distinct stable ids, with distinct domain ids |
| RestoreDecisions.StagesExactly | src/recovery/index.ts:1123-1148 | The staged database is the snapshot row by row: schema, ledger, head, imports and confirmations as they were, interrupted corrections pending again with the interruption noted, the head added to the history exactly on the way to schema 2, and no run served |
| RestoreDecisions.RecoversExactly | src/recovery/index.ts:556-611 | An undisturbed recovery over any files: by lock, journal and rollback copy it puts the target back, removes what was not there, or gives up, with every file stated for each case |
| RestoreDecisions.HandlesExactly | src/recovery/index.ts:1210-1245 | What the handler of a failed restore leaves of target, journal and stage, and what it reports, by whether the target was replaced and whether it can be put back |
| RestoreDecisions.DiesCopyingBack | src/recovery/index.ts:556-584 | A recovery that dies in the middle of copying back leaves a torn target and the journal to try again with |
| RestoreDecisions.RestoresExactly | src/recovery/index.ts:1060-1245 | An undisturbed restore under a free lock replaces the target if and only if snapshot, target and schema allow it, the staged contents read, differ from what is there and every step succeeds; it reports already applied if and only if head, events and outbox agree; refuses a target that is no unserved database; and failing leaves the target, or the journal and the copy to put it back |
| StateDecisions.ReducesExactly | src/state/management.ts:89-120 | What the management port reduces events to is the one view that is numbered by them, holds for each state, once and in order, the last event's own value or whole payload, and carries the checksum and version of just that |
| StateDecisions.ImportsExactly | src/state/index.ts:451-556 | A baseline is imported if and only if its manifest is of this instance, whole, numbered from one and predicts the view and head its events reduce to, its sources are accepted, neither its id nor its checksum is known, no run was served, the store is empty at the initial head and no event repeats an id or key; it is known already if and only if that id has that checksum; what is written is stated |
| StateDecisions.CorrectsExactly | src/state/index.ts:558-705 | A correction is recorded if and only if it is of this instance, neither its id nor its key is known, its session has nothing open, its event is the next number with a new id and key and its receipt was never used; it is repeated if and only if it is known with the same confirmation; event, head, history row, outbox row and confirmation written are stated |
| StateDecisions.AppliesExactly | src/state/management.ts:344-440 | A planned correction is applied if and only if the preview is whole and of this instance, confirmed by a receipt that names it and is used as the key or by its checksum, not expired, over the current head, and new and next; repeating a recorded one needs neither time nor base |
| StateDecisions.PlansExactly | src/state/management.ts:322-342 | A correction is planned if and only if its event is the next number, and the preview carries the checksum of the head |
| StateDecisions.ClaimsExactly | src/state/index.ts:711-745 | A row is claimed if and only if it is pending and the run is another than the one that answered first; the whole row written is stated |
| StateDecisions.CompletesExactly | src/state/index.ts:764-784 | A row is completed if and only if the claim is the one in flight, in number and attempt, and nothing was completed |
| StateDecisions.ReleasesExactly | src/state/index.ts:786-809 | A row is given back if and only if the claim is the one in flight and the reason is a capital followed by capitals, digits and underscores |
| RetrievalDecisions.AppliesExactly | src/openclaw/consumption.ts:564-640 | An undisturbed apply succeeds if and only if every preserved path resolves in the list and the host takes it; then the list holds exactly the target and what was there, neither owned nor listed for removal, and the record owns the target |
| RetrievalDecisions.RestoresExactly | src/openclaw/consumption.ts:786-829 | An undisturbed restore succeeds if and only if the host takes the list; then it starts with the captured list and holds besides it exactly what was neither owned nor captured |
| AdmissionSnapshots.RestoresExactly | src/admission/index.ts:1008-1050 | A stored row restores if and only if every authorization and candidate it refers to is in it and no token or receipt id repeats; then each map has the listed keys with what is listed last for them, and every candidate its owner |
| JsonSyntax.StringTextIsString | src/personal-data/canonical.ts:20-23 | A serialized string, read by the string grammar of section 7 of RFC 8259 with all its escapes, is the string |
| JsonSyntax.EscapedExactly | src/personal-data/canonical.ts:20-23 | A unit is raw where RFC 8259 lets it be, has its two-character escape where there is one, and is hexadecimal in lower case otherwise (section 3.2.2.2 of RFC 8785) |
| JsonSyntax.FirstEscapedExactly | src/core/canonical-json.ts:54 | Surrogate pairs stay raw, and a surrogate is escaped exactly when it has no partner |
| JsonSyntax.NumberTextIsNumber | src/personal-data/canonical.ts:24-29 | A serialized number, read by the number grammar of section 6 of RFC 8259, has exactly the value of the number, and is laid out as ECMA-262 asks: an exponent exactly outside 1e-6 to 1e21, and no zero that says nothing |
| JsonTexts.RenderIsText | src/personal-data/canonical.ts:16-54 | Whatever is rendered is, read by the grammar of RFC 8259, a text of that value: every array, object, string, number and literal of it, in order |
| JsonTexts.SerializationIsText | src/personal-data/canonical.ts:16-54 | What is serialized is a JSON text of the value it was given, without whitespace and with the keys of every object in strictly ascending code-unit order |
| JsonTexts.CanonicalJsonIsText | src/core/canonical-json.ts:44-54 | The core text is a JSON text of the value too, the keys of every object in the order objects enumerate them: array indices by number, before names by code units |
| JsonTexts.IsIndexExactly | src/core/canonical-json.ts:35-41 | A key is an array index if and only if it is the decimal form of a number below 2^32 - 1, which is then its rank |
| PayloadText.LineEndingsBecomeLf | src/personal-data/canonical.ts:75-77 | CR LF, CR and LF each become one line feed and every other unit stays as it is, wherever they stand in the text |
| PayloadText.PayloadExactly | src/personal-data/canonical.ts:62-82 | A text has a payload if and only if it starts with no byte order mark and what is left of its normal form without trailing line feeds is well paired; the payload is that and one line feed |
| IdentityBuilds.BuildsExactly | src/personal-data/projection.ts:573-661 | An identity projection is handed on if and only if something is given, every given value has text and sources, language and time zone are well formed, references and policies are as many and distinct, every source of a value grants it by sensitivity, data class, entry id, record kind and path, and every reference is used; what is handed on is exactly the given values under their ids and classes, with its categories and capabilities |
| IdentityBuilds.PathExactly | src/personal-data/projection.ts:530-532 | A source path is accepted if and only if it is the folder of the record kind, one name of 1 to 128 small letters, digits, dots, underscores and hyphens that starts with a letter or digit, and the record file |
| IdentityBuilds.GrantedExactly | src/personal-data/projection.ts:516-549 | A value may be published from a source if and only if a reference and a policy of that id say so, field by field |
| ExchangeDecisions.StoredExactly | src/personal-data/exchange.ts:846-890 | A recovery takes a recorded revision for stored if and only if it is there, whole, of that name, source and time, and, unless it was there before, of the recorded checksum |
| ExchangeDecisions.RetainsExactly | src/personal-data/exchange.ts:1027-1045 | A revision is recorded as last verified, and so kept from collection, if and only if it is stored and whole |
| StateDecisions.RunsEndImports | src/state/index.ts:270-300 | A run is recorded as served if and only if it has a name; from then on, whatever calls follow, no baseline is imported |
| RestoreDecisions.DiesInHandler | src/recovery/index.ts:1224-1234 | A handler that dies undoing a replaced target leaves it torn, or gone where nothing was before |
| GenerationContents.FilesHoldExactly | src/generation/index.ts:1622-1675 | The file checks accept a directory if and only if the manifest lists exactly the files there are, once each, with the checksums of their contents and with listed dependencies, and every file that is no document is an artifact of the manifest's generation with the checksum of its payload |
| SyncDecisions.HandlesExactly | src/sync/index.ts:942-967 | The undisturbed failure handler parks a forbidden prior exactly once the host may have been touched, and otherwise puts the prior back in host and pointer and opens the gate, or says the recovery failed, by what the host does and reports; the whole disk is stated |
| SyncDecisions.FailsExactly | src/sync/index.ts:770-967 | An undisturbed attempt that fails had got to the phase its first failed answer tells, on the disk it began on but for host and receipt, and leaves what the handler makes of that |

## Left out

Across components:

- Schema validation (`validateContract`) except where it is a parameter, timestamps that nothing compares or digests, diagnostics and lifecycle notifications.
- Files, git and SQLite below the level of atomic effects: permissions, symbolic links, `fsync`, leases and their timeouts, page integrity.
- Concurrent live processes: mutual exclusion by leases and lock directories is assumed where the source relies on it, and runs are sequences of calls that may die.
- Progress after `recovery_failed`, `degraded` and `blocked` outcomes: the code stays closed there on purpose.
- The router, packets, cutover planning, compatibility, provenance, conformance reports, the OpenClaw plugin wiring and the runtime hooks: field comparisons, checklists and host glue that would add easy members only.

Activation barrier:

- `closeAdmission`, `openAdmission` and draining as such: whether runs drain is one answer of the host.
- Cutover plans and the host snapshot's insides: a captured prior is one value.

Projection exchange:

- The consumer's retry around a pointer that changes, and stale and blocked pointers.
- Removal of a directory in more than one step, and progress out of a lock directory without its owner record: the latter is only proved safe.

Publication:

- The class `Publication.ChangeSetPublicationCoordinator` runs over approval records; over the admission store the coordinator is a specification on values, and the store's own two methods are those of `Admission.CandidateAdmissionService`.
- Over the admission store: admission calls while a publication call is running (they interleave between calls, each of which may die at any effect), and callers other than the coordinator that bind or finalize receipts.
- Git commits, trees and checkouts: a checkout is fit or not, a validation gives a tree checksum, a commit lands or not.

Canonical forms:

- `canonicalJson` of `src/core/canonical-json.ts` on what JSON has no text for (`undefined`, which members drop and arrays turn into `null`, numbers that are not finite); on JSON values its strict and lenient modes agree, and the optional trailing newline is omitted.
- Which decimal digits are the shortest for a double: a number is its sign, digits and exponent.
- UTF-8: payload bytes are modelled as text, and a text stands for its one encoding.

Projection producer and consumer:

- `byte_length`, which the bytes determine, and which of several simultaneous policy errors is reported.
- Lone surrogates inside contexts, which the serializer refuses as `Jcs.SerializeJcs` says.

Candidate admission:

- The message a confirmation is bound to, the decider's name and the review texts: carried along, never compared in a way the properties rest on.
- The target key joined by NUL characters is a triple, which is injective where the joined text might not be.
- `consumeApprovalReceiptForCandidate`, which searches for a receipt and then consumes it, and the read-only listings.

State ledger and outbox:

- The truncated hash inside a view version: the version is as injective as the checksum it abbreviates.
- The policy for source mappings of an import: one boolean answer.

Recovery restore:

- Races for the restore lock between two recoverers, the scan for credentials, storage migrations other than none, and the report's text fields.

Retrieval paths:

- Evidence collection in `verifyTarget` and `verifyPrior`, the cutover port, and an ownership record that does not parse.

Generation:

- Parsing Markdown and YAML into a record, front-matter fields that no check reads one by one, the format of Markdown documents, bootstrap projections, staging directories and activation.
- Which sections are blank, which front matter meets its schema and which bodies essentialize are parameters; `byte_length` is what the bytes determine.
- The order of files in a manifest, which is sorted by path text: paths are structured values and nothing compares two manifests' orders.
- Comparing the ids of the four derived payloads with each other, which equality with the recomputed payloads implies.
- A directory whose payloads do not have the expected shape is refused as missing the artifact; the separate issue codes are not distinguished.
