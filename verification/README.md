# A verified model of the workspace's core

This project models the parts of the repository in which many small steps have to add up to one
promise, and proves the promise. It has three large parts and five small ones.

**Notes under replication.** Every author appends immutable, content-addressed revisions and moves
one head of its own; every replica picks a winner and reports the heads that are concurrent with it.
`Resolution` has the graph validation, the worklist search and the choice of the winner; `Commits`
says what one commit does to a note; `Records` has the repository, the native session and the
server's create, patch and delete; `BrowserMutations` has the browser's commit path; `Replication`
is the state machine of whole runs: any number of authors load, store, move heads, crash in between
and receive causally closed portions of each other's changes, in any interleaving, also between the
loading of a note and the storing of the revision that joins it. `CommitRuns` shows that the three
commit paths are steps of that machine, and `Deliveries` that whatever one replica holds can reach
another, so that every run can go on until all replicas agree. `ConfigWinners` has the winners among
configuration records and what merging two stores does to them. `HybridClock` is the clock behind
all of it.

**Configuration text.** `ConfigPrinter` prints a behaviour; `Lexer`, `Forms`, `ConfigDecoder` and
`ConfigParser` read one; `Layout`, `ConfigTerms` and `ConfigRoundTrip` prove that the second undoes
the first. `ConfigMeaning` says which forms the parser accepts and what each of them means, in both
directions, and `ConfigDefaults` what may be left out. `FlatConfig`, `SyncdConfig` and `XoConfig`
are the two smaller printers and parsers. `JsonStrings` follows section 7 of RFC 8259, `Decimals`
the standard formatting of integers.

**The Markdown projection.** `Projection` is one pass of the reconciler, each step of which may fail
to read, to prepare its change or to make it, `ProjectionSafety` what it guarantees over runs,
`ProjectionReports` what its report says, `ProjectionSteps` what happens when the user edits between
the steps of a pass, `ExpectedWrites` which watcher events are swallowed.

**Supporting parts.** `Durability` is the server's store as a machine that can stop or lose power
between any two steps of a flush; `Queries` and `QueryMeaning` the bounded sorted query and the
native client's reversal; `Ids` the base 32 identifiers; `ExportPaths` and `ExportMeaning` the
export of notes to files; `Behavior` the data and validation.

Code that changes things step by step is a class or a method with loops (the clock, the cursor and
parsers, the repository, the reconciler, the flush, the slice reversal) and is proved against a
function or predicate; the theorems are about those. Three hosts' services appear as parameters: the
content address of a revision (`Identity`, without collisions where a theorem says so), the content
hash of a file, and the text of floating point numbers, of which one law is used: a finite number
prints as a word that reads back.

`dafny verify dfyconfig.toml` checks the whole project.

## Where a property needed its exact condition

- A browser stamp passes every stored timestamp without any bound on how many there are; the only
  exception is a counter at its ceiling in the latest millisecond (`BrowserStampDominates`;
  `CeilingIsNotPassed` is an instance).
- The native client's reversal of a query equals sorting in the other direction only when the limit
  cuts nothing off, or cuts exactly between index notes and the rest (`ReversalIsFlippedSort`;
  `TruncatedReversalDiffers` is an instance of the other case).
- Every merge of two configuration stores has exactly the candidates of both if and only if the two
  are separate (`MergedCandidatesExactly`), and then the newer of their winners for each path
  (`SeparateStoresMerge`); stores without defective entries are (`MergeIsPointwiseMaximum`).
  `LateContentWins` and `MisplacedEntryHides` are instances of the two ways to fail.
- Only the history of the winner is left out of a conflict: winner and conflict set are the current
  revisions exactly when the winner descends from every head that another head descends from
  (`ShownAreCurrentExactly`); `JoinedHeadIsReported` is an instance of the other case.
- A user's edit made while a pass runs survives exactly if the pass has not yet looked at that file
  and decided to change it (`EditSurvivesExactly`).
- The event of a file the projection changed is recognized unless the pass broke off at that very file
  (`OwnWritesAreExpected`); `SwapLosesRecord` is an instance of the exception.
- The store sends only durable changes as long as no message follows a failed flush; the code keeps
  running after such a failure, and `FailedFlushExposes` is a run in which that matters, also without
  a power loss (`ExposedChangeIsLost`).
- A generated identifier is valid for 32768 days from the epoch and for none after
  (`GeneratedIsValid`).
- `resolve_heads` is documented as ordering by timestamp and actor. The code breaks ties of the whole
  timestamp by revision identity, and so does the model.

## Model

| member | source | states |
|---|---|---|
| HybridClock.BeforeIsStrictTotalOrder | crates/xo-core/src/hlc.rs:15-29 | Timestamps are strictly and totally ordered by millisecond, counter and actor |
| HybridClock.HlcClock.Next | crates/xo-core/src/hlc.rs:58-66 | `next` in place: a later wall clock resets the counter, otherwise the counter goes up and saturates |
| HybridClock.HlcClock.Observe | crates/xo-core/src/hlc.rs:69-83 | `observe` in place, with its four cases of which millisecond is the latest |
| HybridClock.ObserveIsLeast | crates/xo-core/src/hlc.rs:69-83 | Observing gives the least stamp of the latest millisecond that is above both timestamps, when there is room for one |
| HybridClock.NextIsLeast | crates/xo-core/src/hlc.rs:58-66 | The same for the next stamp of a clock on its own |
| HybridClock.StampMutation | crates/xo-pwa/src/workspace.rs:195-212 | The loop that observes every stored timestamp and then stamps, tied to the fold `BrowserStamp` |
| HybridClock.ObservedAllClimbs | crates/xo-core/src/hlc.rs:69-83 | After observing any list of timestamps the clock is above each of them, unless stuck at the ceiling of the counter within their millisecond |
| HybridClock.BrowserStampMillisecond | crates/xo-core/src/hlc.rs:69-83 | The fold ends in the latest millisecond among wall clock, clock and observed timestamps |
| HybridClock.BrowserStampDominates | crates/xo-pwa/src/workspace.rs:195-212 | If and only if: a browser stamp comes after a stored timestamp unless that timestamp is in the latest millisecond, at the ceiling of the counter, not passed by the wall clock and not from a smaller actor |
| HybridClock.BrowserStampAboveAll | crates/xo-pwa/src/workspace.rs:195-212 | With no stored counter at its ceiling the stamp comes after every stored timestamp, however many there are and whatever the wall clock says |
| HybridClock.CeilingIsNotPassed | crates/xo-pwa/src/workspace.rs:195-212 | A concrete stored timestamp at the ceiling that the stamp stays behind |
| HybridClock.RunNeverGoesBack | crates/xo-core/src/hlc.rs:58-83 | Over any run of local and remote events a clock never decreases, and stands still only at the ceiling of its counter within one millisecond |
| Resolution.CheckPredecessors | crates/xo-core/src/resolution.rs:34-46 | Accepts exactly predecessors that are stored and of the same note; a rejection names a real defect |
| Resolution.ValidateRevisionGraph | crates/xo-core/src/resolution.rs:27-49 | Accepts exactly the valid graphs; the reported defect is present |
| Resolution.PushPredecessors | crates/xo-core/src/resolution.rs:108-113 | The inner loop finds the target exactly when it is a direct predecessor, and otherwise leaves every predecessor pending |
| Resolution.IsAncestor | crates/xo-core/src/resolution.rs:94-116 | True exactly when a non-empty chain of predecessor edges through stored revisions leads to the ancestor; terminates on cyclic and incomplete maps |
| Resolution.RankIsTotalPreorder | crates/xo-core/src/resolution.rs:65-67 | The comparison the candidates are sorted by is a total preorder |
| Resolution.SelectCandidates | crates/xo-core/src/resolution.rs:57-63 | Exactly the heads that name a stored revision of their own note become candidates |
| Resolution.WinnerUnique | crates/xo-core/src/resolution.rs:65-68 | At most one revision outranks all others |
| Resolution.CollectConcurrent | crates/xo-core/src/resolution.rs:70-79 | The conflict set is exactly the asserted revisions other than the winner and its proper ancestors |
| Resolution.ResolveHeads | crates/xo-core/src/resolution.rs:53-92 | Convergence: winner, visible revision and conflict set are a function of the set of matching heads, whatever their order and repetition |
| Resolution.AncestorTransitive | crates/xo-core/src/resolution.rs:94-116 | Ancestry composes |
| Resolution.Trichotomy | crates/xo-core/src/resolution.rs:68-85 | On an acyclic graph every asserted revision is exactly one of winner, proper ancestor of the winner, concurrent |
| Resolution.ShownAreCurrentExactly | crates/xo-core/src/resolution.rs:68-85 | If and only if: winner and conflict set are exactly the asserted revisions that no other asserted one descends from, when the winner descends from all the others; each of these is always shown |
| Resolution.JoinIsReportedToo | crates/xo-core/src/resolution.rs:70-79 | A revision that is reported although another head joined it is reported together with that head |
| Resolution.JoinedHeadIsReported | crates/xo-core/src/resolution.rs:70-79 | A concrete note where a joined head is reported, because the winner is unrelated to the join |
| Resolution.ValidGraphExactly | crates/xo-core/src/resolution.rs:27-49 | A graph is valid exactly when every revision is stored under its content address and joins only stored revisions of its own note |
| Resolution.MatchingExactly | crates/xo-core/src/resolution.rs:57-63 | A revision is a candidate exactly when it is stored and a head of its own note names it |
| Resolution.WinnerIsLatest | crates/xo-core/src/resolution.rs:65-68 | The winner is the candidate that none is later than, and at equal timestamps the one with the greatest identity |
| Commits.CommitKeepsHealthy | crates/xo-core/src/records.rs:135-147 | A commit whose predecessors are stored keeps the note healthy: heads stored, predecessors stored, acyclic |
| Commits.ContentAddressedJoin | crates/xo/src/session.rs:377-406 | A content-addressed revision that joins what was resolved is a joining commit, on every commit path |
| Commits.JoinDescendsFromHeads | crates/xo-syncd/src/central.rs:185-191 | A revision that joins the winner and all concurrent heads descends from every head |
| Commits.WinsExactlyWhenBest | crates/xo-core/src/resolution.rs:65-68 | The new head wins if and only if it outranks the heads of the other authors |
| Commits.CommitOutcome | crates/xo/src/session.rs:377-406 | With no assumption about clocks: the committed revision wins with no conflict left if and only if it outranks the other heads, and otherwise is reported as concurrent |
| Commits.PendingShowsNothing | crates/xo-core/src/records.rs:135-147 | A commit that breaks off between its two writes keeps the note healthy and resolving as before |
| Commits.LateCommitWins | crates/xo-syncd/src/central.rs:177-211 | A joining commit stamped after everything stored resolves to itself with no conflict |
| Records.HeadListMatchesAll | crates/xo-core/src/records.rs:597-605 | On stored heads of one note nothing is filtered out by matching |
| Records.CheckHeads | crates/xo-core/src/records.rs:597-605 | Accepts exactly heads that are all stored, and names one that is not |
| Records.ResolveGroup | crates/xo-core/src/records.rs:597-605 | Resolution succeeds exactly on a valid graph whose heads are all stored, and then gives the resolved note |
| Records.WorkspaceRecords.LoadNote | crates/xo-core/src/records.rs:149-166 | Loading a note is resolving its group; a note without records is no error |
| Records.WorkspaceRecords.PutRevision | crates/xo-core/src/records.rs:100-110 | Stores under the content address, only for the local author; an error changes nothing, except that a write that was made and not flushed stays |
| Records.WorkspaceRecords.SetHead | crates/xo-core/src/records.rs:112-133 | Moves only the local author's head and only to a stored revision; an error changes nothing, except that a write that was made and not flushed stays |
| Records.WorkspaceRecords.CommitRevision | crates/xo-core/src/records.rs:135-147 | The two writes up to the first that storage refuses or does not flush: none, the revision without its head, or both |
| Records.Writer.Commit | crates/xo/src/session.rs:377-406 | The native commit joins everything visible, stamps with the session clock and stores; it succeeds exactly when the note resolves, the revision is valid and storage does not fail, and what an error leaves behind is stated for every storage failure |
| Records.Writer.CreateItem | crates/xo-syncd/src/central.rs:79-110 | Creates exactly when no head asserts the note; the revision has no predecessors; the clock ticks only then; storage failures as in a commit |
| Records.Writer.CommitItem | crates/xo-syncd/src/central.rs:177-216 | The server's commit of given content onto what was resolved, with what each storage failure leaves behind |
| Records.Writer.DeleteItem | crates/xo-syncd/src/central.rs:156-175 | Deletes exactly a visible note, under the visible content; the clock ticks only then; storage failures as in a commit |
| Records.Writer.PatchItem | crates/xo-syncd/src/central.rs:120-154 | Patches exactly a visible note; parts not given keep what was visible; a foreign identifier in the frontmatter is refused; storage failures as in a commit |
| BrowserMutations.ResolveNote | crates/xo-pwa/src/workspace.rs:457-463 | The browser fails only on an invalid graph and ignores heads that match nothing |
| BrowserMutations.PrepareMutation | crates/xo-pwa/src/workspace.rs:170-245 | If and only if the store loads, the graph is valid, the operation has the note it needs and the revision an identity: the prepared writes, whose revision joins everything visible, has the browser stamp, and carries what the user wrote or, for deleting and restoring, what the winner had |
| BrowserMutations.RefusedExactly | crates/xo-pwa/src/workspace.rs:247-321 | Exactly saving, deleting and restoring need a winner |
| BrowserMutations.EditShows | crates/xo-pwa/src/workspace.rs:275-321 | What the user wrote is what the note then shows, not deleted and without a conflict, when no stored counter is at its ceiling |
| BrowserMutations.BrowserStampPassesStore | crates/xo-pwa/src/workspace.rs:195-212 | When no stored counter is at its ceiling, the stamp of a mutation comes after every stored revision of the note |
| BrowserMutations.MutationIsJoiningCommit | crates/xo-pwa/src/workspace.rs:185-194 | On a healthy store the mutation is a joining commit of the same kind as the native and the server one |
| BrowserMutations.MutationSettlesNote | crates/xo-pwa/src/workspace.rs:185-239 | Once stored, the note resolves to exactly the new revision with no conflict, when no stored counter is at its ceiling |
| BrowserMutations.MutationKeepsHealthy | crates/xo-pwa/src/workspace.rs:218-239 | The store stays valid and healthy after the two writes |
| BrowserMutations.RestoreUndoesDelete | crates/xo-pwa/src/workspace.rs:258-273 | Delete, then restore, shows the content that won before the deletion, even out of a conflict, when no stored counter is at its ceiling |
| Replication.ViewResolvable | crates/xo-core/src/records.rs:597-605 | On every causally closed set of changes the graph is valid and every head names a stored revision |
| Replication.PrefixRanked | crates/xo-core/src/resolution.rs:27-49 | Ranking revisions by when they were first stored proves every graph acyclic |
| Replication.JoinAboveOwnHeads | crates/xo/src/session.rs:377-406 | A revision that joins what its author loaded descends from every head that author ever had |
| Replication.PendingNeverJoined | crates/xo-core/src/records.rs:135-147 | Nothing anywhere joins a revision that is stored but not yet a head |
| Replication.PutKeepsInv | crates/xo-core/src/records.rs:100-110 | Storing a revision keeps the invariant of the whole system, whatever arrived since the note was loaded |
| Replication.HeadKeepsInv | crates/xo-core/src/records.rs:112-133 | Moving a head keeps it |
| Replication.StepKeepsInv | crates/xo-core/src/records.rs:135-147 | Every step of the system keeps it |
| Replication.EveryReplicaResolves | crates/xo-core/src/records.rs:597-605 | In every state of every run every replica resolves every note: no missing revision, no missing predecessor |
| Replication.EveryReplicaIsHealthy | crates/xo-core/src/resolution.rs:27-49 | In every state of every run every replica's graph is predecessor-closed and acyclic |
| Replication.NoCommitHidden | crates/xo-core/src/resolution.rs:68-85 | In every run, as soon as its head is set a committed revision is the winner or reported as concurrent in its author's replica, however clocks lag and whatever was delivered or crashed in between |
| Replication.NoHeadIsLost | crates/xo-core/src/resolution.rs:53-92 | In every state of every run and on every replica: whatever a change the replica holds ever made a head is shown there as winner or concurrent, or is in the history of a revision that is |
| CommitRuns.CommitGoesThrough | crates/xo-core/src/records.rs:135-147 | In every reachable state with an idle author a joining revision goes through load, put and head, after which the replica shows the note as committed and every other note as before |
| CommitRuns.WriterCommitInRun | crates/xo-syncd/src/central.rs:177-216 | What the native and the server commits do to the records is such a commit of their author's replica |
| CommitRuns.CommitInRun | crates/xo/src/session.rs:377-406 | The native session's commit inside a run, whatever storage does: nothing, the three steps, or load, put and an end in between |
| CommitRuns.BrokenCommitInRun | crates/xo-core/src/records.rs:135-147 | A commit that loses its second write is a load, a put and a crash; its author is idle again and the note resolves as before |
| CommitRuns.BrowserCommitInRun | crates/xo-pwa/src/workspace.rs:230-239 | The two writes of a prepared browser mutation are such a commit too |
| CommitRuns.CommitInAnyRun | crates/xo-core/src/resolution.rs:53-92 | A commit of any author in any reachable state extends the run, and wins with no conflict left exactly if it outranks the other authors' heads, otherwise it is reported as concurrent |
| CommitRuns.FirstCommit | crates/xo-core/src/records.rs:135-147 | Such runs exist: with nothing stored the first commit of any note goes through and the note shows it |
| Deliveries.PortionArrives | crates/xo-core/src/automerge_store.rs:270-281 | In every run any closed portion of what one replica holds can be delivered to another one, which then holds it too and nothing else is different |
| Deliveries.AllArrives | crates/xo-core/src/automerge_store.rs:270-281 | The same for everything a replica holds |
| Deliveries.DeliveryShows | crates/xo-core/src/automerge_store.rs:270-281 | After a delivery the receiver shows exactly the revisions of both sides, resolves the note, and has every head of either side or one that descends from it |
| Deliveries.EveryRunCanAgree | crates/xo-core/src/resolution.rs:53-92 | From every state of every run deliveries alone lead to a state in which all replicas show the same records and resolve them, with no head lost on any of them |
| Deliveries.CommitIsLocal | crates/xo-core/src/records.rs:135-147 | The commit of one author changes what no other replica holds or shows |
| Deliveries.OtherAuthorShows | crates/xo-core/src/automerge_store.rs:270-281 | A run of two authors: one commits, and the replica of the other, which showed nothing, resolves to the revision once it is delivered |
| Deliveries.ConcurrentCommits | crates/xo-core/src/resolution.rs:53-92 | A run of two authors who commit to one note without knowing of each other: after both deliveries both replicas show the later revision as the winner and the other one as concurrent |
| Deliveries.LoadedCommitGoesOn | crates/xo-core/src/records.rs:135-147 | A commit that has loaded its note goes on whatever arrived since, joins what it loaded, and is shown as winner or concurrent |
| ConfigWinners.NewerIsStrictOrder | crates/xo-pwa/src/workspace.rs:406-410 | The comparison of two configuration records is a strict total order up to identity |
| ConfigWinners.WinnersAreLatest | crates/xo-core/src/records.rs:388-391 | No candidate of a path has a later timestamp than its winner, and none with the same timestamp a greater identity |
| ConfigWinners.LaterRecordWins | crates/xo-core/src/records.rs:388-391 | Of two verified records of one path the one stamped later is listed |
| ConfigWinners.CandidateExactly | crates/xo-core/src/records.rs:368-387 | A candidate is a listed record under its own key and author, with content of its size and hash |
| ConfigWinners.ListConfigs | crates/xo-core/src/records.rs:362-397 | Fails exactly when some entry is defective; otherwise each path has the candidate that no other is newer than |
| ConfigWinners.DecodeConfigs | crates/xo-pwa/src/workspace.rs:359-372 | Fails exactly on a record without an identity, and otherwise keeps exactly the entries under their own key and author |
| ConfigWinners.LoadConfigs | crates/xo-pwa/src/workspace.rs:323-418 | If and only if: the load fails on a record without an identity or on a candidate that is not text; every other defective entry is skipped, and otherwise each path has the candidate that no other is newer than |
| ConfigWinners.StoresAreVerified | crates/xo-core/src/records.rs:374-388 | Verified candidates with the same identity are the same, across stores |
| ConfigWinners.WinnersUnique | crates/xo-core/src/records.rs:362-397 | The winners depend only on the set of candidates: both loops agree, whatever the listing order |
| ConfigWinners.MergeIsPointwiseMaximum | crates/xo-core/src/records.rs:362-397 | For stores without defective entries whose content for each other's entries is right: the merged store has no defective entry either, its candidates are those of its parts, and what the loops return on it is path by path the newer of what they return on the parts |
| ConfigWinners.MergedCandidatesExactly | crates/xo-core/src/records.rs:362-397 | If and only if: every merge of two stores has exactly the candidates of both, when the two are separate: an entry that counts in one is alone under its key and no content contradicts it, and neither store has the content of any other entry |
| ConfigWinners.SeparateStoresMerge | crates/xo-core/src/records.rs:362-397 | What the loops return on a merge of separate stores, with defective entries or without, is path by path the newer of what they return on the parts |
| ConfigWinners.HonestStoresMerge | crates/xo-core/src/records.rs:323-360 | Stores that keep content only under the identity of a record it fits are compatible with each other, and merging keeps them so |
| ConfigWinners.PutConfigKeepsStore | crates/xo-core/src/records.rs:323-360 | Stores written by `put_config` stay complete and honest, so they meet the condition for merging |
| ConfigWinners.LateContentWins | crates/xo-pwa/src/workspace.rs:389-399 | A concrete merge that is not the pointwise newer one: an entry in one store, its content only in the other |
| ConfigWinners.MisplacedEntryHides | crates/xo-pwa/src/workspace.rs:359-372 | A concrete merge that loses a winner although no content is lost: an entry that does not belong under its key replaces the one that does |
| Projection.UniqueFromWellKeyed | crates/xo-core/src/projection.rs:329-347 | The desired set has one file per identity and per path |
| Projection.UniqueKeepsFirst | crates/xo-core/src/projection.rs:329-347 | If and only if: a file of the list is kept when no earlier kept file has its identity or its path; nothing else is kept |
| Projection.DistinctAreKept | crates/xo-core/src/projection.rs:329-347 | Files with different identities and paths are all kept |
| Projection.ProjectionState.Unique | crates/xo-core/src/projection.rs:329-347 | The loop keeps the first file for each identity and path |
| Projection.ProjectionState.Remove | crates/xo-core/src/projection.rs:361-382 | One obsolete entry: forgotten, removed with its deletion recorded first, or preserved; a failed removal takes the record back, a failure before it leaves the record |
| Projection.ProjectionState.RemoveObsolete | crates/xo-core/src/projection.rs:349-384 | The whole removal half, in the order of the manifest, stopping at the first failure |
| Projection.ProjectionState.Materialize | crates/xo-core/src/projection.rs:386-430 | One desired file: written with its hash recorded first, only recorded in the manifest, or preserved; a failed write takes the record back, a failed directory leaves it |
| Projection.ProjectionState.MaterializeDesired | crates/xo-core/src/projection.rs:322-324 | The whole writing half, in the order of the identities |
| Projection.ProjectionState.Reconcile | crates/xo-core/src/projection.rs:312-327 | One pass in which any step of either half, and the writing of the manifest, may fail; the manifest reaches the disk only when nothing did |
| Projection.ProjectionState.ConsumeIfExpected | crates/xo-core/src/projection.rs:84-101 | An event matches exactly when the record describes the file or its absence; the record is used up either way, except by an event whose file cannot be read |
| ProjectionSafety.PassKeepsEdit | crates/xo-core/src/projection.rs:349-430 | One pass, failing at any operation of any step or at none, leaves an unrecorded file in place and unrecorded |
| ProjectionSafety.LocalEditsSurvive | crates/xo-core/src/projection.rs:312-430 | Over any run of edits, events and whole passes a file whose content the manifest never recorded at its path stays byte for byte as it was, until the user changes it or the store asks for these very bytes there |
| ProjectionSafety.PassOutcome | crates/xo-core/src/projection.rs:312-430 | What a complete pass does to every file and every entry |
| ProjectionSafety.PlacedExactly | crates/xo-core/src/projection.rs:386-430 | If and only if: the condition, on the disk before the pass, under which a desired file is in place after it |
| ProjectionSafety.CleanPassReachesDesired | crates/xo-core/src/projection.rs:312-430 | Without local edits one pass puts every desired file in place, removes every formerly projected path no longer wanted, touches nothing else and leaves manifest equal to desired, path swaps included |
| ProjectionSafety.CleanPassPlacesFiles | crates/xo-core/src/projection.rs:312-430 | The same on the list itself: with different identities and paths and no local edits every file of the list is in place and recorded, and nothing else is tracked |
| ProjectionSafety.SecondPassChangesNothing | crates/xo-core/src/projection.rs:349-430 | Reconciling again leaves every file as the first pass left it, stale entries and preserved edits included |
| ProjectionSafety.OwnWritesAreExpected | crates/xo-core/src/projection.rs:349-430 | If and only if: any file a pass changed, complete or failed, is in its report, and its event is recognized when the pass did not break off at that very file |
| ProjectionSafety.SwapLosesRecord | crates/xo-core/src/projection.rs:416-417 | A concrete pass that breaks off: two records swap paths, the second write fails, and the removal before it has no record any more |
| ProjectionReports.ReportNamesChanges | crates/xo-core/src/projection.rs:349-430 | Whatever fails, a pass reports as removed exactly the files its first half took away and as materialized exactly those its second half changed, which hold the desired bytes |
| ProjectionReports.ReportNamesPreserved | crates/xo-core/src/projection.rs:349-411 | A complete pass reports a path as preserved exactly if it kept an obsolete entry for it or could not place the desired file |
| ProjectionReports.ManifestOnSuccessOnly | crates/xo-core/src/projection.rs:312-327 | The manifest on the disk is replaced exactly by a pass in which nothing failed |
| ProjectionReports.FailuresAreFaults | crates/xo-core/src/projection.rs:349-430 | A pass fails only at a removal or a write that was to fail in that way |
| ProjectionSteps.PassIsItsSteps | crates/xo-core/src/projection.rs:312-430 | A pass is its steps, each a look, a preparation or a change of one file, when nothing comes in between, whatever fails |
| ProjectionSteps.StepKeepsEdit | crates/xo-core/src/projection.rs:349-430 | Every step of a pass, and every event between two of them, keeps an edit of unknown content at a path no change is decided for |
| ProjectionSteps.EditSurvivesExactly | crates/xo-core/src/projection.rs:349-430 | If and only if: an edit of unknown content, made between any two steps of a pass, survives every further course of steps that leaves the path alone, when the pass has not already decided to change that file |
| ProjectionSteps.DecidedEditIsLost | crates/xo-core/src/projection.rs:361-371 | An edit between the look at a file and its removal or replacement is lost as soon as the pass goes on |
| ExpectedWrites.TableHoldsLastRecords | crates/xo-core/src/projection.rs:84-119 | The table holds exactly the hashes whose record is the last thing that happened to their path |
| ExpectedWrites.SwallowedExactly | crates/xo-core/src/projection.rs:84-101 | If and only if: an event is swallowed when the file is as last recorded and nothing else happened to the path since |
| ExpectedWrites.RecordSwallowsOnce | crates/xo-core/src/projection.rs:97-99 | Two events that use the same record are the same event |
| ExpectedWrites.SwallowsAtMostRecords | crates/xo-core/src/projection.rs:84-119 | Over any run and at any path at most as many events are swallowed as writes were recorded |
| ExpectedWrites.RunTable | crates/xo-core/src/projection.rs:312-430 | The table after a run of edits, events and passes, failures included, is that of the operations the run performs |
| ExpectedWrites.RunSwallowsExactly | crates/xo-core/src/projection.rs:84-119 | After any such run the next event for a path is swallowed exactly when the file or its absence is what the projection last recorded there and the record is unused |
| JsonStrings.UnescapeOfEscape | crates/xo-core/src/steel_runtime.rs:1380-1382 | A printed string literal decodes to the string, for any characters (section 7 of RFC 8259) |
| JsonStrings.ScanOfEscape | crates/xo-core/src/steel_runtime.rs:370-392 | An escaped string never closes its literal early |
| JsonStrings.NextCharExactly | crates/xo-core/src/steel_runtime.rs:370-392 | One character of a literal is read exactly as it is written: plain, by one of eight letters, by four hexadecimal digits or by a surrogate pair (section 7 of RFC 8259) |
| JsonStrings.UnescapeExactly | crates/xo-core/src/steel_runtime.rs:370-392 | If and only if: a body decodes to a text when it is that text written character by character in these ways |
| Lexer.Cursor.Bump | crates/xo-core/src/steel_runtime.rs:427-431 | Advances by one character, or stays at the end |
| Lexer.Cursor.Skip | crates/xo-core/src/steel_runtime.rs:409-421 | Skips exactly white space and comments |
| Lexer.Cursor.Token | crates/xo-core/src/steel_runtime.rs:394-407 | Reads the longest token, tied to the text that is left |
| Lexer.WhitespaceExactly | crates/xo-core/src/steel_runtime.rs:409-421 | White space is the Unicode property, character by character |
| Lexer.TokenExactly | crates/xo-core/src/steel_runtime.rs:394-407 | A token is the longest run without white space, parentheses, semicolons and, where they end it, quotes |
| Lexer.Cursor.ScanBody | crates/xo-core/src/steel_runtime.rs:376-390 | The scanning loop stops at the first quote that is not escaped |
| Lexer.Cursor.String | crates/xo-core/src/steel_runtime.rs:370-392 | Reads one string literal, or says what is wrong with it |
| Lexer.ReadWord | crates/xo-core/src/steel_runtime.rs:394-407 | A printed word is read as one token and no more |
| Lexer.ReadQuoted | crates/xo-core/src/steel_runtime.rs:370-392 | A printed literal is read back with exactly the text after it left |
| Decimals.ReadNatOfPrint | crates/xo-core/src/steel_runtime.rs:847-871 | A printed number reads back within its bounds |
| Decimals.ReadIntOfPrint | crates/xo-core/src/steel_runtime.rs:790-794 | The same for signed numbers |
| Decimals.ReadNatExactly | crates/xo-core/src/steel_runtime.rs:847-871 | If and only if: a numeral is read as a number when it is the printed number after any zeros and at most one plus sign, and within the bound |
| Decimals.ReadIntExactly | crates/xo-core/src/steel_runtime.rs:790-794 | The same for signed numbers, where a minus may come first |
| Forms.FormReader.Form | crates/xo-core/src/steel_runtime.rs:345-368 | The recursive reader agrees with the grammar of forms on every text |
| Forms.FormReader.Items | crates/xo-core/src/steel_runtime.rs:349-361 | The loop over the items of a list agrees with it |
| Forms.FormIsSpelled | crates/xo-core/src/steel_runtime.rs:345-392 | A form is read from the text that spells it, right after what is ignored: a list between its parentheses, a text between its quotes, a symbol as its token |
| Forms.ListIsClosed | crates/xo-core/src/steel_runtime.rs:349-361 | The items of a list are accepted only with the parenthesis that closes them |
| Layout.CallDenotes | crates/xo-core/src/steel_runtime.rs:1151-1201 | A form laid out with any white space between its parts reads back as that form, whatever follows |
| Layout.GroupDenotes | crates/xo-core/src/steel_runtime.rs:1353-1361 | The same for a list of words |
| Behavior.CheckUnique | crates/xo-core/src/behavior.rs:506-520 | The loop over a growing set of identifiers reports the first empty or repeated one |
| Behavior.UniqueExactly | crates/xo-core/src/behavior.rs:506-520 | Accepts exactly distinct identifiers that are not empty |
| Behavior.ValidateExactly | crates/xo-core/src/behavior.rs:294-318 | If and only if: what a valid behaviour is |
| ConfigDecoder.NativeFields | crates/xo-core/src/steel_runtime.rs:726-742 | The loop collects fields, refusing unknown and repeated ones |
| ConfigDecoder.FieldsExactly | crates/xo-core/src/steel_runtime.rs:726-742 | If and only if: fields are accepted when all are allowed, new and different |
| ConfigDecoder.FieldsHold | crates/xo-core/src/steel_runtime.rs:726-742 | Each accepted field has the arguments of its own form, and there are no others |
| ConfigDecoder.ParseGrants | crates/xo-core/src/steel_runtime.rs:477-497 | The loop over capability grants, refusing a repeated action |
| ConfigParser.NativeWorkspaceParser.Parse | crates/xo-core/src/steel_runtime.rs:333-343 | The parser object computes the parsing function: size limit, one form, nothing after it |
| ConfigParser.TooLargeExactly | crates/xo-core/src/steel_runtime.rs:333-343 | A text over 1048576 bytes is refused unread |
| ConfigParser.Utf8LengthOfJoin | crates/xo-core/src/steel_runtime.rs:333-343 | The bytes of a text are those of its characters, one to four each |
| ConfigMeaning.CollectsExactly | crates/xo-core/src/steel_runtime.rs:726-742 | If and only if: the forms of a descriptor are these fields, each allowed and given once, in any order |
| ConfigMeaning.SubviewParsesExactly | crates/xo-core/src/steel_runtime.rs:541-550 | If and only if: a form is read as a subview when it says so, with the default of each field that may be left out |
| ConfigMeaning.ViewParsesExactly | crates/xo-core/src/steel_runtime.rs:502-539 | The same for a view |
| ConfigMeaning.ValueParsesExactly | crates/xo-core/src/steel_runtime.rs:670-714 | The same for a frontmatter value, at any nesting, with entries in any order and no key twice |
| ConfigMeaning.EffectParsesExactly | crates/xo-core/src/steel_runtime.rs:645-668 | The same for an effect |
| ConfigMeaning.PluginParsesExactly | crates/xo-core/src/steel_runtime.rs:579-603 | The same for a plugin, with its capabilities in any order |
| ConfigMeaning.ActionParsesExactly | crates/xo-core/src/steel_runtime.rs:552-577 | The same for an action |
| ConfigMeaning.TemplateParsesExactly | crates/xo-core/src/steel_runtime.rs:605-613 | The same for a template, of which nothing may be left out |
| ConfigMeaning.GrantsParseExactly | crates/xo-core/src/steel_runtime.rs:477-497 | The same for the grants of a workspace, no action having two |
| ConfigMeaning.WorkspaceDecodesExactly | crates/xo-core/src/steel_runtime.rs:441-500 | If and only if: a form decodes to a workspace when it says so and the workspace is valid |
| ConfigMeaning.ConfigParsesExactly | crates/xo-core/src/steel_runtime.rs:333-343 | If and only if: a text parses to a workspace when it is within the limit and one form, with nothing but ignored text after it, that says this valid workspace |
| ConfigDefaults.SubviewWithoutDefaults | crates/xo-core/src/steel_runtime.rs:541-550 | A subview parses from its form with any selection of default fields left out, in any order |
| ConfigDefaults.ViewWithoutDefaults | crates/xo-core/src/steel_runtime.rs:502-539 | So does a view: no tags shown, the title from `title`, ascending order, the condition that always holds |
| ConfigDefaults.ActionWithoutDefaults | crates/xo-core/src/steel_runtime.rs:552-577 | So does an action |
| ConfigDefaults.WorkspaceWithoutDefaults | crates/xo-core/src/steel_runtime.rs:441-500 | So does a workspace: default view `all` and query limit 500 |
| ConfigDefaults.MinimalParses | crates/xo-core/src/steel_runtime.rs:441-539 | The text with a schema and one view of which only the identifier is given parses to the workspace with all defaults |
| ConfigPrinter.EncodeView | crates/xo-core/src/steel_runtime.rs:1203-1237 | The printing loop of one view produces its layout |
| ConfigPrinter.EncodeAction | crates/xo-core/src/steel_runtime.rs:1239-1264 | The printing of one action produces its layout |
| ConfigPrinter.EncodeGrants | crates/xo-core/src/steel_runtime.rs:1183-1198 | The printing loop of the grants produces their layout |
| ConfigPrinter.EncodeConfig | crates/xo-core/src/steel_runtime.rs:1151-1201 | The printer's output is the layout the round trip is proved about |
| ConfigTerms.PredicateParsesExactly | crates/xo-core/src/steel_runtime.rs:615-643 | If and only if: a form parses to a predicate when it is the form that predicate is printed as, at any depth |
| ConfigTerms.PredicateDenotes | crates/xo-core/src/steel_runtime.rs:1289-1302 | The text of a predicate reads as its form |
| ConfigTerms.ValueDenotes | crates/xo-core/src/steel_runtime.rs:1320-1351 | The text of a finite frontmatter value reads as its form, at any nesting |
| ConfigTerms.ValueParses | crates/xo-core/src/steel_runtime.rs:670-714 | That form decodes to the value |
| ConfigTerms.EffectsReadBack | crates/xo-core/src/steel_runtime.rs:645-668 | Printed effects read back, the current-time marker never confused with a value |
| ConfigTerms.PluginReadsBack | crates/xo-core/src/steel_runtime.rs:579-603 | Printed plugins read back with their capabilities as a set |
| ConfigRoundTrip.ViewsReadBack | crates/xo-core/src/steel_runtime.rs:502-539 | Printed views with their subviews read back |
| ConfigRoundTrip.ActionsReadBack | crates/xo-core/src/steel_runtime.rs:552-577 | Printed actions read back |
| ConfigRoundTrip.TemplatesReadBack | crates/xo-core/src/steel_runtime.rs:605-613 | Printed templates read back |
| ConfigRoundTrip.GrantsReadBack | crates/xo-core/src/steel_runtime.rs:477-497 | Printed grants read back as the same map |
| ConfigRoundTrip.PrintedParses | crates/xo-core/src/steel_runtime.rs:333-343 | What parsing a printed configuration gives in every case, the rejections included |
| ConfigRoundTrip.ConfigRoundTrips | crates/xo-core/src/steel_runtime.rs:1151-1382 | If and only if: a printed workspace parses back to exactly itself when it is valid and fits the size limit, for any nesting and any strings |
| ConfigRoundTrip.PrintingLosesNothing | crates/xo-core/src/steel_runtime.rs:1151-1201 | Two finite workspaces with the same text are equal |
| ConfigRoundTrip.ReformattingKeepsMeaning | crates/xo-core/src/steel_runtime.rs:333-500 | Whatever source is accepted, its printed form is accepted with the same meaning within the limit |
| FlatConfig.Parser.Value | crates/xo-syncd/src/config.rs:171-187 | One value of each kind: number, string, string or false |
| FlatConfig.Parser.Fields | crates/xo-syncd/src/config.rs:112-160 | The loop over set-once fields agrees with its specification on every text |
| FlatConfig.Parser.Parse | crates/xo-syncd/src/config.rs:103-169 | The whole parser object agrees with its specification |
| FlatConfig.AcceptedFits | crates/xo-syncd/src/config.rs:112-160 | Whatever is accepted has only known fields, each with a value of its kind |
| FlatConfig.PrintedReadsBack | crates/xo-syncd/src/config.rs:54-75 | A printed form with any ignored text before it reads back to its fields |
| FlatConfig.BadFieldIsRefused | crates/xo-syncd/src/config.rs:112-160 | After any fields one that repeats an earlier one or is not known is refused |
| SyncdConfig.Parse | crates/xo-syncd/src/config.rs:103-169 | The server's parser, size limit included |
| SyncdConfig.CommentIsIgnored | crates/xo-syncd/src/config.rs:60-61 | The leading comment of the document is skipped as a whole |
| SyncdConfig.DocumentRoundTrips | crates/xo-syncd/src/config.rs:54-75 | If and only if: the document parses back to the configuration when it fits the size limit |
| SyncdConfig.FromSlotsExactly | crates/xo-syncd/src/config.rs:156-169 | If and only if: what the fields of the file mean; all but the schema may be missing |
| SyncdConfig.SelectionParses | crates/xo-syncd/src/config.rs:103-169 | A file with any selection of its fields, in any order, that leaves out only what is not set parses to the configuration |
| SyncdConfig.RewritingKeepsMeaning | crates/xo-syncd/src/config.rs:103-169 | Rewriting an accepted file as the document keeps its meaning within the limit |
| XoConfig.Parse | crates/xo-core/src/steel_runtime.rs:927-975 | The native client's parser |
| XoConfig.CanonicalRoundTrips | crates/xo-core/src/steel_runtime.rs:897-913 | The parser reads the canonical text back to the same fields, for any strings |
| XoConfig.FromSlotsExactly | crates/xo-core/src/steel_runtime.rs:959-975 | If and only if: what the fields mean; without a server it is the local one, without a client identity there is none |
| XoConfig.SelectionParses | crates/xo-core/src/steel_runtime.rs:927-975 | A text with any selection of the fields, in any order, that leaves out only these defaults parses to them |
| XoConfig.RewritingKeepsFields | crates/xo-core/src/steel_runtime.rs:927-975 | Whatever text the parser accepts, it reads its canonical rewriting to the same fields |
| Queries.ScopeExactly | crates/xo-core/src/behavior.rs:331-350 | A query runs exactly when the view and subview it names exist, on those two; otherwise the error names the missing one |
| Queries.SplitExactly | crates/xo-core/src/behavior.rs:579-584 | Splitting a text of tags loses nothing but the commas, and leaves none |
| Queries.TrimExactly | crates/xo-core/src/behavior.rs:579-584 | Trimming takes white space from both ends, and all of it |
| Queries.OrderIsTotal | crates/xo-core/src/behavior.rs:369-379 | The query order is a total preorder: index notes first, then field and identifier, reversed if descending |
| Queries.OrderIsStrict | crates/xo-core/src/behavior.rs:369-379 | With distinct identifiers no two notes tie |
| Queries.RunQuery | crates/xo-core/src/behavior.rs:325-383 | The filter, sort and truncate of `query` compute the specified answer or its error |
| Queries.QueryIsSortedFront | crates/xo-core/src/behavior.rs:325-383 | The answer is the front, of the bounded length, of the only sorted arrangement of the matching notes |
| QueryMeaning.QueryAnswers | crates/xo-core/src/behavior.rs:325-383 | The answer note by note: only notes that meet every condition, none twice, index notes first, then by the field and the identifier in the direction of the view, within both limits; a matching note is left out only if the answer is full and all of it may stand before that note |
| QueryMeaning.PredicateLaws | crates/xo-core/src/behavior.rs:434-443 | `all` and `any` hold of the whole list and are each other's dual |
| QueryMeaning.ConditionsExactly | crates/xo-core/src/behavior.rs:541-587 | What a field is shown as, and when a note has a tag |
| QueryMeaning.ContainsExactly | crates/xo-core/src/behavior.rs:355-367 | A text contains another exactly when that occurs in it at some place |
| QueryMeaning.DisplayLaws | crates/xo-core/src/behavior.rs:554-568 | How values are shown |
| Queries.ReverseSlice | crates/xo/src/app.rs:170-171 | In-place reversal of a slice: the slice is reversed, everything else untouched |
| Queries.Regroup | crates/xo/src/app.rs:158-172 | The two reversals leave each priority group reversed in its place |
| Queries.VisibleNotes | crates/xo/src/app.rs:156-174 | What the application shows, an empty list if the query fails |
| Queries.FlippedSortIsRegrouped | crates/xo/src/app.rs:158-172 | Without truncation the reversal equals sorting with the direction flipped |
| Queries.ReversalIsFlippedSort | crates/xo/src/app.rs:156-174 | If and only if: the reversed view equals sorting in the other direction when the limit cuts nothing off or leaves exactly the index notes |
| Queries.TruncatedReversalDiffers | crates/xo/src/app.rs:156-174 | Two concrete notes under a limit of one: the reversal shows the first, the flipped sort the last |
| Durability.Replica.Flush | crates/xo-core/src/automerge_store.rs:287-316 | The steps of the atomic write, up to any one that fails, as steps of the machine |
| Durability.Replica.PutRecord | crates/xo-core/src/central_replica.rs:104-115 | The change, the flush and the owed event of one put |
| Durability.Replica.ReceiveSyncMessage | crates/xo-core/src/central_replica.rs:64-78 | Flushes only when the message brought something new; what it reports |
| Durability.Replica.GenerateSyncMessage | crates/xo-core/src/central_replica.rs:60-62 | Whatever memory holds may be sent |
| Durability.Replica.SendEvent | crates/xo-core/src/central_replica.rs:94-96 | The event of completed flushes, sent once the lock is released |
| Durability.SnapshotAlwaysLoads | crates/xo-core/src/automerge_store.rs:294-316 | In every run, failed flushes included, a power loss at any step leaves a snapshot that loads |
| Durability.DurableBeforeVisible | crates/xo-core/src/automerge_store.rs:229-232 | If and only if: at every point of a run every message and event reflects only what a reopen would find, when no message is generated after a failed flush |
| Durability.CrashingRunsAreDurable | crates/xo-core/src/automerge_store.rs:270-281 | When the process ends at a failed flush the guarantee holds in every run |
| Durability.RestartKeepsVisible | crates/xo-core/src/automerge_store.rs:270-281 | However a process ends, by a stop or by a power loss at any step, the next one starts with everything a message or event has reflected, as long as the guarantee held |
| Durability.FailedFlushExposes | crates/xo-core/src/automerge_store.rs:229-232 | A concrete run in which the server carries on after a failed flush and sends what a restart does not find |
| Durability.ExposedChangeIsLost | crates/xo-core/src/automerge_store.rs:229-232 | In any state: what is sent after a failed flush is gone after a mere restart |
| Durability.CompletedFlushRecovers | crates/xo-core/src/automerge_store.rs:262-291 | A completed flush, after a put or a received message, makes all of memory durable, earlier failures included, and from then on events and messages reflect it |
| Ids.EncodeBase32 | crates/xo-core/src/id.rs:15-26 | The pushing and reversing loop computes the numeral |
| Ids.DecodeOfEncode | crates/xo-core/src/id.rs:15-26 | Positional decoding inverts the encoding |
| Ids.EncodeOfDecode | crates/xo-core/src/id.rs:15-26 | The encoding gives back every numeral without a superfluous leading zero digit |
| Ids.LengthExactly | crates/xo-core/src/id.rs:15-26 | A number has at most k digits exactly when it is below 32 to the k |
| Ids.GenerateWithRng | crates/xo-core/src/id.rs:33-42 | The generated identifier for given draws |
| Ids.GeneratedIsValid | crates/xo-core/src/id.rs:45-50 | If and only if: for every random tail the identifier is valid until day 32768 |
| Ids.GeneratedInjective | crates/xo-core/src/id.rs:33-42 | Equal identifiers come from the same day and the same draws |
| Ids.FirstIdentifiers | crates/xo-core/src/id.rs:15-42 | The alphabet at its ends, and an identifier of the first day |
| ExportPaths.TakenBounded | crates/xo/src/content_io.rs:269-286 | Only as many suffixes can be taken as there are allocated paths |
| ExportPaths.AllocateExportPath | crates/xo/src/content_io.rs:269-286 | Terminates within as many suffixes as there are allocated paths, on the smallest free one |
| ExportPaths.ExportNotes | crates/xo/src/content_io.rs:125-170 | The export loop computes the specified files or the first error |
| ExportPaths.PathsDistinct | crates/xo/src/content_io.rs:143-170 | Every exported note gets a file of its own; no two share a path |
| ExportPaths.SuffixIsSmallest | crates/xo/src/content_io.rs:143-155 | Each path has the smallest suffix that no earlier path has |
| ExportPaths.ExportIgnoresOrder | crates/xo/src/content_io.rs:131-141 | With distinct identifiers the export depends only on which notes there are |
| ExportMeaning.ExportWrites | crates/xo/src/content_io.rs:125-170 | If and only if: an export succeeds when every chosen note can be written; then there is one file for each, by type, creation time, title and identifier, in the directory of its type and month, named after its title, with everything but identity fields |

## Left out

- Automerge, WebSocket framing, reconnecting and broadcast lag: delivery is a causally closed set of changes.
- YAML, CBOR, base64, blake3 and encryption: identities and hashes are abstract and injective.
- Decoding of stored records and its diagnostics (`decode_record`, `decode_records`, `snapshot`): records arrive decoded, keyed by note and author.
- Schema, note identifier and path checks inside `NoteRevision::validate`, `Head::validate` and `ConfigRevision::validate`: a revision that fails them has no identity.
- Byte offsets and wording of error messages: errors say what went wrong, not where.
- Recursion depth: the reader of forms is recursive here as there, without a stack limit.
- Non-UTF-8 state directories in the server configuration, `expand_home` and the schema check of `load_optional`.
- Running a configuration program in the Steel virtual machine, merging modules and plugin manifests.
- `apply_action`, action availability and capability checks at run time, previews and templates: no property above depends on them.
- Parent directories, symbolic links and spellings of a path that are not in normal form: files are a map from normal-form path to bytes.
- Several manifests sharing one tree: `ProjectionState` has one manifest and one expected-writes table.
- What a restart reads after the expected-writes file could not be written: the table here is the one in memory.
- A manifest that cannot be read, which ends a pass before it begins, and the diagnostics for files that repeat an identity or a path.
- Assets, tombstones, SQLite tables and the search index.
- The 64-bit bound on export suffixes, and the writing of the exported files.
- Client presence, keep-alive and the select loop of a socket: a message is generated, or an event sent, at any moment the lock allows.
- Lower-casing and the text of floats and mappings in a query: opaque, the same for every note.
- BrowserMutations.PrepareMutation: content and identifier of a mutation are given, where the browser parses Markdown and generates the identifier of a new note; so is whether the store loads, which it does not when a configuration is not text or a stored record of any note has no identity.
- Replication.NoHeadIsLost: a crash keeps all a replica holds; `Durability` says when a restart does, which is as long as no message follows a failed flush, and a run in which an exposed change is lost is not composed with it.
- ProjectionSafety.OwnWritesAreExpected: speaks of a pass that the watcher does not interrupt; between the steps of one only the survival of edits is stated.
- ProjectionSteps.EditSurvivesExactly: one pass at a time, and the look at a file is one step.
- XoConfig.CanonicalRoundTrips: speaks of the parser that reads the canonical text, not of the Steel engine that evaluates it.
- Durability.Replica.PutRecord: takes a change that is new to the document, as every put of the document library is.
- HybridClock.HlcClock.constructor: the clock that continues from a given timestamp is not modelled, since no modelled path uses it.
