# Keys Keeper: verified model

A Dafny model of the parts of Keys Keeper whose correctness spans many steps: durable
mutations, exactly-once import, the incremental statistics cache, log readers, graph checks,
scope projection, policy chains, relay accounting, mailboxes, connection admission, chunked
credentials and the request structure check.  `dafny verify dfyconfig.toml` checks all of it.

Conventions of the model:

- A step that touches the outside world (a durable write, a backend call, a read) draws its own
  ending in `Faults`: it completes, raises before or after its effect, or the process dies before
  or after its effect.  A contract therefore holds for every placement of failures and for a
  process death between any two durable writes.  The parameter `calm` switches failures off, and
  the clauses under it say what a call that meets no failure must achieve.
- A metadata transaction is a value that replaces the stored document when its block ends.
- Encryption, signatures, hashes and the JSON, base64 and UTF-8 codecs are injective and
  unforgeable; the hash of a record is the record.
- Objects that the program updates in place are classes; loops that the program writes are loops,
  proved against specification functions about which the lemmas speak.

What an operation makes of its request is stated apart from the functions that compute it: the
files named `...Meaning` say in terms of the request and of what is stored alone what an accepted
request changes, which requests are accepted, what an import adds, what the counters count and
which payload is due, and prove that this is what the program does.

The files by component:

| component | files |
|---|---|
| operation journal | `JournalDisk`, `Ledger`, `Journal` |
| durable mutations | `Metadata`, `Store`, `Mutation`, `MutationTheory`, `MutationMeaning`, `SecretBackend`, `MutationProtocol`, `MasterMutation` |
| create-only import | `ImportTypes`, `ImportPlan`, `ImportMeaning`, `Importer` |
| daily statistics | `EventCounts`, `CountMeaning`, `StatsScan`, `StatsPass`, `StatsFiles`, `StatsSlots`, `StatsCost`, `DailyStats` |
| audit log reader | `Lines`, `AuditLines` |
| graphs and projection | `RefGraph`, `FolderTree`, `Projection`, `ProjectionMeaning` |
| policy chain | `PolicyChain` |
| relay and mailboxes | `RelayUsage`, `Mailbox` |
| admission, credentials, requests | `HttpAdmission`, `ChunkedCredential`, `JsonStructure` |
| shared | `Wrappers`, `Names`, `Faults` |

Nine expected properties turned out to hold only under a condition.  The model keeps the code
as it is, gives an input on which the property fails, and proves the condition:

- A finished operation keeps its receipt if and only if the receipts from it to the newest fit the
  ledger when a compaction merges them; one leftover over a full ledger of later receipts loses its
  own (`Journal.LeftOutIff`, `Journal.LeftoverState`).
- The after test of the mutation pipeline fails on the cascading deletion of an entry that refers
  to itself, and on nothing else (`MutationTheory.AfterRecognizedIff`, with the entry in
  `MutationTheory.SelfReferenceIsStuck`).  Such a deletion stays safe but pending: no recovery of it
  ever succeeds (`MasterMutation.MasterMutationManager.RecoverRecord`).
- A recovery that meets no failure succeeds if and only if every marker has its record, within limits,
  and an open mutation does not refer to itself (`MasterMutation.MasterMutationManager.Recover`): a
  crash between marker and image leaves a marker that no recovery clears
  (`MutationProtocol.OrphanMarkerBlocks`).
- An import has a revision above all others when it is planned.  If it is interrupted it keeps that
  only as long as no other import is added before it is completed, because a revision is taken
  when its import is recorded (`ImportMeaning.RevisionStaysNewIff`, with two imports under one
  revision in `ImportMeaning.RevisionRepeats`).
- A cached statistics entry is resumed after a CR.  If the LF of that pair arrives later and takes
  the line over the line cap, a fresh scan refuses what the resumed one accepts
  (`StatsScan.ResumingReadsTheSameIff`, `StatsPass.OverlongPair`).
- A daily summary is complete if what it has to read is below its budget, and says that it is not
  if that exceeds the budget.  Verifying the old part of a rewritten log counts: a fresh scan can fit
  where the cached one does not (`DailyStats.DailySummaryCache.Summary`, `StatsCost.RewrittenLog`).
- A grant identity stays on its device while every policy in between carries it, and can return on
  another device after a policy without it (`PolicyChain.IdentityKeepsDevice`,
  `PolicyChain.IdentityMovesAfterGap`).
- Overwriting a chunked credential is not old-or-new (`ChunkedCredential.LosingAChunk`).
- Relay totals are right exactly for non-empty scope ids (`RelayUsage.AddedAgreesIff`).

## Model

| member | source | states |
|---|---|---|
| JournalDisk.ClosedReadsBack | src/keys_keeper/operation_journal.py:219-255 | in every sound durable state a closed operation never reads as pending or with the opposite status, and can be read as long as its marker is there |
| JournalDisk.PendingIsIndexed | src/keys_keeper/operation_journal.py:147-178 | whatever reads as pending has its record on disk and is in the plaintext index under its own kind |
| JournalDisk.MarkerOutlivesReceipt | src/keys_keeper/operation_journal.py:367-381 | a closed operation whose marker is gone had a durable receipt first, or a compaction found it closed on disk and had no room for its receipt |
| JournalDisk.AddMarkerSound | src/keys_keeper/operation_journal.py:499-507 | publishing a marker keeps the journal sound and touches no other operation |
| JournalDisk.DropMarkersSound | src/keys_keeper/operation_journal.py:509-514 | dropping markers keeps the journal sound if and only if each belongs to an operation without a record, or to a closed one whose receipt was written or had no room |
| JournalDisk.PutTerminalSound | src/keys_keeper/operation_journal.py:243-248 | writing the terminal record over the pending one closes the operation durably |
| Ledger.KeptIsLongestSuffix | src/keys_keeper/operation_journal.py:353-365 | trimming keeps the longest suffix that has at most 64 receipts and fits the byte limit: only the oldest go, the one just closed stays |
| Ledger.KeptIff | src/keys_keeper/operation_journal.py:353-365 | a receipt stays in the ledger exactly when the receipts from it to the newest are within the limits |
| Ledger.Trim | src/keys_keeper/operation_journal.py:353-365 | the write loop ends, keeps that suffix, and fails exactly when the newest receipt alone is too large |
| Ledger.ByTimeSorts | src/keys_keeper/operation_journal.py:292-305 | the order in which a compaction writes receipts is by time, loses none and repeats none |
| Journal.OperationJournal.Begin | src/keys_keeper/operation_journal.py:131-178 | the record that is written is pending under its kind, in stage prepared, with the given state and time; marker before image; whatever fails or dies, an image without its marker never exists, and only this operation is touched |
| Journal.OperationJournal.Stage | src/keys_keeper/operation_journal.py:185-205 | at every ending the record is the old one or the old one in the given stage, at the given time and with the given state or else its own; finished records are never staged |
| Journal.OperationJournal.ArchiveFinished | src/keys_keeper/operation_journal.py:367-381 | receipt, marker, file in this order, sound after each of them |
| Journal.OperationJournal.Close | src/keys_keeper/operation_journal.py:219-255 | after a successful finish or fail of an open operation a read returns it with its kind, that status, stage, time, result and error and without its state; an earlier close is only ever repeated with its own status, and reads as it was, result and error included |
| Journal.OperationJournal.ListUnfinished | src/keys_keeper/operation_journal.py:257-318 | lists exactly the open operations; whatever the ending, no open operation loses its record or marker, and nothing at all changes before the ledger with the receipts is durable; that ledger is the trimmed merge by time; without failures it succeeds if and only if every marker has its record and the limits hold |
| Journal.LeftOutIff | src/keys_keeper/operation_journal.py:292-305 | a compaction leaves out the receipt of a closed operation exactly when the merged receipts from it to the newest exceed the limits |
| Journal.AdmissibleLosesNone | src/keys_keeper/operation_journal.py:292-305 | a merged ledger within the limits loses no receipt |
| Journal.OneLeftoverIsLost | src/keys_keeper/operation_journal.py:292-318 | one leftover is enough: merged into a full ledger of later receipts, its own is the one that goes |
| Journal.LeftoverState | src/keys_keeper/operation_journal.py:257-318 | a concrete sound state of that kind, with 64 later operations closed and the close of an older one cut short |
| Journal.AnyRun | src/keys_keeper/operation_journal.py:131-318 | any run of begin, stage, finish, fail and listing with distinct ids, each cut short at any durable write, keeps the journal sound and closed operations closed as they were; one that ends without marker and never had a durable receipt was met, closed on disk, by a listing of that run that had no room for it |
| MutationTheory.PreparedImages | src/keys_keeper/master_journal.py:162-290 | a prepared mutation records the source document, the preimages of exactly the accounts it touches, and images of the dependents that differ from them in the references to the deleted entry and the content revision only |
| MutationTheory.IntentsAnnounceScopes | src/keys_keeper/master_journal.py:438-456 | a mutated entry is announced once to each scope that binds it, in ascending order |
| MutationTheory.DeleteApplied | src/keys_keeper/master_journal.py:681-731 | an applied deletion removes the entry under a tombstone, rewrites exactly its dependents and leaves every other entry |
| MutationTheory.SourceIsChecked | src/keys_keeper/master_journal.py:681-731 | a change is only ever applied to the very document, entry and dependents it was prepared from |
| MutationTheory.CascadeLeavesNoReference | src/keys_keeper/master_journal.py:205-230 | after a cascading deletion no entry that is left refers to the deleted name |
| MutationTheory.ApplyKeepsWellFormed | src/keys_keeper/master_journal.py:681-731 | every mutation keeps ids and names unique and every binding resolved |
| MutationTheory.AfterRecognizedIff | src/keys_keeper/master_journal.py:734-757 | the after test recognizes an applied mutation if and only if it is not the cascading deletion of an entry that refers to itself |
| MutationTheory.SelfReferenceIsStuck | src/keys_keeper/master_journal.py:681-757 | the input that shows why: an entry that refers to its own name, whose cascading deletion is prepared and applied but never recognized |
| MutationTheory.MatchingApplyIsIdentity | src/keys_keeper/master_journal.py:401-424 | a mutation whose source already passes the after test changes nothing when applied again |
| MutationMeaning.AppliedIsFulfilled | src/keys_keeper/master_journal.py:162-290 | what an accepted request does: an update or overwriting create stores the caller's name, kind, fields, tags, note, references and times under the old id and catalog attributes and leaves every other entry; a deletion takes the entry of that id, else of that name, and what refers to it loses just these references; bulk and snapshot leave exactly what was asked for; each account holds the given value, its old one or nothing as patch or replacement say |
| MutationMeaning.GrantedIff | src/keys_keeper/master_journal.py:162-290 | a request passes every check made before the journal if and only if the vault admits it: names and ids free or to be overwritten, a rename of an entry nobody refers to, a cascade if there are dependents, a source and preimages as expected, and a credential for every entry that needs one |
| MutationMeaning.SelfReferringIff | src/keys_keeper/master_journal.py:205-230 | the deletions that cannot be recognized are those of the designated entry when it refers to its own name |
| SecretBackend.ApplyAccounts | src/keys_keeper/master_journal.py:527-541 | at every ending each touched account holds its old value or its image and no other account moved; success means all images are in place |
| SecretBackend.RestoreAccounts | src/keys_keeper/master_journal.py:544-554 | each account is restored on its own; without failures the preimages are all back |
| SecretBackend.MixturesSettle | src/keys_keeper/master_journal.py:513-554 | from any mixture of old values and images, imposing the images gives one result and imposing the preimages gives the original |
| MutationProtocol.TornStateIsRefused | src/keys_keeper/master_journal.py:92-103 | whenever metadata and accounts are on different sides of a mutation its marker is present, so the projection guard refuses |
| MutationProtocol.AdmittedIsConsistent | src/keys_keeper/master_journal.py:92-103 | when the guard admits, metadata and accounts are both before or both after, and every untouched account is as it was |
| MutationProtocol.MatchIsResult | src/keys_keeper/master_journal.py:401-424 | recovery that finds the after test passed stands on the recorded result, even if nothing was written yet |
| MutationProtocol.NextMutation | src/keys_keeper/master_journal.py:128-144 | a mutation that starts from an admitted state continues a chain in which each earlier one happened as a whole or not at all |
| MutationProtocol.SettledHappened | src/keys_keeper/master_journal.py:401-424 | a mutation that is settled, by whatever way through failures and recoveries, did what its request asks for or nothing |
| MutationProtocol.MarkersAreOne | src/keys_keeper/master_journal.py:292-305 | with one mutation at a time recovery has at most one marker to go through |
| MutationProtocol.FinishedIsGone | src/keys_keeper/operation_journal.py:257-291 | finishing one operation leaves index and records as they were without it, so what the other markers point to stays readable |
| MutationProtocol.OrphanMarkerBlocks | src/keys_keeper/master_journal.py:292-331 | after a death between marker and image nothing has changed, the guard refuses, and no recovery can succeed |
| MasterMutation.MasterMutationManager.ExecuteInside | src/keys_keeper/master_journal.py:362-382 | accounts, then the announcement of the metadata step; every failure is compensated or left recoverable |
| MasterMutation.MasterMutationManager.Compensate | src/keys_keeper/master_journal.py:146-160 | restores the accounts and closes as failed, or stays open when an account could not be restored |
| MasterMutation.MasterMutationManager.CommitRecord | src/keys_keeper/master_journal.py:384-399 | closes as completed only when metadata and accounts are proven to be after |
| MasterMutation.MasterMutationManager.RecoverRecord | src/keys_keeper/master_journal.py:401-424 | completes one open mutation from wherever it was cut short; it never succeeds on a self-referring deletion, and without failures always on any other mutation |
| MasterMutation.MasterMutationManager.HandleFailure | src/keys_keeper/master_journal.py:146-160 | touches nothing unless the stored document is still the source; then, without failures, all accounts are restored and the operation is closed as failed; it is never closed with an account left changed |
| MasterMutation.MasterMutationManager.Transact | src/keys_keeper/master_journal.py:128-160 | a success did exactly what the request asks for to entries, catalog and accounts; refused requests change nothing; accepted ones end after, before, or recoverable; without failures a request that the vault admits succeeds if and only if it does not delete an entry that refers to itself |
| MasterMutation.MasterMutationManager.Recover | src/keys_keeper/master_journal.py:292-331 | success means no mutation is pending and the latest one is both before or both after; interrupted recoveries keep everything recoverable; without failures it succeeds if and only if every marker has its record within the limits and a mutation that is still open does not refer to itself, so a marker left without its image blocks it for good |
| MasterMutation.AnyRun | src/keys_keeper/master_journal.py:106-424 | any run of mutations and interrupted recoveries, a mutation starting only when none is pending: every mutation but the last did what its request asks for, or nothing, before the next one started from there, and whenever the guard admits so did the last one |
| ImportPlan.FoundOnce | src/keys_keeper/project_importer.py:602-611 | a ledger without repeated keys holds at most one record of a request |
| ImportPlan.PlannedRevisionIsNext | src/keys_keeper/project_importer.py:642-652 | a planned revision is the least positive one above every revision recorded or announced so far |
| ImportPlan.ResolvesAgain | src/keys_keeper/project_importer.py:568-594 | resolving the references again on the same document gives the recorded targets |
| ImportMeaning.BoundAsOne | src/keys_keeper/project_importer.py:568-594 | a name has one binding in a scope exactly when some binding stands for it and no other one does |
| ImportMeaning.ResolvedIsMeant | src/keys_keeper/project_importer.py:568-594 | a reference resolves to an entry if and only if this is what it means: the shared entry that is the only one bound under the name in the scope, or, on the owner's own devices, the one so named |
| ImportMeaning.ObstructedIff | src/keys_keeper/project_importer.py:258-300 | completing a plan is obstructed exactly when its name is taken, a reference does not mean the recorded entry by its recorded name any more, or the entry would close a reference cycle |
| ImportMeaning.UnjoinableIff | src/keys_keeper/project_importer.py:314-340 | a new request conflicts exactly when its name is taken, a reference means nothing to the scope, or its entry would close a reference cycle |
| ImportMeaning.RevisionStaysNewIff | src/keys_keeper/project_importer.py:642-652 | an interrupted import keeps a revision above all others if and only if no other import is added before it is completed |
| ImportMeaning.RevisionRepeats | src/keys_keeper/project_importer.py:193-312 | the input that shows why: two imports planned on the same vault, one interrupted and completed after the other, under the same revision |
| ImportPlan.FreshPlanJoins | src/keys_keeper/project_importer.py:314-388 | a plan made on a document is not obstructed on it |
| ImportPlan.WithImportSound | src/keys_keeper/project_importer.py:268-300 | entry, binding, ledger line and intent join together: ids, names, keys and receipts stay sound, and the request has its one line |
| ImportPlan.GrownByImport | src/keys_keeper/project_importer.py:268-300 | an import only appends, one entry, one binding and one intent for its accepted line |
| ImportPlan.GrownTransitive | src/keys_keeper/project_importer.py:168-191 | growth of entries, bindings, intents and accepted lines in step carries over whole runs |
| Importer.WriteNewAccounts | src/keys_keeper/project_importer.py:489-502 | at every ending only this import's accounts differ, from absent to their planned value; an account that was there is never changed |
| Importer.RemoveOwnedSecrets | src/keys_keeper/project_importer.py:504-515 | takes back only accounts that hold exactly the planned value |
| Importer.ProjectImporter.Refuse | src/keys_keeper/project_importer.py:217-259 | no refusal is recorded while an account still holds a planned value of the request |
| Importer.ProjectImporter.ImportNow | src/keys_keeper/project_importer.py:258-312 | secrets before metadata; a conflict met under the metadata lock takes the staged secrets back before it is recorded |
| Importer.ProjectImporter.DedupRetry | src/keys_keeper/project_importer.py:449-471 | the same submission gets the stored receipt, another one under the same key is answered without a change |
| Importer.ProjectImporter.PersistTerminal | src/keys_keeper/project_importer.py:390-415 | a refused request gets one ledger line and nothing else |
| Importer.ProjectImporter.Resume | src/keys_keeper/project_importer.py:193-312 | completing a plan gives exactly the status that the current document and policy call for; at every ending the import is whole, or its entry is absent, and a recorded refusal has left none of its secrets behind |
| Importer.ProjectImporter.AcceptFresh | src/keys_keeper/project_importer.py:130-166 | a request never seen before gets exactly the status it deserves and touches no account that was there; a refused one leaves all accounts as they were |
| Importer.ProjectImporter.Accept | src/keys_keeper/project_importer.py:68-166 | at every ending the vault is as it was, or the submission joined as a whole with its own name, kind, fields, tags, note and references to what they mean, bound with exactly its fields exported and its secret and passphrase in their own accounts, or its refusal was recorded over clean accounts, and no other account changed; a new request gets the status it deserves and an import the next revision; a request with a ledger line changes nothing and gets what the line says; one whose entry is there without a line is refused and changes nothing, and so does a rival submission |
| Importer.ProjectImporter.Recover | src/keys_keeper/project_importer.py:168-191 | every entry that is added came with the whole import of a pending submission of the scope, whose secrets are in place, and only accounts of such submissions change; success means that each of them has its ledger line and is closed; without failures it succeeds when nothing stands in the way of any of them at its start |
| Importer.EffectMeans | src/keys_keeper/project_importer.py:268-300 | whatever completing a plan does is the whole import of its submission, or a recorded refusal that leaves no secret, or nothing |
| Importer.CompletableStays | src/keys_keeper/project_importer.py:168-191 | completing one import puts nothing in the way of another, whose entry and accounts are its own |
| Importer.AddedStaysOnce | src/keys_keeper/project_importer.py:193-312 | no request's entry is added twice, and each addition left its accepted line |
| Importer.AnyRun | src/keys_keeper/project_importer.py:68-191 | any run of submissions, crashes, replays and foreign changes: one ledger line per request key, the ledger only grows, no request's entry is added twice |
| EventCounts.IncludeLaws | src/keys_keeper/desktop_stats.py:185-193 | counters add up in any order and grouping |
| EventCounts.CountLineAdds | src/keys_keeper/desktop_stats.py:196-237 | a line contributes the same to any counters |
| EventCounts.FoldConcat | src/keys_keeper/desktop_stats.py:417-427 | counting two runs of lines apart and including one in the other is counting them together |
| EventCounts.FoldKeeps | src/keys_keeper/desktop_stats.py:356-362 | until the first future event is due, counting again at a later time of the day gives the same counters |
| CountMeaning.FoldMeans | src/keys_keeper/desktop_stats.py:196-237 | each counter is the number of lines it is named after: total those of access events in the day so far with an outcome, failed those whose outcome is false, each party and operation its own, skipped the malformed ones and those without an outcome, and the last access and next future event are the greatest and the least such times |
| EventCounts.TextBodiesCut | src/keys_keeper/desktop_stats.py:103-125 | a text has the lines of both sides of any cut after a newline byte, even when the cut separates CR from LF |
| EventCounts.TextBodiesAreSegments | src/keys_keeper/desktop_stats.py:97-125 | the lines that are counted are the non-empty segments between newlines, a CR LF pair being one newline |
| StatsScan.BoundedLines | src/keys_keeper/desktop_stats.py:97-133 | delivers the lines up to the first one over the cap however the stream is cut into chunks, and never overspends |
| StatsScan.BodiesReadAreText | src/keys_keeper/desktop_stats.py:97-125 | a scan counts the lines of the text up to the first one over the cap |
| StatsScan.ScanCut | src/keys_keeper/desktop_stats.py:406-425 | a scan resumed after a newline byte reads what a scan from the top reads, if no line is over the cap by the LF of its pair alone |
| StatsScan.ResumingReadsTheSameIff | src/keys_keeper/desktop_stats.py:107-125 | resuming gets through the same bytes if and only if the cut does not fall inside a pair whose LF takes its line over the cap |
| StatsScan.PairOverCapIsSeenDifferently | src/keys_keeper/desktop_stats.py:114-122 | for every cap, the input that shows why: a line that only the LF of its pair takes over the cap is refused as a whole and accepted in two parts |
| StatsPass.OverlongPair | src/keys_keeper/desktop_stats.py:97-125 | the same for the program's cap: a log of 1 MiB and one byte and a place where a scan of it is resumed |
| StatsPass.ConsumeLines | src/keys_keeper/desktop_stats.py:417-427 | stable counters, tail, resume offset and digest are those of the bytes read, with the part already hashed not hashed twice |
| StatsPass.PassIsFresh | src/keys_keeper/desktop_stats.py:388-448 | a pass that resumed anywhere reports what a scan from the top counts, refused lines included |
| DailyStats.PrefixUnchanged | src/keys_keeper/desktop_stats.py:397-406 | an append is believed only when the old bytes are all still there |
| DailyStats.KnownPass | src/keys_keeper/desktop_stats.py:388-448 | a pass over an unchanged file keeps a faithful entry, takes no more of the budget than it has to read, and reports a fresh scan if more than that was left |
| StatsFiles.EntryKeeps | src/keys_keeper/desktop_stats.py:356-362 | an entry whose counted future events are not due yet says what a scan would say now |
| StatsFiles.FreshScanTakes | src/keys_keeper/desktop_stats.py:342-347 | the sum over the files does not depend on their order |
| StatsFiles.FreshScanTells | src/keys_keeper/desktop_stats.py:196-237 | a fresh scan of all files gives for each counter the number of lines of all readable parts it is named after, and the number of files that are unreadable or have a line over the cap |
| StatsFiles.FreshScanIsBalanced | src/keys_keeper/desktop_stats.py:196-237 | in a fresh scan every access is one operation by one party, failures are among them, and the last one lies in the day so far |
| StatsFiles.AggregateKeeps | src/keys_keeper/desktop_stats.py:331-336 | the aggregate of an unchanged set of files stays right until a future event is due |
| StatsSlots.CachedFirstPermutes | src/keys_keeper/desktop_stats.py:342-345 | reusing cached files first loses none and repeats none |
| StatsSlots.EntriesStay | src/keys_keeper/desktop_stats.py:337-347 | no file evicts the entry of another one that is cached and still to be looked at, with room for all or with cached files first |
| StatsCost.CostWithinCharge | src/keys_keeper/desktop_stats.py:392-425 | whatever the cache holds, a summary reads at most every file once, an open line more of a file that grew, and twice a file that was rewritten in place |
| StatsCost.RewrittenLog | src/keys_keeper/desktop_stats.py:392-415 | the input on which the budget runs out although a fresh scan fits: a cached log of 40 MiB that is rewritten in place and then holds 41 MiB |
| DailyStats.DailySummaryCache.FileCounts | src/keys_keeper/desktop_stats.py:353-381 | the counts of one file are those of a fresh scan, from its entry or from a read, if the budget exceeds the bytes that its entry leaves to be read; if nothing is reported as unreadable exactly those bytes were read; every entry stays faithful |
| DailyStats.DailySummaryCache.Remember | src/keys_keeper/desktop_stats.py:383-386 | the cache stays within its bound and faithful |
| DailyStats.DailySummaryCache.Summary | src/keys_keeper/desktop_stats.py:311-351 | the summary equals a fresh scan of all files whatever happened before, if no file changes meanwhile, no read fails, no line is over the cap by its LF alone, and the bytes it has to read are below the budget: then each of its counters is the number of lines it is named after; if those bytes exceed the budget it reports an unreadable log |
| DailyStats.AnyRun | src/keys_keeper/desktop_stats.py:284-351 | every answer of any run of requests, file changes, days and clock moves is a fresh scan and counts what its counters are named after, if the files of that visit are within the budget at their size, with an open line more if they grew and twice if they were rewritten in place |
| Lines.CutsDoNotMatter | src/keys_keeper/audit.py:78-112 | a cut that does not fall inside a two-byte delimiter does not change the lines |
| Lines.SegmentsMirror | src/keys_keeper/audit.py:78-112 | reading the bytes backwards with the delimiter turned round gives the mirrored lines |
| AuditLines.ReadLines | src/keys_keeper/audit.py:67-119 | for every content within the scan cap and every chunk size, exactly the file's lines in reading order, up to the number wanted or the first oversized line |
| AuditLines.DirectionsAgree | src/keys_keeper/audit.py:67-119 | newest first is the exact reverse of oldest first, and both refuse on the same files |
| AuditLines.Tail | src/keys_keeper/audit.py:361-375 | the non-blank part of the last n lines, in order; within the scan cap it refuses if and only if more than 10000 lines are asked for or one of those last n is too long, whatever lies before them |
| RefGraph.DetectCycles | src/keys_keeper/refs.py:19-49 | raises if and only if the references between existing names have a cycle or a self-reference; a missing target never raises |
| RefGraph.CyclicIff | src/keys_keeper/refs.py:19-49 | the graph has a cycle if and only if entries refer one to the next and the last one to the first |
| RefGraph.RankedIsAcyclic | src/keys_keeper/refs.py:30-49 | a graph whose finished names all have smaller finished successors has no cycle |
| RefGraph.BackReferenceIsCycle | src/keys_keeper/refs.py:36-41 | a reference back to the search path is a cycle |
| FolderTree.ValidateFolderCycles | src/keys_keeper/project_models.py:231-242 | with its memo of checked folders, raises if and only if some folder is its own ancestor |
| FolderTree.ValidateFolders | src/keys_keeper/project_models.py:200-208 | duplicate ids, missing parents and cycles are told apart, each if and only if it is there |
| FolderTree.RankPath | src/keys_keeper/project_models.py:234-242 | a walk that ends at the top or at a checked folder proves all its folders acyclic |
| Projection.Prepare | src/keys_keeper/project_projection.py:21-83 | the loops compute the specified snapshot or the first refusal |
| Projection.BuildProjectPayload | src/keys_keeper/project_projection.py:101-124 | the payload is the specified one, which `ProjectionMeaning.PayloadIff` spells out, and no account outside the bound entries is read |
| Projection.SortingIsCanonical | src/keys_keeper/project_projection.py:26 | the stored order of bindings does not matter |
| Projection.PayloadDependsOnScopeOnly | src/keys_keeper/project_projection.py:21-124 | two catalogs and backends that agree on a scope give the same payload or the same refusal, whatever else they hold |
| Projection.PayloadIsClosed | src/keys_keeper/project_projection.py:44-63 | references lead inside the payload, SSH servers have exactly one key reference and it leads to an SSH key, no required secret is missing |
| Projection.PayloadIsReleased | src/keys_keeper/project_projection.py:40-43 | a project payload only holds bound entries released for projects, and its references have no cycle |
| ProjectionMeaning.PayloadIff | src/keys_keeper/project_projection.py:21-124 | a scope gets a payload if and only if one is due, and exactly that one: for each binding of the known scope, in order and under distinct names, a valid record of its released entry with the exported and the essential fields, its note and tags if exported, its links, its secret and for keys its passphrase, of the expected revision and without a circle of links |
| ProjectionMeaning.RecordIff | src/keys_keeper/project_projection.py:40-72 | an entry is projected to a record if and only if this shows exactly the exported and essential fields with the entry's values, the binding's name, note and tags only if exported, the links in order, and a server's one key reference leads to a key of the payload |
| ProjectionMeaning.RefsIff | src/keys_keeper/project_projection.py:46-63 | without export only the key reference is left, with it exactly the references to bound targets, in order and by their names in the payload |
| PolicyChain.ValidatePolicy | src/keys_keeper/project_protocol.py:253-291 | the loop with its seen-sets accepts exactly the policies whose grants are pairwise apart and delegate nothing of the master |
| PolicyChain.AcceptedIff | src/keys_keeper/project_protocol.py:345-375 | a transition is accepted if and only if both records are trusted, the new one names the old one as its parent, and versions, epochs, checkpoints and grants evolve as they must |
| PolicyChain.ChainInvariant | src/keys_keeper/project_protocol.py:345-375 | between any two policies of an accepted chain: version counts the steps, epochs and checkpoints never go back, grants and checkpoint are constant within an epoch, identities never change |
| PolicyChain.GenerationsRise | src/keys_keeper/project_protocol.py:363-369 | while a device stays granted every change of its grant raises the generation |
| PolicyChain.GrantWasConstant | src/keys_keeper/project_protocol.py:363-369 | a grant found unchanged on a continuously granted device was the same all the time |
| PolicyChain.IdentitiesStay | src/keys_keeper/project_protocol.py:362-365 | one step hands no grant identity to another device |
| PolicyChain.IdentityKeepsDevice | src/keys_keeper/project_protocol.py:362-365 | while every policy in between carries it, an identity stays on its device over any number of steps |
| PolicyChain.IdentityMovesAfterGap | src/keys_keeper/project_protocol.py:362-365 | three policies that form a chain in which an identity returns on another device after a policy without it |
| PolicyChain.HistoryIsDetermined | src/keys_keeper/project_protocol.py:349-350 | accepted chains that end in the same record agree as far back as both go |
| PolicyChain.SnapshotIff | src/keys_keeper/project_protocol.py:465-486 | a snapshot is accepted if and only if the pinned key signed it and a policy that delegates from this key, it names this very policy by scope, vault, epoch, version and hash, and it continues from the checkpoint and from what the reader trusts |
| PolicyChain.SnapshotHasOnePolicy | src/keys_keeper/project_protocol.py:378-385 | no snapshot is accepted under two policies, and a reader who asks for more than the last accepted number finds the numbers rising |
| PolicyChain.EpochWindow | src/keys_keeper/project_protocol.py:465-486 | all snapshots accepted under one epoch lie in the 65536 numbers above its checkpoint |
| PolicyChain.EpochBudget | src/keys_keeper/project_protocol.py:465-486 | at most 65536 distinct sequence numbers can be accepted under one epoch |
| PolicyChain.WindowIsFull | src/keys_keeper/project_protocol.py:465-486 | every number of that window can be accepted |
| PolicyChain.AuthorizedIff | src/keys_keeper/project_protocol.py:320-342 | a device is authorized exactly by its own grant of the policy, of the asked identity and generation, and for submissions of a contributor |
| PolicyChain.CreateIff | src/keys_keeper/project_protocol.py:543-564 | a submission is accepted if and only if one contributor's grant entitles its device under its own policy and the current one, this grant's key signed it, it names its policy and it is sealed for the inbox of both |
| PolicyChain.AcceptedCreate | src/keys_keeper/project_protocol.py:543-564 | a submission accepted under a later policy carries a contributor's grant that signed it and is in force in both, and all the time if the device was never dropped |
| RelayUsage.RelayStorage.constructor | src/keys_keeper/relay_storage.py:12-40 | the first count of existing rows gives every scope and the total their exact sums |
| RelayUsage.CountTable | src/keys_keeper/relay_storage.py:26-34 | one grouped insert adds each group of a table to its scope |
| RelayUsage.AddedAgreesIff | src/keys_keeper/relay_storage.py:50-56 | adding a row keeps the counters right if and only if its scope id is not empty |
| RelayUsage.RemovedAgrees | src/keys_keeper/relay_storage.py:57-60 | removing a row keeps the counters right |
| RelayUsage.ScopesAddUp | src/keys_keeper/relay_storage.py:35-38 | adding up the scopes is adding up all rows |
| RelayUsage.RelayStorage.Execute | src/keys_keeper/relay_storage.py:48-65 | no insert, update, move between scopes or delete ever violates the check constraint, and counters stay equal to recomputed sums |
| RelayUsage.RelayStorage.Read | src/keys_keeper/relay_storage.py:67-74 | usage is the recomputed sum of the scope, or of everything |
| RelayUsage.AnyRun | src/keys_keeper/relay_storage.py:11-74 | after any run of changes from any existing rows all counters are exact |
| Mailbox.UsageIsPackets | src/keys_keeper/pairing_server.py:72-78 | accounted bytes less 256 for each row are the packet bytes |
| Mailbox.FilledBytes | src/keys_keeper/pairing_server.py:64-79 | a row's bytes are its invitation and what was put into its slots, and filling one slot leaves the other |
| Mailbox.PairingRelay.Budget | src/keys_keeper/pairing_server.py:72-79 | admits a packet exactly when both packet limits hold with it |
| Mailbox.InsertStaysBounded | src/keys_keeper/pairing_server.py:100-103 | a new row under the limits keeps 8 rows a scope, 128 overall and both packet limits |
| Mailbox.FillStaysBounded | src/keys_keeper/pairing_server.py:119-123 | a filled slot keeps all limits, and a response its request |
| Mailbox.AuthorizeIff | src/keys_keeper/pairing_server.py:31-62 | row and caller alone decide: the bearer of the row's token fills the request, a publishing device the response, both may read until the row expires, and nobody else passes |
| Mailbox.PairingRelay.Open | src/keys_keeper/pairing_server.py:84-104 | opens a pairing after expired rows are gone, repeats without effect, refuses without any change, and accepts whatever the limits allow |
| Mailbox.PairingRelay.Fill | src/keys_keeper/pairing_server.py:109-124 | only an empty slot is filled, the same packet again is accepted without effect, another one is refused |
| Mailbox.PairingRelay.Handle | src/keys_keeper/pairing_server.py:31-124 | every request gets exactly the answer it is owed, whoever is entitled is served or told what is wrong with the packet, the slot or the room, and nobody else is; the mailboxes stay bounded and their usage exact, and no unexpired row changes except by filling an empty slot |
| Mailbox.HandledPreserves | src/keys_keeper/pairing_server.py:81-124 | until its expiry a row stays, with all that was written in it |
| Mailbox.RunPreserves | src/keys_keeper/pairing_server.py:81-124 | and so over any number of requests, in all states that a run goes through |
| Mailbox.AnyRun | src/keys_keeper/pairing_server.py:31-124 | any run of requests answers each as it is owed and keeps the mailboxes bounded; with a clock that does not go back, a slot filled at any time is unchanged at every later time up to the expiry of its row |
| HttpAdmission.StepKeeps | src/keys_keeper/http_resources.py:140-200 | every atomic step of acceptors, handlers and closers keeps the admission invariant |
| HttpAdmission.Reachable | src/keys_keeper/http_resources.py:146-200 | under every interleaving permits stay within the limit, the cancel reader is open while a connection is admitted and closed once closing has drained, and nothing is kept when all are gone |
| HttpAdmission.NoneAdmittedAfterClosing | src/keys_keeper/http_resources.py:146-176 | once closing is set no connection is admitted any more, and none that waits for its handler is served |
| HttpAdmission.ClosedMeansClosing | src/keys_keeper/http_resources.py:183-200 | when a call of close has returned the server is closing and has woken its readers, and with no connection left the cancel reader is closed |
| HttpAdmission.ArrivalIsServed | src/keys_keeper/http_resources.py:146-176 | left to itself an arriving connection is served if there is room, and a full or closing server turns it away and keeps nothing of it |
| HttpAdmission.NoDeadlock | src/keys_keeper/http_resources.py:150-176 | whoever is not done can take a step, or waits for the lock while its owner can |
| HttpAdmission.EverySchedulePeters | src/keys_keeper/http_resources.py:146-200 | without new arrivals every schedule makes a bounded number of moves, and where no move is left no permit is held, no connection is kept and the cancel reader of a closing server is closed |
| HttpAdmission.ReachableDrains | src/keys_keeper/http_resources.py:146-200 | from every reachable closing state some schedule of bounded length drains the server |
| ChunkedCredential.WindowsCredentialBackend.Get | src/keys_keeper/backend_windows.py:266-300 | reading joins the chunks before it decodes, and fails on anything missing or malformed |
| ChunkedCredential.ReadingIff | src/keys_keeper/backend_windows.py:266-300 | an account is not found exactly when it has no main blob; otherwise it reads as the text of its bytes, which a chunked blob has in its chunks in order, or is unavailable |
| ChunkedCredential.WindowsCredentialBackend.Set | src/keys_keeper/backend_windows.py:302-321 | after a successful set a read returns the value if it needs at most 33554 chunks; when the old main blob was absent or raw, every prefix of the writes reads as the old state or the new; other accounts are untouched |
| ChunkedCredential.WindowsCredentialBackend.Delete | src/keys_keeper/backend_windows.py:323-328 | every prefix of a delete reads as the old value or as not found; a successful one leaves no chunk |
| ChunkedCredential.SlicesJoin | src/keys_keeper/backend_windows.py:315-319 | chunks join to the bytes they were cut from, wherever the cuts fall |
| ChunkedCredential.OthersUnaffected | src/keys_keeper/backend_windows.py:266-328 | an account reads the same whatever is done to another |
| ChunkedCredential.LosingAChunk | src/keys_keeper/backend_windows.py:306-308 | old-or-new does not extend to a chunked old value: the first stale chunk deleted makes it unreadable |
| JsonStructure.CheckStructure | src/keys_keeper/request_json.py:30-41 | accepts exactly the values of at most 64 levels and 100000 nodes, and never holds more tasks than nodes it may visit |
| JsonStructure.TasksAreChildren | src/keys_keeper/request_json.py:38-41 | the tasks of all children amount to the children |

## Left out

- Cryptography, key derivation caches, codecs and canonical JSON: opaque injective functions.
- File permissions, ownership, symbolic links and locking: a file write is one atomic replacement that may fail or die before or after; the profile lock appears as operations that do not interleave.
- MasterMutation.AnyRun: a mutation starts only when none is pending, because `_transact` itself does not look for earlier markers.
- Importer.AnyRun: the importer and the mutation manager are modelled on journals of their own; foreign mutations appear as arbitrary changes to everything but the import ledger.
- Size limits on whole files and on the pending index beyond the number of markers: they appear as writes that fail.
- Recovery images in older formats and the validation of single fields.
- DailyStats.DailySummaryCache.Summary: compressed input is charged to the read budget by its decompressed bytes only, and damaged archives are not modelled; errors of directory listings and of the first stat other than a missing file are left out.
- The JSON projection of the daily counters and the list of log files of a day.
- AuditLines.ReadLines: reads deliver what was asked for, from a file that does not change during the read.
- Projection.Prepare: the validation of the stored catalog is a precondition; a personal copy is modelled but independence is claimed for project scopes only.
- PolicyChain.ChainInvariant: identifier and key syntax and the size of records are left out; sealed parts are well formed or not.
- RelayUsage.RelayStorage.constructor: the usage table of a namespace is empty before its first count.
- Mailbox.PairingRelay.Handle: identifier syntax is left out; authentication of a publishing device by the relay is a flag of the caller.
- HttpAdmission.Reachable: sockets, deadlines and request handling are left out; the socket pair is there from the start, and a failed thread start has started no handler.
- ChunkedCredential.WindowsCredentialBackend.Set: the order in which stale chunks are listed is arbitrary; account names contain no `#`.
- Command line, API routes, pages, clipboard, other secret backends, backup and recovery bundles, HTTP clients.
