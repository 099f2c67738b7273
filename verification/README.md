# Verification of the file-space model

file-space is a personal file store: a Go server keeps file rows and bytes, and a web client and
a macOS client upload files and keep a local folder in step with the server. These Dafny modules
model the parts where several pieces of that system have to agree, and prove what they agree on.

- `Repo`, `Cursor`: the files and file_deletions tables with their one shared version sequence,
  as values and as a repository object; what a version window tells a client.
- `FileNames`, `FileService`, `Migration`: the "name (n).ext" convention, the retry loop that
  gives an upload the least free name, and the SQL loop that made names unique in the first place.
- `SyncService`: the diff that turns a window and a manifest into download, delete_local and
  conflict actions, and what obeying them in their order achieves.
- `Reconcile`, `ReconcileTable`, `ReconcilePass`, `SyncTheorems`: a sync pass as a fold over
  actions and names, and its refinement to one decision table per name.
- `PassProgress`, `PassByName`: exactly when a pass gets through and where it stops otherwise; all
  that a completed pass does to one name, on both sides, in terms of the state before it.
- `PassInvariant`, `FailedDeletes`: what every prefix of a pass keeps, and exactly when a pass whose
  best-effort deletes fail keeps it too.
- `SyncRuns`, `StepEffects`, `Isolation`: any number of clients and writers; the tracking invariant
  over whole runs, what each step does and leaves alone, and that owners never touch one another.
- `SyncOutcome`, `SyncRemovals`: exactly when a pass converges, when the next pass is idle, and
  which remote deletes a pass makes.
- `SyncLosses`: concrete states for each way in which sync loses something.
- `Resolve`, `ResolveByName`, `DesktopSync`, `SyncGuard`: conflict resolution call by call, and what
  it does to every name; the desktop sync object,
  whose methods update folder, entries, cursor and conflicts in place and equal the specification;
  and the flag that keeps its passes apart.
- `Uploads`, `PartialWrites`, `ChunkedClient`: upload sessions under every interleaving of critical
  sections; what chunks that stop part-way do to them; the slicing loop, and the refinement of a
  chunked upload to a single-shot one.
- `Storage`: Create and Delete as interleaved steps over rows and stored bytes.
- `Disposition`, `HeaderParts`, `FilenameRoundTrip`, `DesktopRoundTrip`: the Content-Disposition header (section
  4.3 of RFC 6266, section 3.2 of RFC 8187, section 2.1 of RFC 3986) and its two readers.
- `Paging`: sorted listings and the pages of an infinite scroll.

`dafny verify dfyconfig.toml` checks everything.

## How to read it

A digest stands for the content it was computed from: SHA-256 is taken to be injective. File
content, names and tables are values; a clock, the network, the file system and the choice of
iteration order are parameters. Each repository call is one atomic step. A pass or resolution
gets a `budget` of throwing API calls that succeed; the next one throws, so every prefix of the
calls is covered. Loops of the source are methods whose contracts equate the new state with a
function, and the theorems are about that function; where a theorem would otherwise describe a
function by itself, a `ByName`, `Iff` or `Is` lemma says the same of names, rows and numbers alone.

Hypotheses that the theorems carry, because the code needs them:

- the client gets the whole listing (at most 1000 rows), and nobody else writes between the
  first and last call of one pass (`ReconcilePass.Listed`, `SyncTheorems.PassEnv`);
- best-effort deletes of rows go through, except in `FailedDeletes` and `SyncRuns`, where any of them
  may fail; storage deletes may fail where stated.

What the proofs found out about the code:

- A re-upload is a delete and a create under one name, and the diff sends all tombstones last. So
  the client's own re-upload comes back as delete_local in its next pass: the file leaves the folder
  and the entries while the server keeps the row (`SyncOutcome.ReuploadThenLost`). Convergence and
  quiescence are stated with their exact conditions instead of unconditionally.
- A tracked name that starts with a dot is never scanned, so a pass deletes its row while the file
  is still on disk, and the next pass, obeying the first one's tombstone, removes the file as well
  (`SyncOutcome.LiveFileDeletedIff`, `SyncOutcome.DeletedThenLost`). In `SyncLosses.DotfileDeleted`
  one pass downloads ".env", the second deletes it on the server and the third on disk.
- After switching folders the first pass deletes nothing of the server's, except a row older than
  the sha256 column under a scanned name with other content (`SyncRemovals.SwitchDeletesIff`,
  `SyncLosses.SwitchDeletesUnhashed`).
- Keeping the local copy of a conflict whose remote row has been replaced meanwhile uploads it under
  a numbered name and records that row under the old one (`Resolve.KeepLocalIff`,
  `SyncLosses.StaleKeepLocalMisnames`); so does keep-both when its copy's name is taken on the
  server (`Resolve.CopyEntryIff`, `SyncLosses.CopyNameTaken`), and so does a pass or keep-local whose
  best-effort delete fails before it uploads the name (`FailedDeletes.CompletedLosingIff`,
  `SyncLosses.FailedDeleteMisnames`). No other step breaks the tracking of rows
  (`SyncRuns.StepKeepsWorldIff`).
- Keep-both is safe for both sides of the conflict, but not for a file that already has the copy's
  name: the web client overwrites it and the desktop client removes it
  (`Resolve.OthersSurviveIff`). A second keep-both of one name on one day can thereby destroy the
  earlier edit on both sides (`SyncLosses.SecondKeepBothLosesFirst`).
- The comment at backend/internal/service/uploads.go:190-193 says a session can never be completed
  twice; two overlapping calls can (`Uploads.CompletedAgainIff`). A chunk that stops
  part-way leaves uncounted bytes (`PartialWrites.PartialWriteCorrupts`) or, after a failed completion,
  overwrites counted ones (`PartialWrites.RewoundWriteCorrupts`).
- The web client reads back the wrong filename exactly when the quoted fallback itself contains
  the `filename*=UTF-8''` marker with anything but a semicolon after it; a form feed can complete one (`FilenameRoundTrip.FormFeedMisleads`).
  The desktop client is misled by names like `a;filename*=x` (`DesktopRoundTrip.SemicolonMisleads`).
- A page size above 1000 makes the scroll skip rows (`Paging.PagesCompleteIff`, `Paging.RowShownIff`); the client asks for 50.

## Model

| member | source | states |
|---|---|---|
| SyncRuns.TrackingOverRuns | frontend/src/sync/reconcile.ts:110-222 | Over every run of uploads, deletes, local edits, folder switches, completed and aborted passes and resolutions by any number of clients, best-effort deletes failing or not and sequence values going missing, in every state, every tracked entry names a row created under that name with that hash, live or buried after the client's cursor, if and only if no pass or resolution on the way recorded a misnamed row |
| SyncRuns.FreshWorldOk | frontend/src/sync/storage.ts:108-113 | An empty server and fresh clients, whatever their folders hold, satisfy the invariant that runs start from |
| SyncRuns.StepKeepsWorldIff | desktop/Sources/FileSpaceDesktop/SyncViewModel.swift:150-402 | A step of anybody keeps that invariant, conflicts unique and about known rows, and the server tables valid, unless it is exactly a pass or resolution that records a misnamed row |
| SyncRuns.ResolveKeepsIff | frontend/src/sync/reconcile.ts:233-292 | A resolution keeps its client in order if and only if it is no keep-local that finds the name still taken, because its row was replaced or its delete failed, and no keep-both whose copy's name is taken on the server, that gets far enough to record its upload |
| StepEffects.StepDoes | desktop/Sources/FileSpaceDesktop/SyncViewModel.swift:97-106 | A step changes no client but its own; edits, removals and folder switches change only that client's folder, a switch also its bookkeeping, and never the server |
| Isolation.OwnersApart | backend/internal/repo/file_repo.go:183-221 | Over any run that takes no step for an owner, failing deletes and stale ids of other clients included, the owner's rows and tombstones stay exactly as they were |
| PassInvariant.PassKeepsClient | desktop/Sources/FileSpaceDesktop/SyncViewModel.swift:224-301 | A pass cut off at any API call leaves the client in order, whether it keeps partial progress (desktop) or none (web) |
| FailedDeletes.LosingKeepsClientIff | frontend/src/sync/reconcile.ts:177-222 | A pass cut off at any API call, whichever of its deletes fail, leaves the client in order if and only if no delete failed before an upload of its name that went through and was recorded |
| FailedDeletes.CompletedLosingIff | frontend/src/sync/reconcile.ts:183-190 | For a completed pass that is told beforehand: no delete fails for a name that the decision table wants replaced |
| FailedDeletes.LosingNothing | frontend/src/sync/reconcile.ts:182-220 | When no delete fails these passes are the ones the other theorems are about |
| StepEffects.LostReplacement | frontend/src/sync/reconcile.ts:180-190 | When the delete before a re-upload fails, the old row stays and the file is stored beside it under the least free number, with an entry of the name for the new row |
| StepEffects.LostKeepLocal | frontend/src/sync/reconcile.ts:233-248 | Keep-local whose delete fails stores the file beside the row it meant to replace, settles the conflict and touches no other name |
| SyncLosses.FailedDeleteMisnames | frontend/src/sync/reconcile.ts:183-190 | A concrete edited file whose delete fails: stored as "a (1)", recorded as "a", the old row still there |
| SyncTheorems.ActionsTracked | frontend/src/sync/reconcile.ts:132-175 | Applying the server's actions, aborted or not, keeps every entry tracked and every conflict about a known row |
| SyncTheorems.ActionsSettle | frontend/src/sync/reconcile.ts:132-175 | Once all actions of the real diff are applied, every tracked row is live and every scanned file not deleted by the server is still as scanned |
| SyncTheorems.PassTable | frontend/src/sync/reconcile.ts:132-220 | The three mutating phases refine a decision table: a name's folder content, entry, conflict and remote effect follow from that name's own data |
| PassByName.PassDoes | frontend/src/sync/reconcile.ts:104-222 | What a completed pass does to one name, said of folder, entries, conflicts, rows and tombstones before and after: which file, entry, conflict and row it has then, desktop and web alike, and that the cursor is the window's end |
| PassProgress.PassAbortsIff | desktop/Sources/FileSpaceDesktop/SyncViewModel.swift:208-288 | A pass aborts if and only if fewer calls are answered than the owner's new rows without a readable file plus the files due for upload, both counted in the state before it; an empty file is uploaded like any other |
| PassProgress.AbortedPassStops | desktop/Sources/FileSpaceDesktop/SyncViewModel.swift:208-307 | An aborted pass stops at its first unanswered download or upload and keeps what was done before, on the desktop all of it and on the web only the files; at most the row that was to be replaced is gone |
| ReconcileTable.ActionsOnSlot | frontend/src/sync/reconcile.ts:132-175 | What the action loop does to a name depends only on that name's slot and its own sub-list of actions |
| StepEffects.ActionsAbortIff | desktop/Sources/FileSpaceDesktop/SyncViewModel.swift:208-219 | Whatever listing and response: the action loop gets through if and only if every download of a listed name finds its row and an answered call; unlisted names are passed over |
| ReconcileTable.UploadStep | frontend/src/sync/reconcile.ts:177-197 | One round of the upload loop, if it gets through, fulfils the table for its name and keeps the tables valid and every entry live; `PassProgress.PassAbortsIff` says when it gets through |
| ReconcileTable.UploadOthers | frontend/src/sync/reconcile.ts:177-197 | One round of the upload loop leaves every other name untouched on both sides |
| StepEffects.UploadReadsNow | frontend/src/sync/reconcile.ts:186-195 | An upload sends the file as it is on disk now and records size and hash of the scan; it fails when the file is gone, the call is not answered or all numbers are taken, and then changes nothing |
| ReconcilePass.RemoveStep | frontend/src/sync/reconcile.ts:203-220 | One remote delete buries its own name and leaves the others untouched |
| ReconcilePass.DiffOnSlot | backend/internal/service/sync.go:95-126 | The real diff's actions for one name amount to its changed row followed by its tombstone |
| SyncOutcome.PassFollowsTable | frontend/src/sync/reconcile.ts:132-222 | A completed pass leaves each name as the table says, from that name's view before the pass |
| SyncOutcome.OrderIrrelevant | desktop/Sources/FileSpaceDesktop/SyncViewModel.swift:268-299 | Two completed passes from one state, visiting names in any two orders, agree on folder, conflicts, entries and rows up to fresh ids |
| SyncOutcome.ConvergesIff | frontend/src/sync/reconcile.ts:132-220 | For every name: the two sides agree or a conflict is recorded after a completed pass, if and only if a condition on the state before it holds |
| SyncOutcome.ReadableNamesConverge | frontend/src/sync/reconcile.ts:132-220 | Readable names that were tracked, reported or absent from the server converge in one pass unless the window buries a live name |
| SyncLosses.BuriedLiveNameIsLost | backend/internal/service/sync.go:118-124 | That last hypothesis is needed: a concrete state in which a pass loses a tracked file that was equal on both sides |
| SyncLosses.ReuploadLeavesLost | frontend/src/sync/reconcile.ts:180-190 | That state is what a completed pass leaves after re-uploading an edited file |
| SyncOutcome.LiveFileDeletedIff | frontend/src/sync/reconcile.ts:199-220 | A completed pass deletes the live row of a tracked file that is still on disk, without replacing it, if and only if the name starts with a dot and is readable, unconflicted, and neither changed nor buried in the window; that pass leaves the file, forgotten |
| SyncOutcome.DeletedThenLost | frontend/src/sync/reconcile.ts:142-150 | The next completed pass removes that file, so that it is gone from both sides |
| SyncLosses.DotfileDeleted | frontend/src/sync/reconcile.ts:142-220 | A concrete dotfile that one pass downloads, the next deletes from the server, and the third removes from the disk |
| SyncOutcome.SecondPassIdleIff | frontend/src/sync/reconcile.ts:177-222 | When nothing changes in between, the next completed pass changes a name if and only if the first re-uploaded it, or it is a tracked dotfile |
| SyncOutcome.ReuploadIff | frontend/src/sync/reconcile.ts:177-190 | A re-upload happens exactly for an unconflicted, unreported local edit of a tracked file, and for visible names it is the only thing that keeps the next pass from being idle |
| SyncOutcome.ReuploadThenLost | frontend/src/sync/reconcile.ts:142-150 | After a re-upload both sides agree, and the next pass removes the file and its entry while the server keeps the row |
| SyncRemovals.RemovalsJustified | frontend/src/sync/reconcile.ts:152-220 | For arbitrary listings and diff responses, a pass deletes an id only if justified by the tracked entry, and a completed pass deletes exactly the justified ids |
| SyncRemovals.FreshJustifiedIff | frontend/src/sync/storage.ts:148-163 | With fresh bookkeeping a delete is justified only for an unhashed row that differs from the scanned file |
| SyncRemovals.SwitchDeletesIff | frontend/src/sync/storage.ts:148-163 | The first pass after switching folders, aborted or not, deletes an id only if it is that of an unhashed row clashing with a scanned file; a completed one deletes it if and only if it is |
| SyncRemovals.SwitchIsSafe | frontend/src/sync/storage.ts:134-147 | When all rows are hashed that pass makes no remote delete, whatever folder and server hold |
| SyncLosses.SwitchDeletesUnhashed | frontend/src/sync/storage.ts:148-163 | A concrete unhashed row that the first pass after a switch deletes |
| Reconcile.ConflictsKept | frontend/src/sync/reconcile.ts:152-174 | For any actions, recorded conflicts stay unique by name, are never dropped, and all block their names |
| Reconcile.UpsertInPlace | frontend/src/sync/reconcile.ts:167-172 | A conflict reported again takes the old one's place in the list, a new one comes last, and all others stay |
| DesktopSync.ManifestMeansScan | desktop/Sources/FileSpaceDesktop/SyncViewModel.swift:193-199 | The manifest means the scan in whatever order the dictionary lists it |
| DesktopSync.SyncClient.Reconcile | desktop/Sources/FileSpaceDesktop/SyncViewModel.swift:150-308 | The pass in place ends in the state and tables the specification gives, reports completion truly, and does nothing while the flag is up |
| SyncGuard.OnePassAtATime | desktop/Sources/FileSpaceDesktop/SyncViewModel.swift:166-183 | However calls interleave at their awaits, at most one is between raising the flag and clearing it, and none gets in before the last one's flag has been cleared |
| SyncGuard.EntersIffFree | desktop/Sources/FileSpaceDesktop/SyncViewModel.swift:166-183 | A waiting call gets to work if and only if no other is inside, and is turned away otherwise |
| DesktopSync.SyncClient.ApplyServerActions | desktop/Sources/FileSpaceDesktop/SyncViewModel.swift:208-265 | The action loop over the fields equals the fold over the actions, also when a download throws |
| DesktopSync.SyncClient.UploadPass | desktop/Sources/FileSpaceDesktop/SyncViewModel.swift:268-283 | The upload loop equals the fold over the visited names, also when an upload throws |
| DesktopSync.SyncClient.RemovePass | desktop/Sources/FileSpaceDesktop/SyncViewModel.swift:290-299 | The removal loop visits exactly the names removed locally, once each, and equals the fold |
| DesktopSync.SyncClient.Select | desktop/Sources/FileSpaceDesktop/SyncViewModel.swift:97-106 | A path other than the current one resets entries, cursor and conflicts; the current one keeps them |
| DesktopSync.SyncClient.ResolveKeepLocal | desktop/Sources/FileSpaceDesktop/SyncViewModel.swift:322-341 | In place, equals the specified resolution at every failure point |
| DesktopSync.SyncClient.ResolveKeepRemote | desktop/Sources/FileSpaceDesktop/SyncViewModel.swift:345-363 | In place, equals the specified resolution at every failure point |
| DesktopSync.SyncClient.ResolveKeepBoth | desktop/Sources/FileSpaceDesktop/SyncViewModel.swift:369-402 | In place, ends in the last state of the specified trace at every failure point |
| Resolve.KeepBothConserves | frontend/src/sync/reconcile.ts:268-292 | In every state keep-both goes through, on success and on failure of any call, the edit's bytes are in the folder or on the server, under the copy's name if that was free, and the remote row is unchanged |
| Resolve.KeepBothTouchesTwo | frontend/src/sync/reconcile.ts:274-291 | No state of it changes any file but the conflicting one and the copy's name |
| Resolve.OthersSurviveIff | frontend/src/sync/reconcile.ts:274-291 | All other files survive all its states if and only if no file had the copy's name, or, on the web, one with the same bytes had and nothing fails; also when the conflicting file itself has left the folder |
| Resolve.CopyEntryIff | frontend/src/sync/reconcile.ts:277-280 | The copy's entry describes the row of that name if and only if the name was free on the server |
| SyncLosses.CopyNameTaken | desktop/Sources/FileSpaceDesktop/SyncViewModel.swift:369-402 | A concrete state in which it is taken: the copy is stored under a numbered name and recorded under the plain one |
| SyncLosses.SecondCopyLost | desktop/Sources/FileSpaceDesktop/SyncViewModel.swift:376-401 | Whenever an earlier copy of that name is tracked and quiet, a second desktop keep-both removes it and the next completed pass deletes its row |
| SyncLosses.SecondKeepBothLosesFirst | desktop/Sources/FileSpaceDesktop/SyncViewModel.swift:376-401 | A concrete state in which the earlier edit is then gone from both sides |
| Resolve.KeepBothAgrees | frontend/src/sync/reconcile.ts:276-287 | On success both sides agree on both names, both are tracked, the copy holds the edit, and exactly this conflict is settled |
| ResolveByName.KeepBothDoes | frontend/src/sync/reconcile.ts:268-292 | Where keep-both ends: with both files, both entries and the conflict settled; or, when any call failed, with no file under the copy's name, the conflict and its file as before, and an entry for the copy only on the desktop after its upload |
| ResolveByName.KeepBothOthers | frontend/src/sync/reconcile.ts:268-292 | In every state it goes through, every other name has the same file, entry and conflict, and the cursor is kept |
| ResolveByName.KeepBothRows | frontend/src/sync/reconcile.ts:276-280 | On the server it adds the copy's row, if it got that far, and changes no other |
| Resolve.KeepLocalIff | frontend/src/sync/reconcile.ts:233-248 | Keep-local settles exactly its conflict, and ends tracked and equal on both sides if and only if the conflict is still about the name's row |
| ResolveByName.KeepLocalDoes | frontend/src/sync/reconcile.ts:233-248 | Keep-local keeps all files, the cursor and every other name's entry and conflict; it records the stored file under the name and settles the conflict if the upload got through, and leaves the client as it was otherwise |
| ResolveByName.KeepLocalRows | frontend/src/sync/reconcile.ts:233-248 | On the server it takes away exactly the row the conflict is about and adds exactly the stored file's |
| SyncLosses.StaleKeepLocalMisnames | frontend/src/sync/reconcile.ts:233-248 | A concrete conflict about a replaced row, which keep-local stores as "a (1)" and records as "a" |
| Resolve.KeepRemoteAgrees | frontend/src/sync/reconcile.ts:252-262 | Keep-remote gets through if and only if the row is live and the download is answered; then both sides are equal and tracked and exactly this conflict is settled; otherwise nothing changes |
| ResolveByName.KeepRemoteDoes | frontend/src/sync/reconcile.ts:252-262 | Keep-remote changes file, entry and conflict of its name only, to the remote row's, if it gets through, and nothing otherwise |
| FileNames.ConflictCopyInvertible | frontend/src/sync/reconcile.ts:302-311 | The original name can be recovered from a copy name, which is never the name itself |
| FileNames.ConflictCopyInjective | frontend/src/sync/reconcile.ts:302-311 | Different names have different copy names on one day |
| FileNames.ConflictCopyPlain | frontend/src/sync/reconcile.ts:302-311 | A copy name passes the upload's filename checks whenever the original does |
| FileNames.CopyWithExtension | frontend/src/sync/reconcile.ts:302-311 | The tag stands before the last dot when something stands before that dot |
| FileNames.CopyWithoutExtension | frontend/src/sync/reconcile.ts:302-311 | It stands at the end when there is no dot beyond the first character |
| Cursor.CursorComplete | backend/internal/repo/file_repo.go:223-270 | Rows at an earlier cursor, plus changed, minus the deleted ids, are exactly the owner's rows now, after any writes by anybody and any gaps in the sequences |
| Cursor.WindowsCompose | backend/internal/repo/file_repo.go:228-270 | Two successive windows compose to the one big window: tombstones concatenate, the changed rows are the surviving ones of the first followed by the second's, and the cursors agree |
| Cursor.NothingSlipsUnderCursor | backend/internal/repo/file_repo.go:252-267 | Nothing recorded later has a version at or below a returned cursor, and cursors never go back |
| Repo.CursorCovers | backend/internal/repo/file_repo.go:252-269 | The returned cursor covers everything the owner has and stays within the sequence |
| Repo.FileRepo.Create | backend/internal/repo/file_repo.go:162-178 | Fails exactly when the owner has the name, changing nothing; otherwise appends the row with the next id and version and the digest of its bytes |
| Repo.FileRepo.Delete | backend/internal/repo/file_repo.go:183-221 | If the owner has the row, takes exactly it away and appends its tombstone with the next version; changes nothing otherwise |
| Repo.FileRepo.ListChangedSince | backend/internal/repo/file_repo.go:228-270 | Returns the owner's rows and tombstones above the cursor, in version order on valid tables, and the highest version seen |
| SyncService.Diff | backend/internal/service/sync.go:84-127 | The two loops emit the specified actions and cursor for the repository's state and the manifest |
| SyncService.DiffActionsIff | backend/internal/service/sync.go:95-124 | An action is emitted if and only if a row of the owner above the cursor calls for it (conflict when both hashes are known and differ, nothing when they agree, download otherwise) or a tombstone above the cursor does |
| SyncService.DiffInOrder | backend/internal/service/sync.go:95-124 | Rows come before tombstones, each kind in strictly increasing version order, so no action comes twice |
| SyncService.HashByNameIs | backend/internal/service/sync.go:90-93 | The manifest's hash of a name is that of its last entry |
| SyncService.ReplayedDiff | backend/internal/service/sync.go:95-126 | Obeying the emitted order on a mirror of the cursor snapshot gives the live names minus the names buried in the window |
| SyncService.ReplayedDiffExactIff | backend/internal/service/sync.go:95-126 | That equals the live names if and only if no live name was buried in the window |
| FileService.NamesExhaustedIff | backend/internal/service/files.go:161-189 | Create is refused over names exactly when the base and all of "stem (1).ext" to "stem (1000).ext" are taken, so never while the owner has at most 1000 names |
| FileService.CreatePicksLeastFree | backend/internal/service/files.go:161-180 | The stored name is the base, or "stem (k).ext" for the least k up to 1000 such that all before it are taken; it keeps the extension, and (owner, name) stays unique |
| FileNames.BaseIs | backend/internal/service/files.go:141 | The base is the last element of the path between slashes, a dot for the empty path and a slash for slashes only |
| FileService.CandidateInjective | backend/internal/service/files.go:195-199 | No candidate is tried twice |
| FileService.InsertFirstFree | backend/internal/service/files.go:161-190 | The retry loop over the repository inserts under the least free candidate, or changes nothing when all are taken or another error comes first |
| FileService.InsertErrorIff | backend/internal/service/files.go:161-190 | The loop comes to nothing exactly when every number before the failing insert is taken, and then changes nothing; otherwise one row is added, under the least free number |
| FileService.CreateRow | backend/internal/service/files.go:137-191 | Filename checks and retry loop together equal the specified effect on the tables |
| FileNames.DedupedKeepsExtension | backend/internal/service/files.go:192-199 | Numbering keeps the last extension and the stem, and adds no slash |
| FileNames.SqlCandidateIsDedupedName | migrations/0003_unique_file_name_per_owner.up.sql:42-52 | On slash-free names the migration proposes the same names as the upload path |
| FileNames.SqlSplits | migrations/0003_unique_file_name_per_owner.up.sql:42-49 | Whatever the name, the migration splits it at its last dot, if it has one |
| Migration.MigrationMakesUnique | migrations/0003_unique_file_name_per_owner.up.sql:32-65 | Whatever the table held, all (owner, name) pairs are distinct afterwards |
| Migration.NameKeptIff | migrations/0003_unique_file_name_per_owner.up.sql:34-40 | A row keeps its name exactly when no older row of its owner had it, and nothing but names changes |
| Migration.RenamedToLeastFree | migrations/0003_unique_file_name_per_owner.up.sql:34-62 | A renamed row gets the least suffix that is free in the whole table at its turn, counted from the number of older rows of its owner with its name on |
| Migration.RowNumberIs | migrations/0003_unique_file_name_per_owner.up.sql:34-40 | The row number is one more than the number of older rows with the same owner and name |
| Migration.FreeSuffixIsLeast | migrations/0003_unique_file_name_per_owner.up.sql:54-60 | The inner loop ends within one step per taken name, at the first free candidate |
| Migration.RenamedKeepsExtension | migrations/0003_unique_file_name_per_owner.up.sql:42-49 | For slash-free names the new name keeps the extension |
| Migration.MigrationIdleIff | migrations/0003_unique_file_name_per_owner.up.sql:32-64 | The loop changes nothing if and only if the pairs were distinct already |
| Migration.FreeCandidate | migrations/0003_unique_file_name_per_owner.up.sql:42-60 | The WHILE loop finds the least free candidate |
| Migration.RenameDuplicates | migrations/0003_unique_file_name_per_owner.up.sql:32-64 | The loops over the table in place compute the specified table, with unique names |
| Uploads.UploadsFaithful | backend/internal/service/uploads.go:150-221 | Under every interleaving without partial writes, each row made from a session holds the declared number of bytes, namely the accepted chunks in index order |
| Uploads.AppendIntact | backend/internal/service/uploads.go:168-188 | A chunk written wholly or not at all keeps a session sound, also after a failed completion rewound its file |
| PartialWrites.FullSessionSoundIff | backend/internal/service/uploads.go:168-211 | Over every run, failed completions that rewind the file included, a full session would store the accepted chunks in order if and only if no copy that stopped part-way left bytes before the session was full, and every byte such copies last put anywhere later is the one the chunks have there |
| PartialWrites.PartialWriteCorrupts | backend/internal/service/uploads.go:180-185 | A concrete partial write and retry that completes with a wrong file |
| PartialWrites.RewoundWriteCorrupts | backend/internal/service/uploads.go:180-205 | A concrete failed completion and partial write after which a wrong file of the right length would be stored |
| Uploads.CompletedAtMostOnce | backend/internal/service/uploads.go:190-211 | Over every run in which completions are atomic, partial writes included, a session makes at most one row |
| Uploads.CompletedAgainIff | backend/internal/service/uploads.go:194-211 | After a completion that made a row and any further steps, a second completion whose Create would succeed makes another row if and only if no step in between closed the session or had a non-empty chunk accepted |
| Uploads.OverlappingCompletesMakeTwo | backend/internal/service/uploads.go:195-210 | Two overlapping completions make two rows of equal content from one session |
| Uploads.EmptyFileTwice | backend/internal/service/uploads.go:150-211 | From the empty server, one announced empty file completed twice gives two rows, "a" and "a (1)" |
| ChunkedClient.UploadFileInChunks | frontend/src/api/client.ts:366-398 | Whichever request or answer is lost, chunk requests cut off at any byte included, a chunked upload has the effect of one single-shot upload of the file or none; a session is left behind exactly when its id was lost or the abort was, and then holds the part of the file that came through |
| ChunkedClient.SendChunks | frontend/src/api/client.ts:379-389 | The loop sends ceil(size / chunk size) consecutive non-empty slices that make up the file, with cumulative counts, and gets through exactly when that many requests do; otherwise the session holds the bytes that reached it |
| ChunkedClient.SlicesAreFile | frontend/src/api/client.ts:381-382 | The first k slices are the file's first k chunk sizes of bytes |
| ChunkedClient.SliceCountIs | frontend/src/api/client.ts:381 | The number of slices is the size over the chunk size, rounded up |
| ChunkedClient.UploadSession.Append | backend/internal/service/uploads.go:168-188 | In place, equals the specified chunk step and outcome |
| ChunkedClient.UploadManager.CompleteUpload | backend/internal/service/uploads.go:194-211 | Creates from the scratch file exactly when all bytes are there, and discards the session in any case |
| ChunkedClient.UploadManager.InitiateUpload | backend/internal/service/uploads.go:150-162 | Starts an empty session exactly for a non-empty filename and a size from 0 to 512 MiB |
| Storage.StorageConsistent | backend/internal/service/files.go:147-233 | Under every interleaving of Create and Delete steps no live row dangles; if storage deletes succeed, storage holds exactly the live rows' keys whenever no call is in flight, failed creates included |
| Storage.StepOk | backend/internal/service/files.go:147-233 | Every step keeps it, whichever inserts and storage deletes fail |
| Storage.OrphanIff | backend/internal/service/files.go:182-233 | A step orphans bytes exactly when storage fails to delete what it was told to |
| Storage.CreateAlone | backend/internal/service/files.go:137-191 | The steps of a Create that nobody disturbs, retries included, come to what Create is specified to do; when all names are taken they leave everything as it was |
| Storage.DeleteAlone | backend/internal/service/files.go:219-233 | The steps of a Delete that nobody disturbs turn the row into a tombstone and drop key and bytes |
| Storage.FileStore.Create | backend/internal/service/files.go:137-191 | Undisturbed, Create stores row and bytes together or leaves tables and storage as they were |
| Storage.FileStore.Delete | backend/internal/service/files.go:219-233 | Undisturbed, row, key and bytes go together; another owner's id changes nothing |
| FilenameRoundTrip.WebRoundTripIff | frontend/src/api/client.ts:178-188 | The web client recovers the name byte for byte if and only if it is non-empty UTF-8 and its quoted fallback holds no marker of its own |
| FilenameRoundTrip.FirstMatch | frontend/src/api/client.ts:184 | The pattern's first match in the header is the fallback's own if it has one, and the real parameter otherwise |
| FilenameRoundTrip.MisledIsWrong | frontend/src/api/client.ts:184-185 | When misled, the web client never happens to return the name |
| FilenameRoundTrip.MarkerInNameMisleads | frontend/src/api/client.ts:184-185 | Every plain name with the marker misleads the web client, unless a semicolon follows it |
| FilenameRoundTrip.FormFeedMisleads | backend/internal/handler/files.go:313 | A name without the marker whose form feed completes one when quoted |
| FilenameRoundTrip.HeaderPrintable | backend/internal/handler/files.go:300-314 | Whatever bytes a name holds, the header is printable ASCII |
| DesktopRoundTrip.DesktopRoundTripIff | desktop/Sources/FileSpaceDesktop/APIClient.swift:316-341 | The desktop client recovers the name if and only if it is UTF-8 and no piece of the quoted fallback passes for a decodable filename* parameter |
| DesktopRoundTrip.ParameterInNameMisleads | desktop/Sources/FileSpaceDesktop/APIClient.swift:318-330 | Every plain name with a semicolon before an extended parameter without escapes misleads the desktop client |
| DesktopRoundTrip.SemicolonMisleads | desktop/Sources/FileSpaceDesktop/APIClient.swift:318-330 | In particular the name `a;filename*=x` |
| DesktopRoundTrip.HeaderPieces | desktop/Sources/FileSpaceDesktop/APIClient.swift:318 | Splitting the header at semicolons yields the type, the pieces of the fallback, and the encoded name |
| Disposition.EncodedDecodes | backend/internal/handler/files.go:312 | The encoded name percent-decodes to the name and has no semicolon |
| HeaderParts.EncodedByte | backend/internal/handler/files.go:312 | Every byte is encoded by itself: unreserved characters as they are, all others as a percent sign and two upper-case hexadecimal digits |
| HeaderParts.QuotedUnquotes | backend/internal/handler/files.go:313 | The quoted fallback reads back as the fallback |
| HeaderParts.FallbackOfText | backend/internal/handler/files.go:325-335 | The fallback of a text has one character for each of its characters: itself within ASCII, an underscore beyond |
| HeaderParts.MisleadingIff | frontend/src/api/client.ts:184 | The marker is found exactly where it is spelled, in any case of letters, with something other than a semicolon after it |
| HeaderParts.DesktopReadsPlain | desktop/Sources/FileSpaceDesktop/APIClient.swift:331-338 | The desktop client reads a plain quoted parameter when there is no extended one |
| HeaderParts.WebReadsPlain | frontend/src/api/client.ts:186-187 | So does the web client |
| HeaderParts.DecodesIff | desktop/Sources/FileSpaceDesktop/APIClient.swift:326 | Percent-decoding fails exactly when some percent sign is not followed by two hexadecimal digits |
| Disposition.ParseDesktop | desktop/Sources/FileSpaceDesktop/APIClient.swift:316-341 | The two loops find the first decodable filename* part, else the first plain one |
| Disposition.BuildFallback | backend/internal/handler/files.go:325-335 | The builder loop replaces every rune beyond ASCII by one underscore |
| Paging.SelectedExact | backend/internal/repo/file_repo.go:94-115 | A row is listed if and only if it is in the table, of the owner and, if an extension is asked for, of that extension; each once, sorted, ties by ascending id even when descending |
| Paging.SelectedByColumn | backend/internal/repo/file_repo.go:79-113 | Two listed rows stand in the order of the column asked for, up or down, ties by ascending id |
| Paging.OrderIsUnique | backend/internal/repo/file_repo.go:90-115 | The order determines the listing, which is what makes offsets meaningful |
| Paging.List | backend/internal/repo/file_repo.go:94-141 | One page from limit + 1 rows: the slice of the listing from the offset, and hasMore exactly when rows follow |
| Paging.PagesCompleteIff | backend/internal/handler/files.go:174-212 | Following hasMore yields the whole listing in order if and only if the page size is at most 1000 or one page holds all |
| Paging.RowShownIff | frontend/src/App.tsx:92-107 | A row is shown if and only if its place on its page is below the page size and 1000 |
| Paging.Scroll | frontend/src/App.tsx:92-107 | The scroll terminates having shown those pages |

## Left out

- HTTP routing, JSON and multipart decoding, CORS, authentication, configuration: plumbing over libraries that are not part of this model.
- React and SwiftUI views, previews, timers, folder watching, spinner delays: user interface; expiry and passes are steps that may happen at any time.
- Real file systems: the folder is a map and a scan is an input. Writing or copying a local file happens in one step, and removing one succeeds.
- Changes to the folder while a pass runs: `StepEffects.UploadReadsNow` says what an upload then sends and records; the theorems about whole passes take the folder as it was scanned.
- The lower-cased extension column that Create fills: listings take a row's extension as given.
- Modification times, edited-by fields, log lines and conflict details other than sizes: nothing decides on them.
- Writes by others between the calls of one pass, and listings over 1000 rows: the code gives no guarantee there.
- Repo.FileRepo.Create: does not itself use up the id and version that a failed insert burns; in runs, gaps are steps of their own (`Cursor.Write.Burnt`, `SyncRuns.Step.Gap`), so that the theorems over runs hold with them.
- Sequence values that become visible out of commit order in Postgres: each repository call is atomic.
- Web reconcile: modelled by the same functions as the desktop pass, with `SyncTheorems.WebAfter` for its all-or-nothing result, and not as a method of its own, since its loops are the same.
- Web resolutions: specified by `Resolve` with its `desktop` flag off; only the desktop ones are methods.
- Re-selecting the same folder in the browser also clears the conflict list (frontend/src/sync/SyncContext.tsx:103-107); only the desktop's keeping of it is modelled.
- Swift's pathExtension rules for unusual names (spaces or trailing dots): the copy name follows the web client's rule.
- Plain filename parameter: the fallback pattern is modelled, but nothing is claimed about headers this server does not build.
- Text in a header beyond Latin-1, and Unicode blanks other than the no-break space: the server's header is printable ASCII (`FilenameRoundTrip.HeaderPrintable`).
- Uploads.CompletedAtMostOnce: holds under the atomicity of completions, which the code does not provide; `Uploads.CompletedAgainIff` says what happens without it.
- Paging: the database's collation is represented by each row's place in the column's order.
