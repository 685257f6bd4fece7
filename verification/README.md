# Floral sync server: a verified model

A model of the server's latest-state note store, of its restores and long polls, of the
administrator's views of it, and of the configuration it runs on.

- `Protocol.dfy`, `Tables.dfy`: the wire records; the `notes` and `note_snapshots` tables;
  `Valid`, what every reachable database satisfies; `Extends` and `HistoryExtends`, how one
  state continues another.
- `SyncSpec.dfy`: what `push`, `changes_since`, `restore_from` and `open` make of the tables.
- `SyncStore.dfy`: the store as a class whose methods change the tables and the revision
  channel in place, each proved against those functions.
- `Merge.dfy`, `Recovery.dfy`: the laws of pushes, and of restores and the backfill.
- `Runs.dfy`: the server as a state machine together with clients that pull, requests that
  wait for anything after any number, backups, restores of any valid database, and
  restarts. A commit and the send that announces it are two steps, so a waiter can read the
  channel between them. The state counts the restores that were of a backup without notes
  (`emptied`), did not lift every row (`unlifted`), were of a backup this server had not
  taken (`foreign`), or loaded a backup without a rebase (`unbased`). `Guarantees.dfy`: what holds of every run, or of every run
  in which such a count stayed put, and exactly what fails otherwise. `Refinement.dfy`: each
  method of the store is an event of that machine, or an event and the send after it.
- `AdminStore.dfy`: the paged list and the history of a note. `Archive.dfy`: entry names of a
  downloaded archive.
- `Config.dfy`, `Paths.dfy`, `ConfigFile.dfy`: migration, patches, loads and writes of the
  configuration. `Text.dfy`, `Ordering.dfy`: trimming, string order, `ORDER BY`.

Times are integers. A clock is a function from the revision a row gets to the reading
taken when that row is written, so that capture times can be arbitrary and still be
compared across two ways of pushing the same changes. The current time of a restore, the
outcome of SQL `LIKE`, the socket-address parser, the `admin` feature and generated tokens
are parameters.

## Findings

- Restores double revisions. The bound `(base + p) * 2^k` on the revision after p accepted
  changes and k restores of own backups is proved and reached for every p > 0 and k; one
  accepted change and 63 restores of the latest backup leave the range of the `i64` the
  revision is cast to.
- `docs/protocol.md:80-83` promises that a restore maps everything to higher revisions. The
  code does so exactly when `LiftsEveryRow` holds. It fails for an empty backup over live
  notes, where tombstones restart at revision 1 (`EmptyRestoreIsInvisible`), and for a
  foreign backup ahead of the live revision with rows at or below it. A client that was up
  to date gets the server's notes from its next pull if and only if those rows agree with
  the live ones (`PullAfterRestoreIff`, `ForeignRestoreExample`).
- `docs/protocol.md:35-36` says tombstones keep an old client from bringing a note back. A
  tombstone written by a restore ties with an old version that is not older than the
  restore, and then the old version wins (`OldVersionRevivesIff`); any live change not
  older than the tombstone does (`LiveChangeRevivesIff`).
- A request that waits for a revision ahead of what the server holds or is about to
  announce, which the server never handed out, can be told "changed" with a revision it had
  asked to be beyond, and no other can (`ChangedMayBeOlderIff`). After an empty backup is
  restored any blocked request is, for the revision falls to the number of notes
  (`EmptyRestoreMisleads`). And a request whose wait expires just before a send is told
  "unchanged" together with the newer revision (`UnchangedMayBeNewer`).
- A repeated request is ignored, and the order of a batch does not matter, exactly when no
  id has two different newest changes in the batch that nothing stored beats. A retry that
  arrives after other pushes is ignored exactly when none of it ties with a different note
  that is stored by then (`RetryIsNoOpIff`).
- A listen list patched to one of the two single-stack defaults is undone by the next load
  (`LegacyListReverts`), and so is a path whose stored form is white space. With a relative
  configuration path, a directory set to the configuration file's own directory is read
  back one level further down: `--config conf/sync-server.toml` with `export_dir = "."`
  loads as `conf`, is written as `conf`, and loads as `conf/conf` (`RelativeDirReverts`,
  `RelativeDirExample`). Nothing else is undone (`WriteThenLoad`, an equivalence).
- The administrator's list shows a category without the spaces around it, but the filter is
  trimmed of all white space. Filtering by the category as shown misses the note exactly when
  other white space surrounds it (`ShownCategoryFindsIff`).
- The six blank checks that close `normalize_stored_config` can never fail.

## Model

| member | source | states |
|---|---|---|
| Store.SyncStore.Open | src/store/sync_store.rs:31-46 | opening backfills the history, starts the channel at the stored revision, and gives a consistent store if and only if the database was valid up to missing snapshots |
| Store.SyncStore.Push | src/store/sync_store.rs:132-164 | the loop stores the last-writer-wins outcome, ends at the start plus the number of accepted changes, sends exactly when something was accepted, and keeps the store consistent |
| Store.SyncStore.ChangesSince | src/store/sync_store.rs:93-130 | every row above the cursor once, in strictly ascending revision order, with the current revision |
| Refinement.Open | src/store/sync_store.rs:31-46 | a store just opened is the start of a run |
| Refinement.Reopen | src/store/sync_store.rs:31-46 | opening again what a store holds is a restart, whatever was pending |
| Refinement.Push | src/store/sync_store.rs:132-164 | a push is its event, followed by the send exactly when the revision rose, and the response carries a revision handed out |
| Refinement.Restore | src/store/sync_store.rs:72-91 | a restore is its event followed by the send |
| Refinement.Backup | src/store/sync_store.rs:62-70 | a backup is its event |
| Refinement.Pull | src/store/sync_store.rs:93-130 | a client that applies the changes since its cursor, in order, makes the pull of the state machine |
| Runs.StepBackups | src/store/sync_store.rs:62-70 | while every restore lifts every row, each backup taken stays valid, knows no other ids than the server, and lags no more on ids than on revisions |
| Store.SyncStore.RestoreFrom | src/store/sync_store.rs:72-91 | the tables become the restored ones, the channel gets their revision, a valid backup leaves a consistent store, and the published revision rises exactly when the backup has a note |
| Recovery.LoadedFacts | src/store/sync_store.rs:72-86 | a valid backup as loaded keeps its notes, is valid, and, if it has any, ends above the live revision: at its own, or that plus the live one if it was not ahead |
| Recovery.ShiftedAbove | src/store/sync_store.rs:282-296 | a rebased history lies wholly above the offset |
| Store.SyncStore.EmitRestoreTombstones | src/store/sync_store.rs:298-335 | one tombstone per previous id now missing, in id order, at consecutive revisions |
| Merge.StoredValid | src/store/sync_store.rs:208-246 | storing a change at a new revision keeps table and history consistent |
| Merge.StoredExtends | src/store/sync_store.rs:208-246 | that revision becomes the current one, and no row at or below the old one changes |
| Merge.LastWriterWins | src/store/sync_store.rs:137-156 | for every batch and table the loop leaves, for each id, the last candidate of the greatest change time, and exactly the ids that have one |
| Merge.NoteWithstands | src/store/sync_store.rs:142-150 | a stored note, dated by its deletion or else its update, withstands every request whose changes for it are dated earlier |
| Merge.NewerReplaces | src/store/sync_store.rs:137-156 | a change dated later, or of a new note, replaces it at the next revision and into the history, with the device id of the request if its own is white space |
| Merge.TieReplacesIff | src/store/sync_store.rs:142-150 | a change dated the same does so unless it is the stored note itself |
| Merge.PushAllocates | src/store/sync_store.rs:136-158 | accepted changes get, in order, exactly the revisions from the start plus one to the end, in the table and in the snapshots |
| Merge.PushKeeps | src/store/sync_store.rs:132-164 | a push keeps every invariant and extends the database |
| Merge.PushConcat | src/store/sync_store.rs:137-156 | pushing two batches together is pushing one after the other, down to revisions and snapshots |
| Merge.PushInTwo | src/store/sync_store.rs:132-164 | the same for two requests of one device |
| Merge.OrderKeepsTimes | src/store/sync_store.rs:137-156 | any order of a batch ends with the same ids at the same change times |
| Merge.OrderIrrelevantIff | src/store/sync_store.rs:137-156 | every order of a batch gives the same values if and only if no id has two different unbeaten newest changes |
| Merge.ReplayIsNoOpIff | src/store/sync_store.rs:142-162 | pushing a batch again at once changes nothing if and only if that same condition holds, and otherwise raises the revision |
| Merge.PushIsNoOpIff | src/store/sync_store.rs:142-162 | a batch changes nothing if and only if none of its changes would be accepted by the stored table |
| Merge.RetryIsNoOpIff | src/store/sync_store.rs:142-162 | pushing a batch again after any other pushes changes nothing if and only if none of it ties with a different note stored by then |
| Merge.UnambiguousHasNoTopConflict | src/store/sync_store.rs:142-150 | a batch with one value per id and time meets the condition |
| Merge.PushRaisesTimes | src/store/sync_store.rs:142-150 | a push never lowers a change time, and replaces a note only by a change of the batch |
| Recovery.RestoredValues | src/store/sync_store.rs:72-91 | after a restore every id has the backup's value, or else its tombstone, and no id is lost |
| Recovery.RestoredRows | src/store/sync_store.rs:72-91 | row by row, a restore leaves the backup's notes and its whole history in place, raised by the live revision exactly when the backup was not ahead, then one tombstone per missing id in id order, in both tables, at the next revisions, and nothing else |
| Recovery.TombstoneIs | src/store/sync_store.rs:319-326 | a tombstone is the note, deleted at the later of the restore and its own deletion, or else update, time, and updated no earlier |
| Recovery.RestoreRaisesRevisionIff | src/store/sync_store.rs:83-88 | for any valid backup the revision rises if and only if the backup has a note |
| Recovery.RestoreLiftsEveryRowIff | src/store/sync_store.rs:83-88 | for any valid backup every restored row lies above the old revision if and only if the backup is rebased or wholly beyond it, and is not empty over live notes |
| Recovery.RestoreExtends | src/store/sync_store.rs:72-91 | a restore that lifts every row, of whatever valid backup, loses no id and changes no row at or below the old revision |
| Recovery.RestoreGrowth | src/store/sync_store.rs:72-91 | such a restore adds no more ids than revisions |
| Recovery.RestoreHistoryIff | src/store/sync_store.rs:72-91 | the history at or below the old revision is left alone if and only if what the restore puts there is already in it: nothing from a rebased backup, the own snapshots of one that was ahead, the tombstones of an empty one |
| Recovery.RestoreFeed | src/store/sync_store.rs:72-91 | the feed after a restore at R is the backup's feed raised by R, then one tombstone per missing id, the ids ascending; nothing stays at or below R |
| Recovery.RestoreAtMostDoubles | src/store/sync_store.rs:282-335 | a restore of a backup that lags no more on ids than on revisions at most doubles the revision |
| Recovery.FeedAscends | src/store/sync_store.rs:93-130 | the feed holds exactly the rows above the cursor, in strictly ascending revision order |
| Recovery.FeedIs | src/store/sync_store.rs:93-130 | it is the only such listing |
| Recovery.BackfillCovers | src/store/sync_store.rs:367-397 | backfill keeps earlier rows, adds exactly one per uncovered note, covers every note, and adds nothing the second time |
| Recovery.LiveSnapshotIs | src/store/sync_store.rs:377-386 | the row added is the note at its revision, captured at its deletion or else update time |
| Recovery.OpensValidIff | src/store/sync_store.rs:367-397 | backfill leaves a valid database if and only if the database was valid but for missing snapshots, and its snapshots at live revisions were those notes |
| Recovery.LegacyOpensValid | src/store/sync_store.rs:168-206 | a legacy table without history opens into a valid database |
| Recovery.BackfillOfValid | src/store/sync_store.rs:36-41 | reopening a valid database changes nothing |
| Runs.PullCatchesUp | src/store/sync_store.rs:93-130 | a client that knows every row up to its cursor has, after a pull, exactly the server's notes |
| Runs.PullCopiesIff | src/store/sync_store.rs:93-130 | whatever the client, a pull copies the server if and only if it knew every row up to its cursor and no other id |
| Runs.StepInv | src/store/sync_store.rs:25-165 | every event, restores of any valid database among them, keeps tables, channel and blocked requests consistent; while no empty backup is restored, what answers and revisions handed out satisfy; and, while every restore lifts every row, what backups, clients and growth do |
| Runs.StepHistory | src/store/sync_store.rs:72-164 | no event but a restore that does not lift every row, or loads a backup without a rebase, adds a snapshot at or below the revision it started from |
| Runs.RunInv | src/store/sync_store.rs:25-165 | the invariant holds all along every run, and a state extends those before it, table and history, unless a restore in between did not lift every row, or for the history was not rebased |
| Runs.StepPublishes | src/store/sync_store.rs:158-162 | while no empty backup is restored the published revision never falls, and every send raises it |
| Guarantees.OwnRestoresLift | src/store/sync_store.rs:72-91 | in a run that restores only backups the server took, and none without notes, every restore lifts every row and is rebased |
| Guarantees.PullIsFullCopy | src/store/sync_store.rs:72-164 | in every run whose restores lift every row, with any number of clients, an incremental pull gives the same as a full copy |
| Guarantees.PullAfterRestoreIff | src/store/sync_store.rs:72-91 | for any valid backup, an up-to-date client's pull after the restore copies the server if and only if the rows the restore leaves at or below the old revision are as they were live |
| Guarantees.ForeignRestoreExample | src/store/sync_store.rs:83-88 | a valid foreign backup for which that fails |
| Guarantees.RevisionsNeverReused | src/store/sync_store.rs:72-164 | between any two states with only lifting restores in between no id is lost and every row at or below the earlier revision is unchanged; if those restores were rebased, every snapshot down there is an earlier one too |
| Guarantees.HistoryAgrees | src/store/sync_store.rs:208-246 | in every run, whatever was restored, live and snapshot revisions are positive and distinct, none is above the current revision, and every live row has its snapshot |
| Guarantees.NoLostWakeup | src/sync_api.rs:87-106 | in every run, when a blocked request, whatever number it asks about, cannot proceed, nothing beyond that number is published or, with nothing pending, stored; while no empty backup is restored, it can proceed if and only if more was published than when it looked |
| Guarantees.LookAnswersIff | src/sync_api.rs:87-94 | a request is answered at once if and only if more than it asks about is published, and then changed, with what is published; otherwise it waits |
| Guarantees.ChangedIff | src/sync_api.rs:87-106 | in every run an answer that says unchanged carries what the request saw, not beyond what it asked about, unless a send came between expiry and answer; while no empty backup is restored, all other answers say changed if and only if they carry more than the request saw, or it saw more than it asked about |
| Guarantees.UnchangedMayBeNewer | src/sync_api.rs:102-105 | from every blocked request with nothing sent or pending, some run expires it and then answers unchanged with a newer revision |
| Guarantees.NeverStuck | src/sync_api.rs:96-106 | a request can always look, then exactly one of wake and expire, and then be answered |
| Guarantees.Joining | src/sync_api.rs:76-87 | a request for any number, and a client that starts from nothing, can come in any state |
| Guarantees.HandsOut | src/sync_api.rs:84-106 | every revision an event tells a client is among those handed out, for good |
| Guarantees.ChangedMeansNewer | src/sync_api.rs:84-106 | while no empty backup is restored, an answer that says changed carries a revision beyond the one asked about, if that was not ahead of the channel when the request looked; a number handed out never is |
| Guarantees.ChangedMayBeOlderIff | src/sync_api.rs:84-106 | while no empty backup is restored, some continuation answers a blocked request changed with a revision not beyond the one asked about if and only if that asks for at least what is published since it looked, or else pending, or else the next revision |
| Guarantees.HandedOutIsPublished | src/store/sync_store.rs:132-163 | while no empty backup is restored, every revision given to a client has already been published |
| Guarantees.EmptyRestoreMisleads | src/store/sync_store.rs:72-91 | after an empty backup is restored a blocked request is answered changed with a revision no greater than its own, and the channel may be behind what was handed out |
| Guarantees.TombstonesStay | src/store/sync_store.rs:142-150 | a tombstone survives every run that brings no live change for its id at its time or later and restores no backup containing it |
| Guarantees.RestoreBuries | src/store/sync_store.rs:314-331 | a restore buries every live note its backup lacks |
| Guarantees.OldVersionRevivesIff | src/store/sync_store.rs:142-150 | the old version of a buried note is accepted again if and only if it is not older than the restore and not that tombstone |
| Guarantees.LiveChangeRevivesIff | src/store/sync_store.rs:142-150 | any live change of a buried note is accepted, and is then its value, if and only if it is not older than the tombstone, the later of the restore and the note's own time |
| Guarantees.ChangeTimeFallsOnlyByRestore | src/store/sync_store.rs:72-164 | a change time falls only by a restore whose backup contains the note |
| Guarantees.RevisionGrowth | src/store/sync_store.rs:152 | after p accepted changes and k restores of the server's own backups with notes the revision is at most (base + p) * 2^k |
| Guarantees.StepCountsRight | src/store/sync_store.rs:72-164 | accepted changes are counted by how far the revision rises, and restores by kind, by what they do to tables and revisions |
| Guarantees.GrowthIsReached | src/store/sync_store.rs:282-296 | for every p > 0 and k some run from an empty store reaches exactly p * 2^k |
| Guarantees.CastOverflows | src/store/sync_store.rs:241 | one accepted change and 63 restores exceed the range of the cast |
| Guarantees.EmptyRestoreIsInvisible | src/store/sync_store.rs:282-296 | after restoring an empty backup an up-to-date client's next pull brings nothing, and it agrees with the server only if every note already was its own tombstone |
| Admin.ListingIsComplete | src/store/admin_store.rs:171-203 | the listing has exactly the matching rows, each once, strictly in order, as many as the total |
| Admin.ListsIff | src/store/admin_store.rs:160-191 | a note is listed if and only if it passes the state, the trimmed category and the trimmed search, each ignored when absent or white space |
| Admin.ListsByState | src/store/admin_store.rs:174-180 | without search and category the states list all notes, those without and those with a deletion time |
| Admin.ListingFalls | src/store/admin_store.rs:201 | rows come by falling revision, then falling update time, then rising id |
| Admin.FirstPagesAreNewest | src/store/admin_store.rs:201-202 | whatever the first pages leave out has a lower revision than all they list |
| Admin.ShownCategoryFindsIff | src/store/admin_store.rs:162-191 | filtering by the category as shown finds the note if and only if that is all white space or has none at its ends |
| Admin.PagesPartition | src/store/admin_store.rs:156-170 | the pages up to total / size rounded up make up the listing, and any later page is empty however far its number saturates |
| Admin.PagesPrefix | src/store/admin_store.rs:156-170 | the first n pages are the first n * size rows |
| Admin.AdminStore.NoteList | src/store/admin_store.rs:156-245 | page number at least 1, size from 1 to 200, the number of matching notes, and the fields of that page of the listing, at strictly falling revisions |
| Admin.HistoryStartsLive | src/store/admin_store.rs:286-296 | in a valid database a note's history begins with the note at its live revision and goes through all its snapshots at falling revisions |
| Admin.HistoryInEveryRun | src/store/admin_store.rs:286-323 | so it does in every state of every run |
| Admin.HistoryShows | src/store/admin_store.rs:286-323 | the history shows every snapshot of the note, and no other, under its number, whole but for the spaces around its category, newest first |
| Admin.AdminStore.NoteDetail | src/store/admin_store.rs:247-284 | the detail is the note with its revision, whole but for the spaces around its category, if there is one |
| Admin.AdminStore.NoteHistory | src/store/admin_store.rs:286-323 | the rows shown are that history |
| Archive.UsedNames.Unique | src/admin_api.rs:791-814 | the search ends and gives the name itself, or its first free suffix, at most the number of used names plus one |
| Archive.ArchiveNames | src/admin_api.rs:765-776 | entry names are pairwise distinct, each the choice given those before |
| Archive.ArchiveNamesUnique | src/admin_api.rs:765-776 | the downloads alone determine the entry names |
| Archive.TakenFit | src/admin_api.rs:801-813 | the taken suffixes fit among the used names, so the suffix is bounded |
| Archive.CandidatesDiffer | src/admin_api.rs:796-806 | different suffixes give different names, none the original |
| Archive.CandidateWithExtension | src/admin_api.rs:796-806 | the suffix goes between stem and extension |
| Archive.CandidateWithout | src/admin_api.rs:796-806 | a name without a dot after its first character gets it at the end |
| Archive.DecimalIs | src/admin_api.rs:804-805 | the suffix is written in decimal without leading zeros |
| Config.NormalizeOptionalListenAddresses | src/config.rs:367-388 | the loop computes the cleaned list, or the first entry that is no address |
| Config.CleanedFacts | src/config.rs:367-388 | the cleaned list is trimmed, without repeats, and has the same addresses |
| Config.CleanedOrder | src/config.rs:367-388 | it is in order of first occurrence |
| Config.CleanedFailsIff | src/config.rs:376-381 | cleaning fails if and only if some non-blank entry is no address |
| Config.CleanedError | src/config.rs:376-381 | the error names the first entry that is no address |
| Config.StoredConfigFile.Normalize | src/config.rs:214-350 | the migration in place gives the normal form, its flag is true if and only if something changed, and the closing blank checks cannot fail |
| Config.MigratesListen | src/config.rs:217-252 | the list comes from the field, else the old list, else the old address, else the default, and the unused ones do not matter |
| Config.MigratesEntries | src/config.rs:237-257 | it is then cleaned, a list of one single-stack default widened to both, and the old fields dropped |
| Config.MigrationFailsIff | src/config.rs:352-396 | the migration fails if and only if a list has an entry that is no address, or lacks one it needs, and names the first such field |
| Config.MigratesTexts | src/config.rs:259-278 | blank paths and levels get their defaults, levels are trimmed, other paths left alone |
| Config.MigratesSecrets | src/config.rs:280-327 | the token is the new field, else the old one, else made up; a blank hash is dropped; a secret is made up only with the feature |
| Config.NormalIsFixed | src/config.rs:214-350 | normal forms are exactly what loading leaves alone |
| Config.NormalizedIdempotent | src/config.rs:214-350 | a second migration changes nothing, whatever tokens it would generate |
| Paths.ResolvedIff | src/config.rs:470-479 | which paths resolving can give, from an absolute or relative configuration path |
| Paths.ResolveTakes | src/config.rs:470-479 | an absolute path stays, and any other is taken from the directory of the configuration file |
| Paths.StorageIs | src/config.rs:557-566 | what is stored is the part below that directory, or else the whole path |
| Paths.ResolveUndoesStorageIff | src/config.rs:557-566 | resolving undoes storing for each of these paths if and only if it is not the relative directory of the configuration file |
| Paths.ResolveUndoesStorage | src/config.rs:557-566 | it does for every absolute path |
| Paths.RelativeDirDoubles | src/config.rs:557-566 | that directory comes back with its name doubled |
| Paths.ParseRender | src/config.rs:557-566 | reading back the text of a path gives the path |
| Text.BlankIsAllWhitespace | src/config.rs:259-270 | trimming leaves nothing if and only if every character is white space |
| Text.TrimIs | src/config.rs:373-382 | trimming takes white space off both ends, all of it, and nothing else |
| Text.WhitespaceIs | src/config.rs:373-374 | white space are the 25 characters Unicode calls so |
| Text.SqlTrimIs | src/store/admin_store.rs:191 | the trimming of SQL does so with spaces only |
| Text.StrLessIff | src/store/sync_store.rs:313 | strings are ordered by the first character that differs, a prefix before the longer |
| ConfigFile.ApplyConfigPatch | src/config.rs:398-446 | a patch is applied whole, each patched field in normal form, or rejected for the first thing wrong with it |
| ConfigFile.PatchGives | src/config.rs:398-446 | an accepted patch gives each field it names the given value in normal form and changes no other |
| ConfigFile.PatchErrorIff | src/config.rs:398-446 | a patch is rejected if and only if a field is faulty, for the first that is |
| ConfigFile.OverridesReplace | src/config.rs:110-151 | against the load without them, overrides replace exactly the list, token or path given, in normal form, never touch the file, and fail a load if and only if the list has no or a bad address or the token is blank |
| ConfigFile.OverridesError | src/config.rs:115-132 | a bad list is reported before a blank token |
| ConfigFile.LoadsNormal | src/config.rs:139-150 | a file in normal form is loaded field by field as it stands and not written |
| ConfigFile.LoadsMigrated | src/config.rs:168-180 | any other is loaded as its migration, which is written back |
| ConfigFile.LoadsMissing | src/config.rs:168-180 | a missing file is created as an all-blank one would be migrated |
| ConfigFile.LoadSettles | src/config.rs:110-151 | every load gives a settled configuration and a file in normal form |
| ConfigFile.PatchSettles | src/config.rs:398-446 | every accepted patch of a settled configuration gives a settled one |
| ConfigFile.LoadTwice | src/config.rs:168-180 | loading again what a load left gives the same configuration and writes nothing |
| ConfigFile.WriteThenLoad | src/config.rs:539-566 | writing and loading gives the same configuration without a rewrite if and only if the list is not a legacy one, no path is stored as white space, and none is the relative directory of the file |
| ConfigFile.UpdateThenLoad | src/config.rs:153-159 | loading, patching and writing gives what the next load gives, under the same condition, whose first part only a patch of the list can break |
| ConfigFile.LegacyListReverts | src/config.rs:485-490 | a legacy list is widened, and the file rewritten, by the next load |
| ConfigFile.RelativeDirReverts | src/config.rs:557-566 | an export directory that is the relative directory of the file is moved into itself by the next load, and nothing is rewritten |
| ConfigFile.RelativeDirExample | src/config.rs:470-479 | with `conf/sync-server.toml` and "." the directory is `conf`, and then `conf/conf` |

## Left out

- HTTP routing, authorization, sessions, password hashing and the administrator's other endpoints.
- SQLite itself: tables are values, a transaction is atomic, backup and restore are copies; I/O errors and a failure in the middle of a restore are not modelled.
- The order SQLite gives rows of equal revision, and the scan order of the backfill, are unspecified; the model takes the id order. Databases in runs have no equal revisions.
- Machine integers: revisions are unbounded naturals. RevisionGrowth and GrowthIsReached say when the casts to `i64` are exact; page arithmetic does model saturation.
- Runs.StepInv: a restored database is assumed `Valid`, and an opened one valid up to missing snapshots; one with equal or missing revisions, or a history that disagrees with its table, does not come from this program.
- Guarantees.RevisionGrowth: does not bound runs that restore a backup of another server, whose revision can be anything, or an empty one.
- Requests that wait are modelled in the state machine only; the store's methods hold its lock from commit to send, so nothing of them shows what is read in between.
- Guarantees.NoLostWakeup: does not model the length of the timeout, only that a wait can expire while nothing new is published.
- Admin.AdminStore.NoteList: does not model SQL `LIKE`; any predicate on pattern and text is allowed.
- Admin.PagesPartition: takes the number of rows to fit an `i64`, as SQLite's count does.
- Paths.ResolveUndoesStorage: does not model Windows prefixes or paths that are not Unicode.
- ConfigFile.WriteThenLoad: does not model TOML text or the file system; the file is the record it holds. It takes the configuration path to name a file, so that it has a directory, as a path that can be read does.
- A cursor beyond the range of `i64`, which the database layer rejects, and backups without a history table.
- Store.SyncStore.ChangesSince: takes the `id` column to be the key, as the table declares it.
- Copying of hot settings at run time, overview counters, the log tail, Markdown rendering and the browser interface, which would only add easy members.
