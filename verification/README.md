# A model of burp's backup store

Burp's server keeps, for each client, a row of backups. Each has a manifest, a
directory of data files and perhaps reverse deltas; an older backup may lean on
the next newer one for files it no longer has itself. A backup is made in four
phases: the client scans its files (1), the scan is merged with the old manifest
into requests that the client answers (2), the logs are merged into the new
manifest (3), and the server shuffles the new data into place, turning the
previous backup into reverse deltas (4). Old backups are then removed by age. The
server may stop at any moment and take up again what it finds on disk.

The project models these programs and proves, above all:

- **What a client had comes back.** A backup made by the phases together lists
  exactly the scanned keys for which the client did not fall silent and whose delta
  was not mismatched (below), holds for every listed file what the client had, and
  is fit to be built on by the next backup (`WholeBackup.Backup`). However many
  backups and retention passes follow, while that backup is there restoring it
  gives those contents (`WholeBackup.ClientFilesComeBack`,
  `Store.EverySurvivorRestores`). The store carries its own history: whatever
  `BackupStore` does to it is proved to be a step of a `Store.Run`.
- **Crashes of phase 4 lose nothing, exactly when no deltas clash.** At every step
  of every attempt each old file can be had, half-written files included, and an
  attempt that runs to its end leaves what was intended, except for old files that
  were written over through a leftover link (`Jiggle`, `ShuffleRun`). There are none
  unless a delta comes after a failing one of the other kind of compression, and
  whenever one does a run with kills writes a file over (`ShuffleRun.Careful`,
  `ShuffleRun.OverwritingRun`). Around the shuffle, the previous backup is whole in
  its own place, in `deleteme`, or as the shuffled duplicate beside the new data
  (`Phase4.PreviousBackupIsSafe`), and the backup that phase 4 finishes is a sound
  step of the store exactly if its hardlinked mark is true
  (`BackupStore.BackupStore.FinishBackup`).
- **Phase 2 under any interleaving** of the two programs and the messages between
  them ends with logs that are a function of each scanned record, its old record
  and the client's answer alone (`Phase2.RunPhase2`); cut anywhere and taken up
  again, as often as that happens, it gives the same logs exactly under a stated
  condition (`Resume.ResumePhase2`, `Resume.ResumeAgain`). The counter that new data is filed under never gives out
  a number in use until it wraps, and after an interruption exactly under another
  (`Dpth.NewNumbers`, `Dpth.ResumedCounter`).
- **Retention** never deletes what a survivor needs, deletes exactly by disjoint
  ranges that tile the ages, and stops at a characterised fixed point
  (`Retention`, `RetentionRules`).
- **Order.** Without `split_vss` the list that a client sends is sorted, whatever is on
  its disk and whatever extensions and expressions leave out, if and only if its
  `include` and `exclude` lines meet a stated condition (`Overlaps.OrderlyExactly`, `ScanRules.PlainExactly`). Besides, the
  path order, the hard-link table, and the order in which directories are restored
  (`PathOrder`, `IncExc`, `Scan`, `ScanRises`, `ScanOrder`, `Phase1`, `RestoreTree`).
- **Formats.** Framing on the wire under any splitting of reads and writes, log
  files cut at any byte, and stat records (`Wire`, `ManifestLog`, `StatCodec`).

Files are raw bytes. librsync and gzip are opaque: a `Librsync.Codec` is any four
functions with `patch(basis, delta(basis, target)) == target` and
`gunzip(gzip(x)) == x`. Which record's flag a file is read by, and which setting it
is written by, is as in the code. Where it matters that librsync takes no gzip file
for a delta, `RefusesGzip` says so.

## How the source's form is kept

Programs that change state step by step are classes and methods: the shuffle
(`Jiggle.Shuffle`), phase 4 (`Phase4.Finisher`), the phase 2 server and client,
the restorers, the scanner with its hash chains, the connection's buffers (arrays).
A crash is an `if *` between two steps, and a file being written holds arbitrary
bytes until it is closed. A read loop over a log holds an index where the source
holds a parsed record, and a flag where the source tests a path pointer.
Comparisons and classifications are functions. The store's life is a run of
events, each of which a method is proved to be a step of.

## Where the code does not do what it seems to promise

Each of these is kept as the code has it, with the exact condition proved.

- `sbuf_pathcmp` says "after" both ways for a metadata record and a VSS footer of
  one path, and only then fails to be antisymmetric
  (`Records.SbufPathCmpAntisymmetric`, `Records.MetadataAndFooterClash`).
- The deletions merge takes out only those log entries that no earlier entry lies
  after. It removes all that is logged if and only if every logged key that the
  manifest has is such an entry (`Deletions.DeletionsExact`,
  `Deletions.OutOfOrderLogKeepsAFile`); the logs that restarted shuffles leave
  meet that (`Deletions.RisingLogIsDeleted`).
- A delta is asked for if the old record agrees with the server's `compression`,
  but the shuffle goes by the new record. If the client answers otherwise, as when a
  suffix was added to `exclude_comp`, a server that compresses drops the file from
  the manifest, and one that does not stops there and cannot finish the backup. The
  records that are lost are those and no others (`WholeBackup.WhatIsLost`,
  `WholeBackup.MismatchLosesTheFile`). An uncompressed old file that is empty or
  begins like a gzip file is the exception (`WholeBackup.Setting.Clear`): such a
  delta can apply, and be restored by the wrong flag.
- `deltas.forward/inflate` is a link to the old file of an uncompressed delta. Left
  by a kill, a compressed delta is inflated over it: the file is lost to the
  duplicate, to the previous backup and to every older one that shares the inode.
  It takes a failing delta before one of the other kind
  (`ShuffleRun.NoClashNoOverwriting`, `ShuffleRun.OverwritingRun`,
  `ShuffleRun.ExampleOfOverwriting`), in one backup a mismatched delta before one
  that is not (`WholeBackup.CarefulExactly`).
- After an interruption the counter for data paths is set by comparing numbers one
  by one instead of in order. If one was carried since, it stays behind and gives out
  a number again, and the file that has it is written over; it goes on rightly if and
  only if the last number is in the directory it started in or the highest of all
  that were filled (`Dpth.ResumedCounter`, `Dpth.NumberGivenTwice`).
- Resuming with no whole phase 2 record takes the first scanned record for done
  (`Resume.ResumeFromNothing`); with one, the resumed run is right if and only if
  the unchanged log reaches that far and is not torn right there
  (`Resume.ResumeExact`, `Resume.UnflushedRecordIsLost`, `Resume.UnflushedExample`).
- An uncompressed file that needs a reverse delta cannot be restored while `tmp1`
  is left over from the file before (`RestoreFile.Restorer.RestoreFile`,
  `RestoreFile.LeftoverInTheWay`), and an
  uncompressed shuffle can be stopped by an `inflate` link that a crash left
  (`Jiggle.Shuffle.InflateOrLinkOldFile`).
- A backup can be left marked as hardlinked although it has reverse deltas: the
  duplicate is made and named before its mark is written, and a duplicate of an
  already shuffled backup is marked afresh. An attempt ends with a false mark
  exactly when `Phase4.MarkIsTrue` fails at its start; it takes two crashes
  (`Phase4.TwoCrashesLeaveAFalseMark`, `Phase4.Finisher.Finish`), and a false mark
  is exactly what makes the finished store unsound (`Phase4.GoodStepExactly`).
- A hard-link record can name a file that is not in the list: exactly if the
  file's size or extension kept it out (`ScanOrder.HardLinksPointBack`,
  `ScanOrder.LinkToNothing`).
- With `split_vss` on Unix a soft link's metadata is sent before the link, and that
  alone breaks the order of the list (`ScanOrder.EmittedSortedExactly`,
  `ScanOrder.EarlyMetaOutOfOrder`).
- From an entry that it does not scan the scan goes to the included paths in it, and
  skips those under one it has been to only while each rule lies within the one before
  (`IncExc.JumpsExactly`). If an included directory in an excluded one has two excluded
  ones beside each other, a file that is kept in the second of these is listed twice
  (`ScanExamples.KeptIsListedTwice`). A start point is no entry, so that the same rules
  in a start point do no harm (`ScanExamples.KeptInStartIsOrderly`).
- A start point that ends in two slashes does not count as containing what lies in
  it, so that a file can be listed twice (`ScanExamples.DoubledSlash`); what another
  doubled slash sets apart from it is not (`ScanExamples.MoreSlashesAreOrderly`).
- Both come under one condition. The list of every client is sorted if and only if no
  start point, and no path gone to from an entry that a scan can come to, overtakes a
  later one: has an entry that is included, or an included path in an entry, at or
  after it (`Overlaps.OrderlyExactly`). If no path has doubled slashes, a slash at its
  end or `.` between slashes, that is: every included path that lies in an earlier one
  which is no start point is the end of a chain of rules, each within the one before,
  that starts at an included one from there on (`ScanRules.PlainExactly`).
- A first backup that is killed between its two renames cannot be finished: the first
  of them cannot be made again (`Phase4.FinishFirst`).
- A restore that is killed while `tmp1` is a link to an uncompressed file of the archive
  leaves it, and that file is written over if and only if the first delta that the next
  restore applies is of a compressed one (`RestoreFile.RestoreAll`,
  `RestoreFile.KilledRestoreSpoils`). A patch that fails leaves the link too, but ends
  the restore, which then removes it.
- An empty message is never sent, and one longer than 32024 bytes never fits
  (`Wire.Deliver`, `Wire.Link.AppendAll`). A log message longer than 65535 bytes is
  refused after its header is written (`ManifestLog.LogFile.SendMsg`).

## Model

| member | source | states |
|---|---|---|
| PathOrder.Pathcmp | src/conf.c:419-437 | the character loop, null pointers included, decides by the first difference with '/' least and bytes as signed chars |
| PathOrder.PathCmpAntisymmetric | src/conf.c:419-437 | swapping the paths negates the answer, and only equal paths compare equal |
| PathOrder.PathCmpTransitive | src/conf.c:419-437 | the path order is transitive |
| PathOrder.IsSubdir | src/conf.c:396-417 | non-zero exactly if the directory is a prefix ending at a component boundary; then the count of slashes matched and one or two more |
| PathOrder.DescendantsContiguous | src/conf.c:396-437 | between a directory and something in it, in path order, there is nothing that is not in it |
| PathOrder.WithinIsAfter | src/conf.c:396-437 | nothing in a directory sorts before it |
| Records.SbufPathCmpIsKeyOrder | src/sbuf.c:300-326 | for records of one platform the comparison is the order of the keys (path, slot), hence a total preorder |
| Records.SbufPathCmpAntisymmetric | src/sbuf.c:300-326 | antisymmetric exactly where a metadata record does not meet a VSS footer of the same path |
| Records.MetadataAndFooterClash | src/sbuf.c:300-326 | two records each of which compares as after the other |
| Records.SortedUnique | src/sbuf.c:300-326 | a strictly sorted list is determined by the records in it |
| Jiggle.Shuffle.constructor | src/backup_phase4_server.c:594-640 | a fresh shuffle meets the invariant: every old file can be had |
| Jiggle.Shuffle.Resume | src/backup_phase4_server.c:594-640 | another process takes up whatever directories meet the invariant |
| Jiggle.Shuffle.InflateOrLinkOldFile | src/backup_phase4_server.c:169-229 | the old file inflated or linked by the new record's flag; when exactly it fails; a link in the way of an inflated one has its old file written over, and nothing else is |
| Jiggle.Shuffle.WriteInflate | src/backup_phase4_server.c:183-205 | writing `inflate` writes the old file that it is a link to, or a file of its own; the invariant says which files that spoils |
| Jiggle.Shuffle.DoPatch | src/restore_server.c:19-79 | the new path holds arbitrary bytes until the patch is done; the delta is read by the new record's flag, the result written by the server's setting; the invariant holds at a crash |
| Jiggle.Shuffle.ApplyDelta | src/backup_phase4_server.c:279-338 | up to the removal of `inflate`: the intended bytes in the new path or the record logged, which of them exactly, and whether a link is left |
| Jiggle.Shuffle.GenRevDelta | src/backup_phase4_server.c:24-167 | a finished reverse delta is from what the new file reads as to what the old one does; the invariant holds at a crash |
| Jiggle.Shuffle.Promote | src/backup_phase4_server.c:366-394 | renaming the patched file into place, then removing what it replaces, keeps the old file recoverable at every point |
| Jiggle.Shuffle.PatchFile | src/backup_phase4_server.c:279-394 | the delta branch: intended content in place or the record logged for deletion, never a partial file; when exactly it fails, when exactly an old file is written over, when a link is left |
| Jiggle.Shuffle.JiggleFile | src/backup_phase4_server.c:231-443 | one manifest entry, at any crash: old content recoverable unless it was written over, which happens exactly if a compressed delta meets a link; nothing but intended content ever in place of a spared file; when exactly it fails; what an uninterrupted run leaves behind |
| Jiggle.Shuffle.UseNewFile | src/backup_phase4_server.c:395-407 | a file received whole is moved into place |
| Jiggle.Shuffle.UseOldFile | src/backup_phase4_server.c:408-434 | an unchanged file is linked and then, without hardlinked mode, its old link dropped |
| Jiggle.Shuffle.RemoveForwardDelta | src/backup_phase4_server.c:249-266 | a file already in place only loses its forward delta |
| ShuffleRun.JiggleRecord | src/backup_phase4_server.c:638-656 | one round of the loop carries the progress of the manifest on, keeps old files from being written over if no deltas clash, and fails only on a file that cannot be had or an old link in the way |
| ShuffleRun.AtomicDataJiggle | src/backup_phase4_server.c:594-679 | all files, then the deletions; interrupted anywhere it can be started again; finished, all that is listed is in place, and of the spared files exactly the records that are not lost are listed |
| ShuffleRun.JiggleUpTo | src/backup_phase4_server.c:638-656 | the loop over any first part of the manifest: what is placed or logged comes from it, and what is all in place already is not touched |
| ShuffleRun.ShuffleAndRecover | src/backup_phase4_server.c:594-679 | after any number of crashes the attempt that ends leaves exactly the intended backup, as far as old files were not written over, and none is if no deltas clash |
| ShuffleRun.DeletingTrims | src/backup_phase4_server.c:321-335 | the deletions log of restarted shuffles takes exactly its own records out, and after a full run leaves only what is in place |
| ShuffleRun.NoClashNoOverwriting | src/backup_phase4_server.c:169-205 | while no delta comes after a failing one of the other kind of compression, no compressed delta ever meets a link |
| ShuffleRun.OverwritingRun | src/backup_phase4_server.c:169-335 | and whenever one does, of any manifest whose files can be had, a run with kills writes an old file over |
| ShuffleRun.ExampleOfOverwriting | src/backup_phase4_server.c:169-335 | two files, a kill at the link, and the second one's old data replaced by the first one's |
| Deletions.MaybeDeleteFilesFromManifest | src/backup_phase4_server.c:479-590 | the two-way merge takes out exactly the log entries that no earlier entry lies after, for a log in any order |
| Deletions.DeletionsExact | src/backup_phase4_server.c:516-561 | that is manifest minus deletions if and only if every logged key of the manifest is such an entry |
| Deletions.RisingLogIsDeleted | src/backup_phase4_server.c:516-561 | a log whose new keys rise, repeats allowed, is deleted in full |
| Deletions.OutOfOrderLogKeepsAFile | src/backup_phase4_server.c:516-561 | a manifest and a log of all its keys that leaves a record in |
| Phase4.Finisher.constructor | src/backup_phase4_server.c:681-730 | the directories as phase 4 first finds them meet the invariant |
| Phase4.Finisher.Duplicate | src/backup_phase4_server.c:747-768 | the current backup is duplicated under a temporary name and renamed, or a crash leaves the duplicate absent or whole |
| Phase4.Finisher.ChooseMode | src/backup_phase4_server.c:770-831 | a new duplicate is marked by the configuration, one found keeps its mark; a crash leaves it as it was or marked |
| Phase4.Finisher.Prepare | src/backup_phase4_server.c:732-831 | the duplicate is found or made from the previous backup and carries its final mark before anything is shuffled |
| Phase4.Finisher.ShuffleDuplicate | src/backup_phase4_server.c:833-842 | the shuffle changes the duplicate, the new data and, through the shared inodes, the old files it writes over; the mark is as true afterwards as before |
| Phase4.Finisher.SetAside | src/backup_phase4_server.c:858-864 | the rename to `deleteme` fails only if `current` dangles or `deleteme` is in the way |
| Phase4.Finisher.SwapIn | src/backup_phase4_server.c:876-887 | the duplicate takes the old place, `deleteme` goes, `finishing` becomes `current`, with the invariant at every crash |
| Phase4.Finisher.Conclude | src/backup_phase4_server.c:844-887 | the renames move directories and change nothing in them; what stops them |
| Phase4.Finisher.BackupPhase4Server | src/backup_phase4_server.c:732-891 | one attempt: safety at every crash, the mark fixed from the first file moved until the duplicate is in place, what a finished attempt leaves, whether its mark is true, and what can hinder it |
| Phase4.Finisher.Finish | src/server.c:628-650 | any mix of crashed and failed attempts, beside whatever is left in `deleteme`: a finished one is complete; its mark is true exactly if the last attempt had a true one to go by, as with at most one crash; nothing is written over if no deltas clash; without a crash or leftover it finishes if and only if every file can be had |
| Phase4.PutInPlace | src/backup_phase4_server.c:866-887 | one attempt at a first backup: it fails exactly if the received data has left its place |
| Phase4.FinishFirst | src/server.c:628-650 | a first backup finishes unless a kill came between its two renames |
| Phase4.PreviousBackupIsSafe | src/backup_phase4_server.c:732-887 | at every moment the previous backup is untouched in its place until all new data is in, then restorable there or in `deleteme` and the duplicate; what was written over, and only that, restores to what was written, and without a clash there is nothing such |
| Phase4.GoodStepExactly | src/backup_phase4_server.c:804-831 | what phase 4 leaves with nothing written over is a step of the store, and a sound one if and only if the hardlinked mark is true |
| Phase4.TwoCrashesLeaveAFalseMark | src/backup_phase4_server.c:761-815 | directories that two crashes lead to, from which the next attempt ends with a false mark |
| Store.RestoreExact | src/restore_server.c:295-427 | in a sound store every backup restores what it held, as the stored bytes or as what they inflate to |
| Store.NextKeepsStore | src/backup_phase4_server.c:732-887 | finishing a backup, in either mode, keeps the store sound if what is turned back is read by the flag it was stored by |
| Store.PassKeepsVersions | src/current_backups_server.c:495-603 | deleting a dependency-closed set of backups keeps the rest sound |
| Store.HappensKeepsStore | src/current_backups_server.c:365-394 | every event keeps the store sound, what a backup lists and holds stays with its index, and a new backup's index is new |
| Store.RunKeepsStore | src/server.c:539-555 | every state of every run of backups and retention passes is sound |
| Store.StepsGoOn | src/server.c:539-555 | what happens to a store in two stretches happens in one |
| Store.HeldStays | src/current_backups_server.c:365-394 | an index names one backup for good |
| Store.EverySurvivorRestores | src/restore_server.c:295-427 | over any run, a backup still there restores every data path to what it held when made |
| BackupStore.FinaliseKeep | src/conf.c:1266-1293 | accepted exactly if no value is zero or negative and every partial product is in bounds; the last of several is raised by one |
| BackupStore.WrappedProduct | src/conf.c:1277-1285 | the product in 64 unsigned bits: right for positive values, out of bounds for negative ones |
| BackupStore.BackupStore.FinishBackup | src/server.c:539-567 | phase 4 with crashes anywhere in it and attempts that fail: the newest two backups are what it left on disk, which is a sound step of the store if and only if the last attempt had a true mark to go by, as with at most one crash; it holds what was intended unless a file was written over, which needs a crash and a clash; unfinished, what hindered it |
| BackupStore.DiskIsIntended | src/backup_phase4_server.c:732-887 | the finished directories list exactly the records not lost, hold for each the intended data, and nothing else |
| BackupStore.BackupStore.RemoveOld | src/current_backups_server.c:605-619 | retention leaves a sound store at a fixed point, its survivors untouched, by passes that are steps of the store's run |
| RestoreFile.Restorer.RestoreFile | src/restore_server.c:295-427 | the up-then-down loops find what the recursive definition says, as stored or patched; when exactly they do not; what is left in the temporary files; and the archive is written over exactly if the first delta of a compressed file meets a link |
| RestoreFile.FoundRestore | src/restore_server.c:310-345 | the first backup that has the data decides what is restored |
| RestoreFile.RestoreFromGoodStore | src/restore_server.c:295-427 | a sound store gives every file back exactly if nothing is in the way of a first delta, unless that is a link to the very file |
| RestoreFile.RestoreAll | src/restore_server.c:800-881 | file after file until one fails, then the temporary files go unless it is killed; the archive changes if and only if a link was left and the first delta is of a compressed file |
| RestoreFile.KilledRestoreSpoils | src/restore_server.c:78-140 | an uncompressed file linked by a killed restore, and the next restore writing over it |
| RestoreFile.LeftoverInTheWay | src/restore_server.c:295-427 | two files with two deltas each: the first is restored, the second is not |
| Retention.GetCurrentBackups | src/current_backups_server.c:252-363 | the list with its deletable flags and trindexes |
| Retention.MarkDeletable | src/current_backups_server.c:337-348 | exactly the oldest of several and those after a hardlinked one are deletable |
| Retention.Transpose | src/current_backups_server.c:350-356 | the newest backup gets trindex 1, each other one more than its distance from it |
| Retention.RangesTile | src/current_backups_server.c:519-545 | the ranges of all keep values are disjoint and tile what lies above the first keep value up to the product of all |
| Retention.CountRange | src/current_backups_server.c:532-541 | counts the backups in a range |
| Retention.ThinRange | src/current_backups_server.c:528-569 | deletes exactly the deletable backups of a range from the newest on, short of the last one, and none twice |
| Retention.ThinLevel | src/current_backups_server.c:524-571 | all ranges of one keep value, none dealt with twice |
| Retention.ThinAll | src/current_backups_server.c:512-573 | all keep values: exactly the doomed backups of the tiling ranges |
| Retention.RemoveOldest | src/current_backups_server.c:575-596 | only the oldest backup can go beyond all ranges, at most one a pass |
| Retention.DoRemoveOldBackups | src/current_backups_server.c:495-603 | the pass deletes exactly the backups the range rule names, and says whether it deleted any |
| RetentionRules.PassIsClosed | src/current_backups_server.c:337-348 | no pass deletes a backup that an older survivor leans on, nor the newest |
| RetentionRules.FirstKeepIsSafe | src/current_backups_server.c:519-569 | as many newest backups as the first keep value are never deleted |
| RetentionRules.RangeIsNotEmptied | src/current_backups_server.c:528-569 | no range with a backup is left without one |
| RetentionRules.NothingDeletedIsFixedPoint | src/current_backups_server.c:605-619 | a pass deletes nothing if and only if each range has at most one backup or none deletable and no trindex exceeds the product |
| RetentionRules.RemoveOldBackups | src/current_backups_server.c:605-619 | ends at a fixed point with a sound store, by passes each of which is a step of the store; with all older backups hardlinked the survivors are exactly the spared ones |
| RetentionRules.AgesAreStable | src/current_backups_server.c:350-356 | trindexes do not change from pass to pass while two backups are left |
| RetentionRules.PassSpares | src/current_backups_server.c:519-569 | with all older backups hardlinked no pass takes the oldest of a range |
| RetentionRules.FixedPointSpared | src/current_backups_server.c:519-569 | at such a fixed point each backup is within the first keep value or the oldest of its range |
| RetentionRules.FixedPointIsSmall | src/current_backups_server.c:519-569 | then at most keep[0] and one less than each other keep value are left |
| Phase3.BackupPhase3Server | src/backup_phase3_server.c:15-144 | the sorted union of the logs, phase 2 winning ties; recovery stops at the last phase 2 record; when it fails |
| Phase3.MergeKeys | src/backup_phase3_server.c:48-108 | the manifest has the keys of both logs, each once |
| Phase3.MergeUnique | src/backup_phase3_server.c:48-108 | there is only one such manifest |
| Protocol.Phase2Client.Handle | src/backup_phase2_client.c:199-437 | one round of the client's loop takes the state and writes the answer that the step function gives |
| Protocol.Phase2Client.LoadSignature | src/backup_phase2_client.c:15-36 | a signature is taken in, answered with a delta or forgotten |
| Protocol.OneRequest | src/backup_phase2_client.c:199-437 | a request through an idle client into a blank receiver leaves both as they were and logs exactly the expected file, or nothing if the client has none |
| Protocol.NothingSent | src/backup_phase2_server.c:462-607 | a warning and an interrupt log nothing |
| Protocol.NewRequest | src/backup_phase2_server.c:341-408 | with anything still on its way both ways, one more request adds exactly its own expected file |
| Protocol.BrokenStays | src/backup_phase2_server.c:444-616 | a receiver that met something unexpected does not recover |
| Phase2.Phase2Server.constructor | src/backup_phase2_server.c:618-688 | the start of phase 2 meets the invariant |
| Phase2.Phase2Server.MaybeProcessFile | src/backup_phase2_server.c:222-338 | one comparison of the merge: the record is classified by its own old record, or one old record is counted as deleted |
| Phase2.Phase2Server.NextItem | src/backup_phase2_server.c:690-753 | the merge finds for each scanned record what a lookup in the old manifest would |
| Phase2.Phase2Server.DoStuffToSend | src/backup_phase2_server.c:341-408 | however little room there is, what is queued and what is unsent stay the same message list |
| Phase2.Phase2Server.Receive | src/backup_phase2_server.c:444-616 | one message moves the receiver as its step function says; logs and directories are those of what has arrived |
| Phase2.Phase2Server.FinishFile | src/backup_phase2_server.c:484-545 | a finished file goes into its directory and its record into the log, whole or as a delta |
| Phase2.Phase2Server.DoStuffToReceive | src/backup_phase2_server.c:444-616 | an honest client never says anything unexpected, and the last word ends the phase |
| Phase2.Phase2Server.NextRecord | src/backup_phase2_server.c:690-753 | a scanned record goes into the unchanged log or becomes a request, nothing lost on the way |
| Phase2.Phase2Server.ClientTurn | src/backup_phase2_client.c:199-437 | the client's turns keep the invariant |
| Phase2.RunPhase2 | src/backup_phase2_server.c:668-755 | under any interleaving, when the last word is in, the logs and received files are those each scanned record asks for by itself, and the deleted count is that of unmatched old keys up to the last scanned one |
| Phase2.AllIn | src/backup_phase2_server.c:668-755 | nothing is on its way once the end has come |
| Pipeline.LogKeys | src/backup_phase2_server.c:690-753 | both logs are strictly sorted, disjoint, and together have the scanned keys less those the client was silent on |
| Pipeline.BackupPhases23 | src/backup_phase3_server.c:48-108 | from scan list to manifest: sorted, with exactly the kept keys, and the received files |
| Pipeline.LogsAppend | src/backup_phase2_server.c:222-338 | each log of a list is that of its parts in turn |
| Resume.ForwardSbuf | src/backup_phase1_server.c:119-209 | stops after the first record not before the target, or before it if told to seek back, or at the end |
| Resume.DoResume | src/backup_phase1_server.c:211-286 | all three files are taken up at the last whole phase 2 record |
| Resume.ResumeExact | src/backup_phase1_server.c:119-286 | with a whole phase 2 record on disk the resumed logs are those of an uninterrupted run if and only if the unchanged log reaches that record and is not torn there |
| Resume.WhatACrashLeaves | src/backup_phase2_server.c:668-755 | the logs of a running phase 2, cut anywhere, are the beginning of what a full run writes |
| Resume.ResumePhase2 | src/backup_phase1_server.c:211-286 | from any logs of an interrupted run, positioned and run on the rest of the scan list under any interleaving, nothing whole in the phase 2 log is lost; done, the logs are those of an uninterrupted run if and only if the unchanged log reached the last phase 2 record untorn; cut again after that, they are logs of an interrupted run |
| Resume.ResumeAgain | src/server.c:628-760 | interrupted again and again: while the unchanged log reaches far enough each time, the run that gets done leaves the logs of an uninterrupted one |
| Resume.UnflushedRecordIsLost | src/backup_phase1_server.c:119-286 | two records, the second one's log written out and the first one's not: the first is lost |
| Resume.UnflushedExample | src/backup_phase1_server.c:119-286 | an unchanged `/a` and a new `/b` are two such records |
| Resume.ResumeFromNothing | src/backup_phase1_server.c:119-286 | without one they are if and only if the first scanned record adds nothing and no log starts torn |
| Resume.SplitLogs | src/backup_phase2_server.c:690-753 | a full run's logs are split at the scanned record that a phase 2 record answers |
| IncExc.SkipsChain | src/find.c:612-619 | the inner loop, which raises its own start, skips the rules each within the one before, and no more |
| IncExc.JumpsExactly | src/find.c:600-622 | from an entry that is not scanned the scan goes to an included path in it if and only if no such chain leads to that from another |
| IncExc.RuleFor | src/find.c:280-309 | the loop finds what the rules say of a file |
| IncExc.IncludedExactly | src/find.c:280-309 | a file is included if and only if the first of the rules that `is_subdir` counts highest is an `include` |
| IncExc.InnerRuleIsDeeper | src/find.c:280-309 | a rule for a directory within another's counts for more, so the innermost decides |
| IncExc.OwnRule | src/find.c:280-309 | an `include` line's own path is included |
| IncExc.SubtreesApart | src/conf.c:419-437 | all under one path comes before all under a later one that is not under it |
| ScanRules.PlainExactly | src/find.c:596-622 | for plainly written rules it is in order if and only if every included path in an earlier one that is no start point ends a chain from an included one of those from there on |
| Scan.ChildrenOrdered | src/find.c:497-554 | a directory's names come in strict path order |
| ScanRises.VisitedRise | src/find.c:562-808 | if the rules are orderly a scan of a path it can come to looks only under it, and in strictly increasing path order |
| ScanRises.ThroughIsBehind | src/find.c:562-627 | all that the scan of a path comes to lies before a later path that it does not overtake |
| Scan.Scanner.LookUp | src/find.c:933-957 | the hash chains find the path where the file with this device and inode was met first |
| Scan.Scanner.SendFirst | src/find.c:959-975 | a first meeting is entered in the table and sent |
| Scan.Scanner.FindFiles | src/find.c:852-987 | the records sent are those of the files looked at, in order |
| Scan.Scanner.FoundDirectory | src/find.c:629-808 | a directory's record, then its contents unless it is closed to the scan |
| Scan.Scanner.ProcessFilesInDirectory | src/find.c:562-627 | every included entry in turn, and the included paths in every other |
| Scan.Scanner.FindIncludedIn | src/find.c:596-622 | the loop over the rules scans exactly the paths that are gone to, in order |
| Scan.Scanner.SkipInner | src/find.c:615-619 | where the inner loop leaves the index |
| ScanOrder.VisitedExactly | src/find.c:562-808 | a file is looked at if and only if no directory on the way is closed and every step is into an included entry, or from an excluded one to a path that is gone to |
| ScanOrder.EmittedSortedExactly | src/backup_phase1_client.c:32-243 | the records are strictly sorted if and only if no soft link's metadata was sent early |
| ScanOrder.EarlyMetaOutOfOrder | src/backup_phase1_client.c:32-243 | one soft link with metadata makes a list that is not sorted |
| ScanOrder.HardLinksPointBack | src/find.c:912-975 | a hard-link record names an earlier path with the same device and inode; that file is in the list if and only if neither size nor extension kept it out |
| ScanOrder.LinkToNothing | src/find.c:912-975 | two names of one file, of which only the second is included: the list is one link to the first |
| StartPoints.FindStartPoints | src/conf.c:1237-1264 | refused exactly for a bad or repeated include path; else the start points of the rules |
| StartPoints.StartsCover | src/conf.c:1237-1264 | they are in order, none within another, each an included path, and every included path lies within one |
| StartPoints.OkIsNoneRepeated | src/conf.c:1244-1252 | what is accepted includes no path that an earlier line has |
| Phase1.AllVisitedRise | src/backup_phase1_client.c:263-276 | all scans together look at paths in strictly increasing order if the rules are orderly |
| Phase1.BackupPhase1Client | src/backup_phase1_client.c:245-284 | the list is everything the scans from the rules' start points come to, strictly sorted if the rules are orderly |
| Disk.EntriesAreShown | src/find.c:859-868 | on a disk that is one tree `lstat` of an entry's path shows that entry |
| Overlaps.StartOvertakes | src/backup_phase1_client.c:263-276 | a start point that overtakes a later one: a client whose list is not sorted |
| Overlaps.JumpOvertakes | src/find.c:562-627 | a path gone to that overtakes a later one gone to from the same entry, anywhere a walk leads: a client whose list is not sorted |
| Overlaps.OrderlyExactly | src/find.c:562-627 | for every accepted configuration without `split_vss`: the lists of all its clients are sorted, whatever is on their disks and left out by extension or expression, if and only if the rules are orderly |
| ScanExamples.KeptIsListedTwice | src/find.c:596-622 | six rules by which a kept file is listed twice |
| ScanExamples.KeptInStartIsOrderly | src/find.c:596-622 | four rules of the same shape in a start point: always sorted |
| ScanExamples.DoubledSlash | src/conf.c:396-417 | a start point ending in two slashes and one that lies in it: a file is listed from both |
| ScanExamples.MoreSlashesAreOrderly | src/conf.c:396-417 | two start points set apart by a doubled slash within the second: always sorted |
| RestoreTree.Restorer.RestoreEnt | src/restore_server.c:511-561 | the stack stays a nested chain; what is popped or restored at once keeps every pair in the right order |
| RestoreTree.Restorer.Flush | src/restore_server.c:770-781 | the directories left are restored, innermost first |
| RestoreTree.RestoreManifest | src/restore_server.c:591-798 | any selection of a sorted manifest is restored, each entry once, in an order where two entries keep their order unless the first is a directory that holds the second |
| RestoreTree.EachOnce | src/restore_server.c:591-798 | such an order restores every entry exactly once |
| RestoreTree.DirectoriesLast | src/restore_server.c:511-561 | every directory, and its metadata, comes after all that lies in it |
| Framing.HeaderIsFive | src/msg.c:9-19 | the header has five characters exactly if the length has at most four hexadecimal digits |
| Framing.ScanPrinted | src/asyncio.c:42-60 | a printed length is read back, whatever follows it |
| Wire.ParsesFrame | src/asyncio.c:42-83 | a frame is parsed exactly when all of it has come |
| Wire.Buffer.Append | src/asyncio.c:213-219 | bytes are added at the end of the buffer |
| Wire.Buffer.Remove | src/asyncio.c:189-193 | the rest is moved to the front |
| Wire.Buffer.ParseReadbuf | src/asyncio.c:42-83 | a frame is taken off the front, or nothing changes, or an error empties the buffer |
| Wire.Link.AppendAll | src/asyncio.c:221-235 | all of a message or nothing, exactly by the room left |
| Wire.Link.DoWrite | src/asyncio.c:177-211 | any number of bytes move on; the stream as a whole is unchanged |
| Wire.Link.DoRead | src/asyncio.c:99-136 | any number of bytes for which there is room come in; the stream as a whole is unchanged |
| Wire.Link.Receive | src/asyncio.c:338-453 | what is parsed is the next message sent, never an error; with no frame to parse there is room to read |
| Wire.Deliver | src/asyncio.c:338-471 | under every splitting and schedule all messages that are not empty are delivered once, in order and unaltered |
| ManifestLog.LogFile.SendMsg | src/msg.c:9-19 | a line, or an error with the header written if the length does not fit |
| ManifestLog.LogFile.SbufToLog | src/sbuf.c:157-185 | all lines of a record, or an error exactly if one is too long |
| ManifestLog.ReadLog | src/sbuf.c:100-144 | reading to the end gives the records that filling one after the other gives |
| ManifestLog.ReadsRecord | src/asyncio.c:522-584 | a printed record is read back when all of it is there; before that the file has ended, without error |
| ManifestLog.CutLogReads | src/asyncio.c:522-678 | cut at any byte, a log reads without error as the records that are there whole |
| ManifestLog.LogRoundTrips | src/sbuf.c:100-185 | a log of well-formed records reads as the list that was written |
| ManifestLog.ParsesUniquely | src/sbuf.c:100-144 | and only as that |
| StatCodec.ToBase64 | src/base64.c:35-63 | the digits of the number in the buffer, a NUL after them, and nothing else touched |
| StatCodec.FromBase64 | src/base64.c:72-94 | the value of the characters up to the next space, in 64 bits |
| StatCodec.NumberRoundTrips | src/base64.c:35-94 | every 64-bit value but the least is read back |
| StatCodec.EncodeStat | src/attribs.c:19-75 | the sixteen fields, a space between each two |
| StatCodec.DecodeStat | src/attribs.c:96-177 | what the numbers of a text stand for, short and over-long ones included |
| StatCodec.StatRoundTrips | src/attribs.c:19-177 | a stat record that was written is read back as it was |
| WholeBackup.ArrivedGoal | src/backup_phase2_server.c:484-592 | a file that came in whole, or as a delta that all agree on, ends up with what the client has; a mismatched delta is lost |
| WholeBackup.LoggedGoal | src/backup_phase2_server.c:196-211 | an unchanged record keeps its old data, untouched by anything that came in |
| WholeBackup.ListedGoal | src/backup_phase4_server.c:231-443 | every record of the new manifest gets its data, and a file what the client has, unless its delta is mismatched |
| WholeBackup.DisagreedDelta | src/backup_phase4_server.c:169-229 | a delta whose new record disagrees with the old one and the server does not apply, or its old file does not inflate |
| WholeBackup.WhatIsLost | src/backup_phase2_server.c:298-304 | the records lost are exactly those of mismatched deltas, and they can be had if and only if the server compresses |
| WholeBackup.CarefulExactly | src/backup_phase4_server.c:169-205 | no deltas of a backup clash if and only if no mismatched one comes before one that is not |
| WholeBackup.AllTurnBack | src/backup_phase4_server.c:131-167 | whatever has been turned into a reverse delta is read by the flag it was stored by |
| WholeBackup.IntendedHoldsFiles | src/backup_phase3_server.c:48-108 | the intended backup holds the client's files, lists the kept keys less the mismatched ones, and owns its data, so that it can be the next old one |
| WholeBackup.MismatchLosesTheFile | src/backup_phase2_client.c:278-282 | an old file stored compressed, a server that compresses and a client that has stopped: the file is asked for, answered and lost |
| WholeBackup.BackupToPhase3 | src/server.c:362-538 | phases 2 and 3 give phase 4 what it needs, and foretell what it can finish and whether anything can be written over |
| WholeBackup.Backup | src/server.c:362-567 | a whole backup under any interleaving, with crashes anywhere in phase 4 and attempts that fail: what it lists and holds; nothing is written over without a crash or if mismatched deltas come last; it is a sound step of the store exactly if the last attempt had a true mark to go by; uninterrupted it succeeds unless a mismatched delta meets a server that does not compress |
| WholeBackup.ClientFilesComeBack | src/restore_server.c:295-427 | whatever happens later, while the backup is there it restores what the client had |
| DataPaths.NamesAreOwn | src/backup_phase2_server.c:32-77 | new data paths, from the counter or after the file itself, are never another file's |
| DataPaths.StaysTreeNamed | src/backup_phase2_server.c:42-50 | in every manifest data under a tree name is the data of the file so named |
| DataPaths.NumbersAreFresh | src/dpth.c:11-18 | the counter as it is set at the start of a backup names new data as that needs, until it wraps |
| Dpth.Counter.IncrDpth | src/dpth.c:107-137 | the next number in order, and when it starts again from zero or gives up |
| Dpth.Counter.InitDpth | src/dpth.c:53-102 | the number after the highest one in use, found directory by directory |
| Dpth.GetHighestEntry | src/dpth.c:32-51 | the greatest of what a directory lists |
| Dpth.Counter.SetDpthFromString | src/dpth.c:139-162 | raised to the number in a path only if none of the three is above it; what is skipped and what is refused |
| Dpth.PathScans | src/dpth.c:11-18 | the path of a number of four digits is scanned back as that number |
| Dpth.NextIsAfter | src/dpth.c:107-137 | the next number is above unless the counter wraps |
| Dpth.NewNumbers | src/dpth.c:53-137 | no number in use is given out, and none twice, until the counter wraps |
| Dpth.Forward | src/backup_phase1_server.c:142-151 | reading a log shows the counter every number in it |
| Dpth.ResumedCounter | src/backup_phase1_server.c:211-268 | after an interruption the counter goes on after the last number of the log if and only if no number was carried since or that is the highest of all that were; otherwise it gives out one of them again; reading a record again makes no difference |
| Dpth.NumberGivenTwice | src/dpth.c:139-162 | three new files of which the third is the first of a directory: its number is given out once more |

## Left out

- Sockets, SSL, select, time-outs and rate limits: the link is a stream of bytes with arbitrary splits; NUL terminators past a buffer's end are not modelled.
- I/O errors other than those named: a rename, link, delete or write that the disk refuses; `rename` is atomic, and the unchecked rename of `currentdup` (src/backup_phase4_server.c:879) succeeds.
- `do_link`'s fallback copy and its limit of links (src/current_backups_server.c:668-682): a link is one step, and a duplicate shares its inodes.
- Older hardlinked backups that share an inode with a file that the shuffle or a restore writes over; `BackupStore.BackupStore.FinishBackup` says nothing more of a store once a file was written over.
- `RestoreFile.Restorer.RestoreFile`, `RestoreFile.RestoreFromGoodStore`: say nothing of what is sent when a file is inflated through a link to itself.
- Sweeping `data.tmp`, `deltas.forward` and empty directories after the shuffle (src/backup_phase4_server.c:844-856): nothing is read from them again.
- A torn entry of the deletions file: one entry is appended in one step.
- The timestamp file's text and clock; a backup's number is the last one plus one. The store's first backup number is 1.
- `Phase2.RunPhase2`: runs for a given number of steps, because nothing forces the network or the client to act; that phase 2 ends is not claimed.
- `Resume.ResumeExact`, `Resume.ResumePhase2`: equality of logs is up to the names of new data files, a function of the request; `Dpth.ResumedCounter` says what becomes of the numbers. The client's files are the same in both runs. Phase 2 data directories after a crash are not part of it, nor are the bytes of a torn record that is written over by a shorter one.
- `WholeBackup.Backup`: a file whose times are those of its old record is taken to be unchanged (`Undisturbed`); nothing is promised of the content of a backup with a mismatched delta of an old file that looks compressed and is not (`Setting.Decided`); the phases before phase 4 are not interrupted in it, `Resume` is about that. After a phase 4 that could not be finished the store counts its finished backups as before, and `DiskOk` says where the previous one is.
- `Phase4.Finisher.Finish`: claims safety and what a finished attempt leaves, not that every interrupted one can finish; the rename at src/backup_phase4_server.c:860 can stay stuck, on a dangling `current` or a full `deleteme`, which nothing else removes.
- The server's side of phase 1 (src/backup_phase1_server.c:14-82), which stores the list as it comes; an interrupted phase 1 starts again.
- `Overlaps.OrderlyExactly`: the clients whose lists are not sorted have a tree without symbolic links on the way to a path; `Phase1.BackupPhase1Client` takes whatever `lstat` answers.
- The C library's `qsort`: sorted children are taken as its result; a backup list is taken in the order of its numbers.
- Windows builds: VSS, EFS, reparse points, drive letters in the scan; BSD no-dump flags.
- Extension lists, regular expressions and file-system types as such: predicates on paths.
- `sscanf`'s leading blanks, signs and `0x` in a length, and table look-ups of bytes above 127 in base 64: no writer produces them.
- `StatCodec.NumberRoundTrips`: leaves out the least 64-bit value, whose negation C does not define.
- The server's choice between resuming and restarting by configuration, `vss_opts_changed` and `incexc_matches` (src/server.c:311-360, 582-613): whether an old manifest is used is an input.
- Overflow of the backup number and of `trindex`: integers are unbounded there.
- Counters, status, logging, notification, verification mode, listing and deletion commands, locks, `bedup`.
