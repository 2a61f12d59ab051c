# Barman, modelled and proved

A Dafny model of the parts of Barman that decide what may be thrown away, what may be called
complete and what is sent where, with proofs about them.

* **Backups and WAL** (`Xlog`, `Catalog`, `WalCleanup`, `WalArchive`, `BackupMachine`,
  `BackupSafety`, `WalSelection`,
  `WalChecks`, `CrowdedDirectory`, `BackupManager`, `BackupForest`, `BackupWalks`, `TreeRemoval`). The
  server is a state machine over the backup catalog, the keep annotations, the WAL catalogue (xlogdb) and the WAL
  directories. Its steps are: start a backup, begin and end the copy, archive a WAL, purge before the
  first backup, check a backup, keep, release, delete. The class `BackupManager.BackupManager` holds the
  same state in fields, and each of its methods is proved to make the step it stands for. The main
  theorems are about all runs: exactly when every DONE backup keeps every segment it needs and the WAL
  after a live backup is kept, that the links between incremental backups agree, and exactly when a whole
  tree of them can be deleted.
* **Parallel multipart upload** (`MultipartUpload`, `MultipartSafety`, `MultipartRuns`,
  `MultipartProgress`, `MultipartCompletion`, `CloudInterface`, `TarUploader`, `StreamingIO`). One producer, any number of workers, a bounded job
  queue with its counter of unfinished tasks, and the answer queues, as a state machine in which every
  interleaving, failure and interrupt is a run. A completed object is the byte stream that was written.
  The class `CloudInterface` drains the answers loop by loop and is proved to make the protocol's step;
  the classes `CloudTarUploader` and `DecompressingStreamingIO` are the two ends of the stream.
* **The rsync copy planner** (`BucketPacking`, `CopyPlan`, `RateLimit`). Buckets, the safe and check
  lists, the two phases, and the rate at which jobs start.
* **Two small languages and the record format** (`Glob`, `ShellQuote`, `InfoFile`). Each is a printer or
  compiler proved against an independent reader: wildcards against regular expressions, quoting against
  the tokens of the POSIX.1-2017 shell, records against the loader.

`dafny verify dfyconfig.toml` checks the project.

## What the proofs show about the code

* **The 256-entry shortcut of `delete_wals` takes more than was selected.** The code removes a whole WAL
  directory when 256 or more files of it are to go, but a directory can hold more entries than that
  (backup labels and partial files are archived there too, and segments smaller than 16 MB have larger
  numbers). `WalArchive.DeletesExactlyIff` proves when exactly the selected files go: if and only if no
  such directory holds an entry beyond its list. `CrowdedDirectory.DeleteBreaksDone` is a server, reached
  by a run and consistent, on which deleting an old backup takes away the only segment of a DONE backup,
  which no rule had selected.
* **What that costs is known exactly.** Deleting a backup or purging keeps DONE true if and only if every
  needed segment of the other backups lies in a directory with fewer than 256 lines to delete
  (`BackupSafety.RemovalKeepsDoneIffShortLists`); the same holds for a WAL that point-in-time recovery
  needs (`BackupSafety.RemovalKeepsWindowIffShortList`). Both can be computed before the call. Once the
  shortcut has taken more than it should, the catalogue names files that are gone, and a later deletion
  may stop at a missing directory and leave its own backup DONE without its segments. The theorems for
  any server and any run, `BackupSafety.StepKeepsDoneIff`, `BackupSafety.DoneStaysRecoverable` and
  `BackupSafety.RecoveryWindowKept`, are if-and-only-ifs that cover this too, and
  `BackupSafety.SmallDirectoriesSuffice` shows that with at most 256 entries per directory none of it happens.
* **FAILED is final, and no backup that can still become DONE is marked so.** `WalChecks.FailedMeansHopeless`
  proves both directions, for WALs that arrive in order.
* **A killed incremental backup cannot be deleted cleanly.** It enters its parent's list only when it
  ends, so the deletion, having removed its data, looks for it in a list where it is not and raises.
  `BackupForest.DeletionFindsItself` says exactly when the parent lists the backup,
  `BackupForest.KilledBackupIsNotListed` is a run that ends where it does not, and
  `BackupManager.BackupManager.DeleteBackup` has the whole condition for a deletion to get to its end:
  that, and no missing WAL directory.
* **Deleting a tree stops where one of its deletions does.** `TreeRemoval.TreeDeletionIff` says exactly when
  a tree goes without an error and without an orphan: no deletion meets a missing directory when its turn
  comes, no killed backup has its parent in the tree, and the root had finished or has no parent.
  `TreeRemoval.SmallTreeDeletionIff` shows that the first part holds by itself where the catalogue agrees
  with the disk and no directory has more than 256 entries, and `CrowdedDirectory.TreeDeletionStops` is a
  run after which it alone fails. Loading the records of the tree while it is being deleted does no harm
  (`TreeRemoval.TreeIsWalk`).
* **WAL names in mixed case are ordered wrongly.** The name pattern accepts small and capital hexadecimal
  digits, and the cleanup compares names as strings. `Xlog.StringOrderIsWalOrder` holds for names as
  PostgreSQL prints them; `Xlog.OrderAtFirstDifference` is exact for all accepted names and
  `Xlog.MixedCaseBreaksOrder` gives the pairs that go wrong.
* **`read(-1)` of the decompressing stream loses data.** The local buffer is cut twice from its end: of a
  non-empty buffer the last byte is lost for good, and the one before it stays behind
  (`StreamingIO.DecompressingStreamingIO.Read`; `StreamingIO.NegativeReadAfterARead` makes such a call).
* **`get_timelines_to_protect` compares backups by identity.** The deleted backup may be a fresh object
  that is not the one in the cache (deleting a tree does this), and then it is not excluded. The flag
  `sameObject` covers both cases; the safety theorems hold for both.
* **Either wait for an upload can be endless when a worker alone is interrupted.** The producer waits for
  the parts, and then for the answer to the completion job. A worker interrupted with a job drops it
  without an error, and the loop that waits repeats a step that changes nothing. For the first wait
  `MultipartProgress.OneRetrievalSuffices` is the exact condition (no part was dropped) and
  `MultipartProgress.InterruptedUploadNeverCompletes` the run that fails it; for the second
  `MultipartCompletion.SecondWaitEndsIff` (the completion was not dropped) and
  `MultipartCompletion.DroppedCompletionIsNeverAnswered`. `MultipartProgress.UninterruptedWaitEnds` and
  `MultipartCompletion.UninterruptedUploadFinishes` are the promise that holds: with no interrupts and no
  error one draining of the answers ends each wait, and the object is what was written.
* **A rule that is empty, or a lone slash applied to a directory, raises an error** in the rule matcher;
  `Glob.MatchPath` says when.
* **A lone bar is passed on as a pipe** by `shell_quote`; every other argument arrives as it is.
* **Values that a record cannot hold** are those with a newline, outer white space or the text `None`;
  an empty list of children is loaded as no list.

## Hypotheses about the surroundings

They are stated in `BackupMachine.Enabled`: ids increase; backups of one server run one at a time; an
incremental backup builds on one that got past EMPTY; on one timeline the begin WAL of a later backup is
not before that of an earlier one; a copy ends on the timeline it began on. A deletion is one step, which
the server's lock makes it. Whoever asks for a deletion may refuse it first (a backup marked to be kept,
minimum redundancy), so the machine allows every deletion. In `CopyPlan` two assumptions are made on file
contents: a listed file older than the safe horizon with the same size and time has the same content
(`OldIsSettled`), and so has a plain file, which is always compared by size and time (`PlainIsSettled`).

## Model

| member | source | states |
|---|---|---|
| Xlog.StringOrderIsWalOrder | barman/backup.py:1495-1504 | comparing WAL names as strings is comparing timeline, log and segment numbers in that order, for segments, partials, labels and history files alike, printed in capitals as `encode_segment_name` prints them |
| Xlog.HexRoundTrips | barman/xlog.py:186-195 | reading a printed number gives the number |
| Xlog.OrderAtFirstDifference | barman/xlog.py:39-56 | for any two names the pattern accepts, which string is smaller and exactly when its number is |
| Xlog.MixedCaseBreaksOrder | barman/xlog.py:39-56 | whatever two names have in common, ending in a small `a` is the smaller number and the larger string than ending in a capital `B` |
| Xlog.NameTellsPlace | barman/xlog.py:305-319 | a name starts with its timeline, and its directory is its first sixteen characters, or the archive itself for a history file |
| Xlog.GenerateSegmentNames | barman/xlog.py:240-302 | the generator loop yields, in increasing order, exactly the segments between its two ends that PostgreSQL writes: those that start within the 4 GiB of their log file, without the last one before 9.3 |
| Xlog.WholeSegmentsAreWritten | barman/xlog.py:240-302 | for sizes that divide 4 GiB those are the segments that end within their log file, before 9.3 with room for one more |
| Xlog.SegmentsFromExactly | barman/xlog.py:240-302 | between two ends exactly the segments that a layout allows are generated |
| Xlog.SegmentsFromIncreasing | barman/xlog.py:240-302 | they are generated in increasing order, so each once |
| Catalog.FindPreviousBackupIn | barman/backup.py:205-221 | the result is the largest smaller id with a wanted status, or none if there is none; an unknown id is an error |
| Catalog.FindNextBackupIn | barman/backup.py:337-353 | the result is the smallest larger id with a wanted status, or none; an unknown id is an error |
| Catalog.FilteredNeighbours | barman/backup.py:574-584 | looking among the backups that are copied or share the deleted one's status finds the same neighbours as looking among all |
| WalCleanup.ShouldRemoveWals | barman/backup.py:237-334 | the loop ends and equals its closed form: true exactly when all earlier copied backups are standalone, and none exists under the skip flag; the ranges are theirs, newest first |
| WalCleanup.GetTimelinesToProtect | barman/backup.py:524-544 | the timelines of all other backups, without that of the cut |
| WalCleanup.LinesMembership | barman/backup.py:1470-1512 | which catalogue lines stay and which go |
| WalCleanup.GroupByDirIsPartition | barman/backup.py:1505-1520 | grouping by directory loses no line, repeats none and puts each in the group of its directory |
| WalArchive.WhatVanishes | barman/backup.py:1524-1558 | for every file of every directory, exactly when it vanishes, shortcut included |
| WalArchive.WhatVanishesAlways | barman/backup.py:1524-1558 | for any catalogue and any archive, in agreement or not: a file vanishes exactly when the deletion gets to its directory and it is selected or the list of the directory is 256 or longer |
| WalArchive.DeletesExactlyIff | barman/backup.py:1534-1558 | exactly the selected files vanish if and only if every directory with a list of 256 or more is its list |
| BackupSafety.CleanupIsExact | barman/backup.py:1445-1522 | the new catalogue is the old one filtered, in order, the disk loses exactly the selected files, and both agree again |
| BackupSafety.NewerCopyIsSafe | barman/backup.py:600-628 | no WAL at or after the begin of a newer copied backup on its timeline is selected, whichever backup is deleted |
| BackupSafety.OlderCopyIsSafe | barman/backup.py:300-334 | no segment of an older copied backup is selected |
| WalSelection.DeletionSelectsExactly | barman/backup.py:579-628 | a deletion selects exactly the valid lines that are no history file, in no older copy (labels go with their segment), and before the next copy on no other archiving timeline; without a next copy, before the deleted backup itself under concurrent backup, and else all; none while older copies that are not standalone exist |
| WalSelection.ConcurrentBackupsAreSpared | barman/backup.py:608-616 | with concurrent backup and no newer copy nothing from the begin of the deleted backup on is selected |
| WalSelection.LastDeletionFreesAll | barman/backup.py:606-612 | without it and without any other copy every valid line but those of history files is selected |
| WalSelection.DeletionEffect | barman/backup.py:546-712 | all that a deletion does in uncrowded directories: the record and its annotation go, and of files and lines exactly what is freed |
| WalSelection.StoppedDeletion | barman/backup.py:1524-1558 | a deletion that meets a missing directory changes the archive alone |
| WalSelection.PurgeSelectsExactly | barman/backup_executor.py:161-180 | the purge selects exactly what is before the begin of the first copy; with an unknown begin nothing, or everything when told to go on |
| WalSelection.PurgeEffect | barman/backup_executor.py:161-180 | in uncrowded directories that is what goes from the disk |
| WalSelection.ReportsAreSelected | barman/backup.py:1524-1558 | the names reported as removed are those of the lines that went |
| WalSelection.DirectoriesHaveFiles | barman/backup.py:1250-1270 | in every run a WAL directory exists exactly while it has a file |
| WalSelection.ArchivingEffect | barman/wal_archiver.py:274-380 | archiving adds the file and its line, unless the file is there |
| WalSelection.TakingABackup | barman/backup_executor.py:1808-1990 | what the record of a backup holds when its copy has ended |
| BackupSafety.CheckedDoneIsRecoverable | barman/backup.py:1657-1745 | a check that grants DONE has found every segment from begin to end |
| WalChecks.RequiredExactly | barman/backup.py:1705-1712 | the segments a backup needs are exactly those that PostgreSQL writes between its two ends |
| WalChecks.CheckIsJudgement | barman/backup.py:1694-1745 | FAILED if and only if the archive has got past the begin and past a required segment that is not there, DONE if and only if it has got past the end and all are there, WAITING_FOR_WALS otherwise |
| WalChecks.FailedMeansHopeless | barman/backup.py:1711-1745 | the answer is FAILED if and only if no newer WALs that may still arrive can make it DONE |
| BackupSafety.StepKeepsDoneIff | barman/backup.py:546-712 | any step on any sane server keeps DONE true if and only if it takes no needed segment, which its lists tell beforehand |
| BackupSafety.RemovalKeepsDoneIffShortLists | barman/backup.py:1534-1558 | a deletion or purge keeps DONE true if and only if every needed segment of the other backups is in a directory with fewer than 256 lines to delete |
| BackupSafety.StepKeepsInv | barman/backup.py:546-712 | each step that deletes exactly what it selected keeps the machine consistent and DONE backups recoverable |
| BackupSafety.DoneStaysRecoverable | barman/backup.py:546-712 | in every run, with whatever directories, every DONE backup has all its segments archived throughout if and only if no step took a needed one with a whole directory or in a deletion that stopped |
| BackupSafety.SmallDirectoriesSuffice | barman/backup.py:1534-1558 | if directories never hold more than 256 entries, the catalogue agrees with the disk and DONE is true throughout |
| BackupSafety.StepKeepsWindowIff | barman/backup.py:237-334 | any step on any sane server keeps a WAL that a surviving live backup may need if and only if it does not take it |
| BackupSafety.RemovalKeepsWindowIffShortList | barman/backup.py:1534-1558 | deleting another backup, or purging, keeps such a WAL if and only if fewer than 256 lines of its directory are to go |
| BackupSafety.RecoveryWindowKept | barman/backup.py:237-334 | over a whole run through which a backup stays live and is not standalone, whatever else is deleted, purged, kept or released: a WAL on its timeline at or after its begin is there throughout if and only if no step took it |
| BackupSafety.SmallDirectoriesKeepWindow | barman/backup.py:237-334 | with directories of at most 256 entries every such WAL stays |
| CrowdedDirectory.DeleteBreaksDone | barman/backup.py:1534-1558 | the shortcut destroys a kept segment of a DONE backup on a concrete consistent server that a run reaches |
| CrowdedDirectory.TreeDeletionStops | barman/backup.py:1524-1558 | the run after which a finished backup whose links are in order cannot be deleted: its deletion raises at the missing directory and leaves the record DONE |
| BackupManager.BackupManager.DeleteWals | barman/backup.py:1524-1558 | the archive, the list of removed names and the outcome after deleting the groups |
| BackupManager.BackupManager.RemoveWalBeforeBackup | barman/backup.py:1445-1522 | the line by line rewrite is the cleanup step of the machine, with the names it reports and whether it stopped |
| BackupManager.BackupManager.DeleteBackup | barman/backup.py:546-712 | deleting a backup is the deletion step of the machine, for every flag, and exactly when it gets to its end |
| BackupManager.BackupManager.UnlinkAndForget | barman/backup.py:634-664 | the record is gone and its parent no longer lists it, and exactly when the removal raises instead |
| BackupManager.BackupManager.DeleteTree | barman/server.py:1608-1616 | the loop over the recursive generator makes the deletions of the tree, each a whole one, and stops at the first that raises |
| BackupManager.BackupManager.PurgeUnusedWalFiles | barman/backup_executor.py:161-180 | the purge step, the names it reports and whether it stopped: nothing unless the backup is the first and its begin is known, else a cleanup up to its begin |
| BackupManager.BackupManager.GetLatestArchivedWalsInfo | barman/backup.py:1397-1443 | the newest archived segment of every timeline |
| BackupManager.BackupManager.CheckBackup | barman/backup.py:1657-1745 | the status after a check, told by the archive alone: when it is FAILED, when DONE and when WAITING_FOR_WALS; nothing changes while an end is unknown or when it raises |
| BackupForest.RemoveRecordEffect | barman/backup.py:657-664 | removing a record takes exactly its id out of exactly its parent's list |
| BackupForest.DeletionFindsItself | barman/backup.py:657-664 | a backup with a parent is in its parent's list when it is deleted if and only if it had finished |
| BackupForest.KilledBackupIsNotListed | barman/backup.py:657-664 | the run after which deleting a killed incremental backup looks for it in a list where it is not |
| BackupForest.LinksAgree | barman/backup.py:921-939 | in every run parent and children links agree and no child is listed twice |
| BackupWalks.WalkToRoot | barman/infofile.py:1013-1032 | the loop ends and yields the chain of parents |
| BackupWalks.WalkExactly | barman/infofile.py:987-1011 | the walk yields exactly the descendants |
| BackupWalks.WalkIsBottomUp | barman/infofile.py:987-1011 | each descendant once, and before its ancestors |
| BackupWalks.WalksAgree | barman/infofile.py:987-1032 | the walk down from one backup meets another if and only if the walk up from that one meets the first and all it passes had finished |
| TreeRemoval.TreeIsWalk | barman/infofile.py:987-1011 | loading each record only when the walk gets there, with earlier backups of the tree deleted already, the walk yields what it would have yielded before; the deletions are those of that list up to the first that raises |
| TreeRemoval.DeletionIsExact | barman/backup.py:546-712 | after deletions that all went well exactly their backups are gone, and from the other lists nothing else |
| TreeRemoval.TreeDeletion | barman/server.py:1608-1616 | at any moment before something raises exactly the backups met so far are gone, and exactly when the next deletion goes well |
| TreeRemoval.TreeDeletionIff | barman/server.py:1608-1616 | a whole tree is deleted, WAL cleanups included, without an error and without an orphan if and only if no deletion meets a missing directory, no killed backup has its parent in the tree, and the root had finished or has no parent |
| TreeRemoval.SmallTreeDeletionIff | barman/server.py:1608-1616 | where catalogue and disk agree and directories hold at most 256 entries, the links alone decide that |
| TreeRemoval.TreeIsGone | barman/server.py:1608-1616 | when all went well, and no killed backup has its parent in the tree, exactly the backups whose walk up meets the root are gone |
| MultipartSafety.SortedFillsUp | barman/cloud.py:1027-1032 | increasing part numbers between 1 and n, at least n of them, are 1..n |
| MultipartSafety.MergeEffect | barman/cloud.py:819-832 | after draining, a key's list is sorted by part number and holds the old parts and the arrived ones |
| MultipartRuns.AllPartsRecorded | barman/cloud.py:1027-1043 | waiting for as many parts as were submitted is waiting for exactly those, all stored |
| MultipartProgress.StepKeepsInv | barman/cloud.py:810-1043 | every step of producer and workers keeps the protocol's invariant |
| MultipartProgress.ObjectIsWhatWasWritten | barman/cloud.py:863-1043 | in every run a stored object is the whole byte stream written to its closed archive |
| MultipartProgress.FinishedMeansStored | barman/cloud.py:834-837 | an upload reported done has that object |
| MultipartProgress.CompleteJobsAreExact | barman/cloud.py:1008-1043 | in every run a completion job names exactly the parts 1..n in order, and the provider's join of them is the archive |
| MultipartProgress.StoredPartsAreSubmittedParts | barman/cloud.py:903-941 | no part is stored under a wrong number or with other bytes |
| MultipartProgress.EachPartIsUploadedOnce | barman/cloud.py:863-941 | in every run at most one worker step uploads a given part |
| MultipartProgress.JoinedMeansAnswered | barman/cloud.py:816-817 | when the queue is joined every submitted part has been answered, failed or was dropped |
| MultipartProgress.OneRetrievalSuffices | barman/cloud.py:1027-1032 | without a reported error the first draining collects all parts if and only if none was dropped |
| MultipartProgress.UninterruptedWaitEnds | barman/cloud.py:1027-1032 | with no interrupts and no error one draining collects all parts, so the wait ends |
| MultipartProgress.RetrievingTwiceIsIdle | barman/cloud.py:810-840 | draining again changes nothing |
| MultipartProgress.InterruptedUploadNeverCompletes | barman/cloud.py:885-901 | the run in which a dropped part makes the wait endless |
| MultipartCompletion.CompletionIsInOnePlace | barman/cloud.py:877-965 | in every run the completion of an archive is in exactly one place: to be queued, queued, with a worker, answered, dropped by an interrupt, or failed |
| MultipartCompletion.FailureOfTheCompletionShows | barman/cloud.py:879-886 | a completion that failed always leaves a reported or pending error |
| MultipartCompletion.SecondWaitEndsIff | barman/cloud.py:1045-1062 | with all jobs done and no error, after one draining the status is still that of a running upload if and only if the completion was dropped |
| MultipartCompletion.UninterruptedUploadFinishes | barman/cloud.py:1045-1062 | with no interrupts and no error one draining reports the upload done, and the object is the byte stream written |
| MultipartCompletion.DroppedCompletionIsNeverAnswered | barman/cloud.py:887-899 | the run in which no part is dropped, the completion is, and the second wait is endless |
| MultipartProgress.FailureIsReported | barman/cloud.py:879-886 | a failed part always leaves a reported or pending error |
| MultipartProgress.WorkerStepsRunOut | barman/cloud.py:877-901 | each worker step leaves strictly less work |
| MultipartProgress.JoinIsNotStuck | barman/cloud.py:877-901 | while a job is unfinished some worker can move, except when all have stopped |
| MultipartProgress.QueueIsBounded | barman/cloud.py:794 | in every run no more jobs wait than there are workers |
| CloudInterface.CloudInterface.RetrieveResults | barman/cloud.py:810-840 | the loops append every result, sort the touched lists and read the finished uploads exactly as the protocol's step does, and raise if and only if a first error waits |
| CloudInterface.CloudInterface.HandleAsyncErrors | barman/cloud.py:842-861 | only the first error is raised, and it is taken from the queue |
| CloudInterface.SortTwice | barman/cloud.py:829-832 | a list touched by several results may be sorted several times |
| CloudInterface.RetrieveInProtocol | barman/cloud.py:810-861 | draining is the protocol's step, followed by the raising step exactly when an error waits |
| TarUploader.CloudTarUploader.Write | barman/cloud.py:220-235 | the uploader's whole state after a write, with or without a reported error |
| TarUploader.CloudTarUploader.Flush | barman/cloud.py:264-285 | the uploader's whole state after a flush |
| TarUploader.CloudTarUploader.Close | barman/cloud.py:287-296 | the state after closing; closing fails exactly when nothing was ever buffered |
| TarUploader.WritesAreChunked | barman/cloud.py:220-285 | however the bytes are split into writes, parts and buffer joined are the bytes, parts are numbered 1, 2, ..., and each is over the chunk size by at most one write |
| TarUploader.ClosedArchive | barman/cloud.py:287-296 | a closed archive is completed with the exact part count and its parts are the bytes written |
| TarUploader.FewEnoughParts | barman/cloud.py:220-235 | fewer than limit * (chunk size + 1) bytes make at most limit parts |
| TarUploader.ChunkSizeIsLargest | barman/cloud.py:333-345 | the chunk size is the largest of the calculated, the provider's and the requested one |
| TarUploader.PartsReachMinimum | barman/cloud.py:333-345 | every part but the last is over the provider's minimum and over the requested size |
| TarUploader.ArchiveFitsProvider | barman/cloud.py:325-338 | with the computed chunk size an archive may outgrow the requested size A by (q - 1) * M bytes, q = floor(A / M), and still fit in M parts |
| TarUploader.WriteFollowsProtocol | barman/cloud.py:220-235 | a write is the protocol's write, after a submission exactly when the buffer is over the chunk size |
| TarUploader.CloseFollowsProtocol | barman/cloud.py:287-296 | closing is the protocol's closing step and then the submission of the buffer, or its loss after an error |
| TarUploader.CompletionFollowsProtocol | barman/cloud.py:1008-1041 | then completion can be queued exactly when as many parts are recorded as the closed archive counts, and it asks for those; after an error never |
| TarUploader.CopyPadTruncate | barman/cloud.py:96-124 | exactly the announced length is written: byte by byte the content, and zeroes where it is too short |
| TarUploader.AddFile | barman/cloud.py:163-169 | a member fills whole blocks of 512 bytes with its content and zeroes, and the offset kept equals the bytes written |
| StreamingIO.DecompressingStreamingIO.Read | barman/cloud.py:630-658 | returned bytes and buffer are the decompression of what was consumed; a read shorter than n follows a short read of the response and has returned all of it; with a negative n, what is returned, kept and lost, and that the stream is broken if and only if the buffer was not empty |
| StreamingIO.DecompressingStreamingIO.ReadFromBuffer | barman/cloud.py:609-628 | what is taken from the buffer and what stays are the buffer, cut at n, or from the end for a negative n |
| StreamingIO.NegativeReadAfterARead | barman/cloud.py:609-658 | a read of one byte and then one with the default argument: nothing is returned, one byte is kept and one is lost |
| StreamingIO.ReturnedIsAPrefix | barman/cloud.py:630-658 | reads joined are a prefix of the decompressed object, and all of it at the end |
| BucketPacking.FillBuckets | barman/copy_controller.py:720-761 | the nested loops compute what a packer that only tries the next bucket computes |
| BucketPacking.NextIsLeastLoaded | barman/copy_controller.py:732-742 | the bucket whose turn it is is a smallest one |
| BucketPacking.BucketsStayBalanced | barman/copy_controller.py:732-757 | at every point of the filling no bucket exceeds another by more than the last file |
| BucketPacking.BucketsHoldEachFileOnce | barman/copy_controller.py:720-761 | the buckets hold each file once, none is empty, and each is below the bucket size or one larger file |
| BucketPacking.OnlyFullBucketsGoOut | barman/copy_controller.py:738-757 | while some bucket has room for the next file it goes into one that has and nothing is given out; when none has, all are |
| BucketPacking.SortSorts | barman/copy_controller.py:737 | sorting by size rises and keeps every file |
| BucketPacking.SortIsStable | barman/copy_controller.py:737 | files of one size keep their order |
| CopyPlan.CopyController.AnalyzeDirectory | barman/copy_controller.py:955-1025 | the two lists after the analysis, for every horizon and listing |
| CopyPlan.CopyController.JobGenerator | barman/copy_controller.py:661-718 | the jobs generated, in order |
| CopyPlan.CopyController.Copy | barman/copy_controller.py:571-582 | the jobs of the two phases |
| CopyPlan.EachFileInOneJob | barman/copy_controller.py:661-718 | each file of each list is in exactly one job of the right kind |
| CopyPlan.JobsAreWanted | barman/copy_controller.py:661-718 | a phase has jobs of the items it is for and of no other |
| CopyPlan.JobsComeInOrder | barman/copy_controller.py:661-718 | jobs come item by item, the safe buckets of an item first, the buckets of a list in turn |
| CopyPlan.ControlFileGoesLast | barman/copy_controller.py:571-582 | no job of the first phase is the control file's, every job of the second is, and the control file has its job there |
| CopyPlan.ControlFileIsWrittenLast | barman/copy_controller.py:571-582 | when the first phase has ended every due file but the control file is in place and the control file is untouched |
| CopyPlan.ChosenMembership | barman/copy_controller.py:985-1021 | each entry is on exactly one of the two lists, by the safety rule |
| CopyPlan.ListsTellTrust | barman/copy_controller.py:985-1021 | the safe list has exactly the files whose every change a comparison of size and time finds, in all worlds the analysis allows, and the other list exactly the rest |
| CopyPlan.ListsHoldEachEntryOnce | barman/copy_controller.py:985-1021 | each entry is on one of the two lists, once |
| CopyPlan.ClassificationIsSound | barman/copy_controller.py:985-1021 | a comparison made for a listed file cannot be fooled, given only that old files with the same size and time are the same |
| CopyPlan.SoundOpsCopy | barman/copy_controller.py:571-582 | sound operations in any order and number copy exactly the files they name |
| CopyPlan.CopyIsFaithful | barman/copy_controller.py:514-582 | after both phases, in any interleaving, every listed file and every plain file, the control file among them, has its source's content |
| RateLimit.JobStarter.ApplyRateLimit | barman/copy_controller.py:614-659 | starts stay in order and spaced, the history is the end of the trace and has at most B + 1 entries, and the time slept is exactly what is left until the start B back is a period old |
| RateLimit.RecentIsShort | barman/copy_controller.py:642-653 | never more than B starts are found in the window, so waiting for the oldest is enough |
| RateLimit.SpacingContinues | barman/copy_controller.py:650-659 | the next start keeps t[i+B] >= t[i] + period over the whole trace, pruned history or not |
| RateLimit.FewStartsPerPeriod | barman/copy_controller.py:614-659 | any stretch shorter than the period sees at most B starts |
| Glob.TranslateToRegexp | barman/fs.py:518-548 | the loop computes the translation of the pattern's tokens |
| Glob.TranslationPreservesMeaning | barman/fs.py:506-548 | the translation is a regular expression and matches exactly what the wildcards describe |
| Glob.WildcardsMean | barman/fs.py:518-548 | a question mark matches one character, a double star any number, every other character but the star itself |
| Glob.StarMeans | barman/fs.py:518-548 | a single star matches any number of characters that are no slash |
| Glob.UnanchoredMeansAfterSomeSlash | barman/fs.py:494-503 | matching with the added prefix is matching after some slash |
| Glob.SlashesMean | barman/fs.py:468-503 | a last slash makes a rule one for directories, a first one ties it to the beginning of the path |
| Glob.MatchRule | barman/fs.py:490-502 | one rule: when it raises, and otherwise whether it applies |
| Glob.MatchPath | barman/fs.py:468-503 | the first rule that applies or raises decides |
| Glob.VerdictExists | barman/fs.py:468-503 | every list of rules has a verdict on every path |
| Glob.VerdictIsUnique | barman/fs.py:468-503 | and only one, an error of a malformed rule included |
| Glob.PathAllowed | barman/fs.py:438-465 | included paths are accepted, then excluded ones rejected, all others accepted, and a malformed rule raises only when it is reached |
| ShellQuote.QuotedAdds | barman/command_wrappers.py:1277-1309 | a quoted argument adds exactly itself to a word, every character quoted |
| ShellQuote.FullCommandTokens | barman/command_wrappers.py:1312-1323 | the tokens of the full command are those of the command and one per argument |
| ShellQuote.QuotingRoundTrips | barman/command_wrappers.py:1306-1323 | the shell sees exactly the arguments if and only if none is a lone bar |
| ShellQuote.RemoteRoundTrips | barman/fs.py:382-402 | through the local and the remote shell the command and its arguments arrive unchanged |
| InfoFile.FieldListFile.Save | barman/infofile.py:236-280 | the text written, field by field |
| InfoFile.FieldListFile.Load | barman/infofile.py:282-339 | the fields after loading any text, and after an invalid line |
| InfoFile.LinesMean | barman/infofile.py:316-338 | what a line does: blank lines and comments nothing, one with an equals sign sets a field, any other is an error |
| InfoFile.InvalidLineEnds | barman/infofile.py:316-338 | an invalid line ends the loading: what came before is set, what comes after is not read |
| InfoFile.SavedFieldsLoad | barman/infofile.py:236-339 | loading a saved record into any object sets the saved fields and leaves the others |
| InfoFile.RecordRoundTrips | barman/infofile.py:236-339 | every field is restored if and only if every value can be written: no newline, no outer white space, not None as text |
| InfoFile.IdsRoundTrip | barman/infofile.py:111-134 | exactly which lists of ids are restored |
| InfoFile.ChildrenSurvive | barman/infofile.py:111-134 | a list of children ids survives being stored in a record |
| InfoFile.XlogdbLineRoundTrips | barman/infofile.py:407-441 | exactly which catalogue lines are read back as written |
| InfoFile.OldLinesAreUncompressed | barman/infofile.py:421-438 | three columns are read as no compression |

## Left out

- Xlog.StringOrderIsWalOrder: holds for names printed in capitals; for names with small digits it is false, and `Xlog.OrderAtFirstDifference` is the exact statement.
- BackupManager.BackupManager.DeleteBackup: does not model hooks and file system errors, nor a crash between deleting WALs and rewriting the catalogue.
- BackupManager.BackupManager.DeleteTree: does not model the locks and the checks before the loop, nor deletions that fail without raising; which backup is the cached object is a parameter.
- BackupManager.BackupManager.CheckBackup: takes the newest segment of the timeline as computed by the method above it and does not model the error text of the record.
- CopyPlan.CopyIsFaithful: a plain file is assumed not to fool rsync's comparison of size and time, which is all the code makes for it; deleting unknown files and source files that vanish or change during the copy are not modelled.
- RateLimit.JobStarter.ApplyRateLimit: takes time as real numbers and a batch size of at least one.
- TarUploader.ArchiveFitsProvider: divides integers exactly where the code divides floats and truncates.
- TarUploader.CloudTarUploader.Write: takes the bytes after compression and does not model the bandwidth throttle.
- InfoFile.RecordRoundTrips: takes values as they are printed; the printing and parsing of numbers, dates and tablespaces is not part of this model.
- Glob.TranslateToRegexp: escapes the characters that `re.escape` escapes since Python 3.7; earlier versions escape more, with the same meaning.
- ShellQuote.QuotingRoundTrips: asks that the command itself has tokens; double quotes, expansions and comments in the command are outside the sections modelled.
- Backup records are values in a map, so the sharing of cached records between callers is not captured, only the comparison by identity.
- Names of WAL files with small hexadecimal digits, outside the three lemmas above that show what they break; the server's state machine uses names in capitals.
- Rotation of archives into numbered ones by the upload controller.
- A worker killed while it marks a task as done or waits for one.
- Retention policies choose which backups to delete; the machine allows any order, including parents before children, for which only the agreement of the links is proved.
- Real input and output, PostgreSQL, ssh, rsync itself, hooks, locks, configuration, cloud providers and snapshots.
