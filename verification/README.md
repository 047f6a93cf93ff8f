# Nydus snapshotter, verified

A Dafny model of the algorithms and protocols inside the nydus snapshotter, with proofs of what they promise.
`dafny verify dfyconfig.toml` checks everything.

| module | component |
|---|---|
| `Snapshots`, `SnapshotCalls` | the snapshot directory protocol: Create, Commit, Remove and Cleanup as atomic steps of any number of concurrent calls over one metadata store and one directory, with deletions that run after the scanning transaction has ended; and what each whole call leaves behind |
| `Overlay`, `OverlayChoice`, `OverlayMeaning`, `OverlaySaving`, `Paths` | nydus-overlayfs: flag parsing, the longest common prefix by lexicographic minimum and maximum, and the rewriting of lowerdir, upperdir and workdir to a directory plus relative paths |
| `Archive`, `Toc` | the tail-to-head nydus archive: the backward header walk, the table-of-contents fast path and the fallback between them |
| `BlobProxy` | the range server over one forward reader |
| `DaemonRefs`, `Upgrades` | daemon reference counts and the decisions that rest on them, over every run of mounts, unmounts, retentions, restarts and hot upgrades |
| `Managers`, `ManagerRuns`, `ManagerHistory` | managers with a write-through daemon cache over one shared database: each operation, every interleaving of the operations of several managers and its atomic history, and recovery after a restart |
| `ReadSeeker`, `ReadProgress` | the reconnecting seekable reader over registry range requests, and when it makes progress |
| `Scopes`, `Bearer`, `BearerScopes` | canonical token scopes, and the single-flight token cache under every interleaving of its callers |
| `Challenge` | the WWW-Authenticate parser |
| `SourceLabel` | the distribution-source label (an insertion sort that turns duplicates into empty strings) and the mount candidate chosen from it |
| `Schema1`, `Manifest` | the schema 1 converter; nydus manifest conversion and its undoing |
| `CacheGc`, `Retry`, `DmVerity`, `Multipart` | blob-cache garbage collection, the retry engine and the wait for a complete bootstrap, dm-verity labels, upload parts |
| `Base`, `Text`, `Decimal` | strings, lists and numbers as Go treats them |

Code that updates objects or arrays is modelled by classes, arrays and loops, each proved against a function of the
inputs; the theorems are then about that function, or about all runs of a machine whose steps are atomic.
Libraries, the network, clocks and the disk appear as parameters: the archive/tar and zstd decoders, what a registry
answers, how much a connection delivers, whether a store write succeeds, what a callback returns.

## What the proofs show about the code

Some properties one would expect do not hold for every input.  Each is stated with the exact condition under which it
does.

- A store is safe under every interleaving exactly when no numbered snapshot directory has reached the ID counter
  (`Snapshots.SafeExactlyBelowCounter`).  A crash between the rename and the commit of Create leaves such a directory
  (`Snapshots.CrashLeavesOrphan`); a later Cleanup can then delete the directory of a snapshot that was given its number
  in the meantime.
- Compaction of overlay options keeps the meaning of the mount exactly when the chosen directory is a prefix of the
  common directory part and no path continues with a second slash (`OverlayMeaning.CompactMeaning`).  That always
  holds for clean paths; `lowerdir=/a//x:/a//y` loses it (`OverlayMeaning.UncleanPathsLoseMeaning`).
- Mount options that should clear a flag set it instead, because the table holds one bit for both: `rw` mounts read-only
  (`Overlay.CancellingAccessOptionsSet`, `Overlay.CancellingTimeOptionsSet`, `Overlay.CancellingSyncOptionsSet`).
- The table of contents gives the same bytes as the header walk exactly when the table is at most 1 MiB
  (`Toc.TableAgreesWithWalk`); `Toc.BigTableFails` is an archive that misses it.
- A fresh clone of an accounted daemon is accounted exactly when the daemon was not retained
  (`DaemonRefs.CloneAccountedIff`), because the clone takes over the reference of a retention but not the slot.  So a run
  with upgrades keeps the counter right exactly when every upgrade finds its daemon unretained
  (`DaemonRefs.UpgradesExactIffUnretained`), as upgrades at start-up do.
- After an upgrade of a retained shared daemon later mounts reach the old object in the slot, whose nydusd has exited:
  they fail, are counted there, and are unmounted from the clone, which loses references of snapshots it serves.  Every
  later run is safe exactly when the slot was empty or nothing was served, or one snapshot only if nydusd refuses to
  unmount what it does not serve (`Upgrades.UpgradeSafeIff`); otherwise some run destroys the daemon while it serves a
  snapshot mounted before the upgrade (`Upgrades.KillingRun`).
- A daemon's counter is its instance count plus its retentions exactly when double additions, absent removals and
  upgrades of retained daemons cancel (`DaemonRefs.RefExactIffNoDrift`).  Umount leaves its entry in the global cache,
  so unmounting one snapshot twice makes a shared daemon look idle while it serves another
  (`DaemonRefs.DoubleUmountLosesAReference`).
- Space-free scopes have one cache key for one scope set, except that the empty set shares its key with the set of the
  empty scope (`Scopes.KeyDecidesScopes`).
- A manager's cache stays the index of the store exactly when it is handed daemons of its own driver
  (`Managers.Manager.AddDaemon`, `Managers.Manager.UpdateDaemon`) and deletes none that another manager has
  (`Managers.Manager.DeleteDaemon`).
- Converting a schema 1 manifest that was refused because it has more history than layers indexes past the layers
  (`Schema1.Converter.Convert`).
- retry.Do also returns nil without a successful call: with no attempts, or on an unrecoverable nil error, when only the
  last error is reported (`Retry.NilIff`).
- Reconverting gives back the history exactly when the original had no entry that looks like the converter's own
  (`Manifest.ReconvertUndoes`), and keeps layers and diff IDs equally many exactly when there is at most one bootstrap
  layer, because only the last one's diff ID is removed (`Manifest.StaysInStep`).

## Model

| member | source | states |
|---|---|---|
| `Snapshots.GetCleanupDirectories` | snapshot/snapshot.go:1212-1244 | the loop returns exactly the listed directories that no row names, in order |
| `Snapshots.StepKeepsInv` | snapshot/snapshot.go:781-886 | every atomic step of any thread keeps: each row has its directory, each Create in progress has its temporary directory, and every pending deletion list is dead for good |
| `Snapshots.DeadStaysDead` | snapshot/snapshot.go:1246-1282 | a directory that is nobody's now and below the counter never becomes a snapshot's, whichever thread moves next |
| `Snapshots.OrphanIsDead` | snapshot/snapshot.go:1212-1244 | what a scan inside the write transaction finds orphaned is dead in that sense |
| `Snapshots.EveryRunKeepsSnapshots` | snapshot/snapshot.go:636-698 | in every interleaving of Create, Commit, Remove and Cleanup no committed snapshot and no Create in progress loses its directory |
| `Snapshots.PendingDeletionsNeverLive` | snapshot/snapshot.go:320-337 | a name on a deletion list is not the name of any snapshot committed then or at any later point of the run |
| `Snapshots.SafeExactlyBelowCounter` | snapshot/snapshot.go:781-886 | from a quiescent store all runs are safe if and only if no numbered directory is at or above the counter |
| `Snapshots.CrashLeavesOrphan` | snapshot/snapshot.go:873-884 | a crash between the rename and the commit of Create leaves a quiescent store with a directory at the counter, which is not safe |
| `Snapshots.LosingRun` | snapshot/snapshot.go:320-337 | for any store with such a directory, a concrete run of Cleanup and Create that loses a committed snapshot |
| `Snapshots.CleanupLeavesTheRows` | snapshot/snapshot.go:320-337 | from a quiescent store an undisturbed Cleanup whose deletions succeed leaves exactly the directories of the rows |
| `SnapshotCalls.RemoveRemoves` | snapshot/snapshot.go:636-698 | in every interleaving a Remove that commits has removed its key from the rows and changed nothing else in them, whatever the other threads did meanwhile |
| `SnapshotCalls.CreateCreates` | snapshot/snapshot.go:781-886 | in every interleaving a Create that commits has added its key under the number the counter stood at, and its directory is there |
| `SnapshotCalls.OtherEndsChangeNothing` | snapshot/snapshot.go:781-886 | in every interleaving a Create, Remove or Cleanup that ends otherwise leaves rows and counter as it found them |
| `SnapshotCalls.RemoveLater` | snapshot/snapshot.go:636-698 | an undisturbed asynchronous Remove takes the row and leaves the directories |
| `SnapshotCalls.RemoveNow` | snapshot/snapshot.go:636-698 | a synchronous one whose deletions succeed leaves exactly the directories of the other rows |
| `SnapshotCalls.RemoveGivenUp` | snapshot/snapshot.go:636-698 | a Remove given up at any point leaves rows, counter and directories as they were |
| `SnapshotCalls.DeleteSome` | snapshot/snapshot.go:320-337 | of a deletion list exactly the directories whose deletion succeeds go, and the call returns at its end |
| `SnapshotCalls.CanGiveUp` | snapshot/snapshot.go:781-886 | exactly who is in a transaction can give it up, at any point, which ends it and changes neither rows nor counter |
| `SnapshotCalls.CommitRenames` | snapshot/snapshot.go:592-634 | when Commit succeeds; the new key then holds the old ID, the old key is gone, and all other rows, the directories and the counter stay |
| `SnapshotCalls.CreateAlone` | snapshot/snapshot.go:781-886 | an undisturbed Create goes through: one new row, one new directory, the counter moved by one |
| `SnapshotCalls.CreateGivenUp` | snapshot/snapshot.go:781-886 | a Create that fails at any stage leaves rows, counter and directories as they were, except that a refused rename also removes the directory that was in its way |
| `SnapshotCalls.CreateRecovers` | snapshot/snapshot.go:781-886 | so does one that stops to recover its parent, once it has removed its temporary directory |
| `SnapshotCalls.PlaceholderGivenUp` | snapshot/snapshot.go:931-1003 | a placeholder whose rename fails leaves just its temporary directory behind |
| `Overlay.LongestCommonPrefix` | cmd/nydus-overlayfs/main.go:112-135 | the min/max algorithm returns a prefix of all strings that every common prefix is a prefix of |
| `Overlay.Sandwich` | cmd/nydus-overlayfs/main.go:112-135 | a prefix shared by the lexicographically smallest and largest string is shared by every string between |
| `Overlay.ParseOptions` | cmd/nydus-overlayfs/main.go:68-109 | the flags are those of the table entries among the options, the data the comma-joined remaining options in order |
| `Overlay.FlagsMean` | cmd/nydus-overlayfs/main.go:68-109 | a flag is passed to mount if and only if some option of the table stands for it |
| `Overlay.DataPartsSplit` | cmd/nydus-overlayfs/main.go:68-109 | each option goes to the data if and only if the table lacks it, and the order is kept |
| `Overlay.CancellingAccessOptionsSet` | cmd/nydus-overlayfs/main.go:68-109 | rw, dev, suid and exec stand for the flags of ro, nodev, nosuid and noexec |
| `Overlay.CancellingTimeOptionsSet` | cmd/nydus-overlayfs/main.go:68-109 | so do the options that should cancel the four access-time options |
| `Overlay.CancellingSyncOptionsSet` | cmd/nydus-overlayfs/main.go:68-109 | so do async and nomand; the remaining entries of the table are as their names say |
| `Overlay.CompactLowerdirOption` | cmd/nydus-overlayfs/main.go:142-212 | the loops compute `Compact`: unchanged options, or the directory and the options with it cut from every overlay path |
| `OverlayChoice.PathsAreCollected` | cmd/nydus-overlayfs/main.go:142-172 | the collected paths are exactly the parts of the first lowerdir option and the upperdir and workdir paths |
| `OverlayChoice.CompactsExactlyWhenShared` | cmd/nydus-overlayfs/main.go:142-212 | for clean paths a directory is chosen if and only if there are several lower layers and some directory holds every overlay path; it is the deepest such directory |
| `Paths.CleanMeans` | cmd/nydus-overlayfs/main.go:174-181 | the cleaned path is in normal form, is clean, and leads where the given path leads from every place |
| `OverlayMeaning.CompactMeaning` | cmd/nydus-overlayfs/main.go:142-212 | when compaction takes place, the rewritten options resolved in the directory mean the same mount if and only if the cleaned parent of the longest common prefix is a prefix of the common directory part and no path goes on with a slash after it |
| `OverlayMeaning.CleanPathsKeepMeaning` | cmd/nydus-overlayfs/main.go:142-212 | with clean overlay paths the mount always means the same |
| `OverlayMeaning.UncleanPathsLoseMeaning` | cmd/nydus-overlayfs/main.go:174-181 | compacting `lowerdir=/a//x:/a//y` enters `/a/` and mounts something else |
| `OverlayMeaning.SecondSlashLosesMeaning` | cmd/nydus-overlayfs/main.go:174-212 | so does every compaction after whose directory some path goes on with a slash |
| `OverlaySaving.CompactSaves` | cmd/nydus-overlayfs/main.go:142-212 | the parsed flags stay the same and the mount data shrinks by the length of the directory for every overlay path |
| `OverlaySaving.TableHasNoPathFlags` | cmd/nydus-overlayfs/main.go:68-109 | no flag name is an overlay path option |
| `Archive.SeekFileByTarHeader` | pkg/converter/convert_unix.go:163-219 | on arbitrary bytes the backward loop ends, reads within the blob, and returns the first section met with the name, not-found, or failure |
| `Archive.SeekPrinted` | pkg/converter/convert_unix.go:163-219 | on an archive of data and headers it hands over the data of the last entry of that name, refuses one over the size limit, and reports not-found exactly when there is none |
| `Toc.DecodeOfEncode` | pkg/converter/types.go:156-171 | the 128-byte little-endian record is read back field by field |
| `Toc.GetName` | pkg/converter/types.go:185-195 | the name is the bytes before the first zero, each printed as the character of that code |
| `Toc.NamesDiffer` | pkg/converter/types.go:185-195 | two names are equal if and only if their bytes before the first zero are |
| `Toc.PaddedName` | pkg/converter/types.go:185-195 | an ASCII name padded with zeros is that name |
| `Toc.SeekFileByToc` | pkg/converter/convert_unix.go:221-280 | the first record of that name decides; its bytes are extracted by its compressor, with int64 conversion of offset and size |
| `Toc.FindRecord` | pkg/converter/convert_unix.go:244-262 | the loop over fixed-size records finds the first one of that name |
| `Toc.FirstRecordDecides` | pkg/converter/convert_unix.go:221-280 | from a table of at most 1 MiB the first record of the name decides, whatever else the table holds: stored bytes are handed over as they are, zstd bytes decoded, and a decoder that refuses them or an unknown compressor is a failure |
| `Toc.SectionIs` | pkg/converter/convert_unix.go:244-262 | for every 64-bit offset and size the part of the blob between them is read, in spite of the conversions to int64, except that an offset of 2^63 or more is a read error unless the size is zero |
| `Toc.TableGivesContent` | pkg/converter/convert_unix.go:221-280 | from a table that describes the entries, stored raw or with zstd, the file's content is read if and only if the table is at most 1 MiB; a larger one fails |
| `Toc.SeekFile` | pkg/converter/convert_unix.go:300-313 | the table first, the header walk only on not-found |
| `Toc.TableAgreesWithWalk` | pkg/converter/convert_unix.go:221-313 | for a table that describes uncompressed entries, seekFile gives what the walk gives if and only if the table is at most 1 MiB |
| `Toc.RepeatedRecordFails` | pkg/converter/convert_unix.go:221-280 | a file whose record the table repeats beyond 1 MiB cannot be read, although the walk finds it |
| `Toc.BigTableFails` | pkg/converter/convert_unix.go:221-280 | such an archive: one file of three bytes and 8193 records |
| `Toc.NoTableIsWalk` | pkg/converter/convert_unix.go:300-313 | without a table seekFile is the walk |
| `BlobProxy.ParseRange` | pkg/converter/cs_proxy_unix.go:70-93 | an accepted range starts inside the blob and has a positive length |
| `Decimal.ParseInt64Iff` | pkg/converter/cs_proxy_unix.go:70-93 | a bound is a number if and only if it is the decimal text of a 64-bit integer with optional sign and leading zeros |
| `BlobProxy.ContentProxy.constructor` | pkg/converter/cs_proxy_unix.go:95-117 | reader and recorded position start together |
| `BlobProxy.ContentProxy.ResetReader` | pkg/converter/cs_proxy_unix.go:103-110 | a reset brings reader and recorded position back to the start |
| `BlobProxy.ContentProxy.MoveTo` | pkg/converter/cs_proxy_unix.go:136-149 | the reader is brought to the start of the range, rewinding only when it is past it |
| `BlobProxy.ContentProxy.Get` | pkg/converter/cs_proxy_unix.go:119-168 | a GET is answered from the blob alone whatever was served before, and the reader stands where the position says |
| `BlobProxy.ServesPrintedRange` | pkg/converter/cs_proxy_unix.go:70-168 | `bytes=a-b` serves the bytes a to b cut at the end, exactly when it is ordered, starts inside the blob and its length fits an int64; otherwise it is a bad request |
| `BlobProxy.ServesOpenRange` | pkg/converter/cs_proxy_unix.go:70-168 | `bytes=a` serves the rest of the blob exactly when a is inside it |
| `DaemonRefs.RefAccounts` | pkg/daemon/daemon.go:112-167 | after any run, upgrades included, the 32-bit counter is instances plus retentions plus drift, up to whole turns |
| `DaemonRefs.GuardedRunsDestroyOnlyIdle` | pkg/filesystem/fs.go:580-585 | after runs that add absent and remove present instances and upgrade unretained daemons only, ref is instances plus retentions, zero exactly for an idle daemon that is not retained, one exactly for an idle one retained once |
| `DaemonRefs.RefExactIffNoDrift` | pkg/daemon/daemon.go:150-167 | the counter tells the truth if and only if double additions, absent removals and lost retentions cancel |
| `DaemonRefs.CloneAccountedIff` | pkg/daemon/daemon.go:654-662 | a fresh clone of an accounted daemon is accounted if and only if the daemon was not retained |
| `DaemonRefs.UpgradesExactIffUnretained` | pkg/system/system.go:382-462 | with tidy mounts and unmounts and upgrades at any time, the counter is right if and only if every upgrade found its daemon unretained, and then zero and one mean an idle daemon |
| `DaemonRefs.UpgradeLeaksARetention` | pkg/system/system.go:392-443 | retaining, mounting one snapshot and upgrading gives reference two with one instance and no retention |
| `DaemonRefs.DoubleUmountLosesAReference` | pkg/filesystem/fs.go:549-605 | unmounting one of two snapshots twice leaves the retained daemon at reference one while it serves the other |
| `DaemonRefs.Daemon.AddRafsInstance` | pkg/daemon/daemon.go:150-155 | the instance is recorded under its snapshot with this daemon's ID, and one reference is added |
| `DaemonRefs.Daemon.RemoveRafsInstance` | pkg/daemon/daemon.go:161-167 | the instance is gone and one reference is dropped, present or not |
| `DaemonRefs.Daemon.CloneRafsInstances` | pkg/daemon/daemon.go:654-662 | the instances are those of the source and its positive references are added one by one; a fresh clone has the books of `CloneOf` |
| `DaemonRefs.DestroyDaemon` | pkg/manager/manager.go:248-266 | nothing happens unless the record is deleted; then no instance is left |
| `DaemonRefs.Filesystem.TryRetainSharedDaemon` | pkg/filesystem/fs.go:207-222 | retained once, only into an empty slot of its driver, for fusedev only at the root mountpoint |
| `DaemonRefs.Filesystem.Upgrade` | pkg/system/system.go:392-443 | the clone becomes the shared daemon exactly when the slot is empty; an occupied slot keeps the old object |
| `DaemonRefs.Filesystem.TryStop` | pkg/filesystem/fs.go:224-247 | a slot's daemon is destroyed only at reference one, and then, if accounted and retained, serves nothing |
| `DaemonRefs.Filesystem.TryStopSharedDaemon` | pkg/filesystem/fs.go:224-247 | exactly the slots at reference one whose record could be deleted are emptied; the other daemons are untouched |
| `DaemonRefs.Filesystem.Umount` | pkg/filesystem/fs.go:549-605 | destroys exactly when record, unmount and daemon record succeed at reference zero; if accounted, the unmounted snapshot was the only one |
| `Upgrades.NextKeepsInv` | pkg/filesystem/fs.go:385-390 | mounts to the slot's object, unmounts from the manager's, retentions, restarts, stops and upgrades with an empty slot keep one object with exact books, and destroy the daemon only when it serves nothing |
| `Upgrades.RestartIsRecovery` | pkg/manager/manager.go:157-185 | the books after a restart are exactly those that `Managers.Manager.Recover` promises for the persisted instances |
| `Upgrades.RunsWithUpgradesAreSafe` | pkg/filesystem/fs.go:549-605 | in every run from the first start whose upgrades find the slot empty, mounts that nydusd does not take included, the daemon is destroyed only when it serves nothing |
| `Upgrades.DestroyedIff` | pkg/filesystem/fs.go:549-605 | in such runs a step destroys the daemon if and only if it unmounts the last snapshot of an unretained daemon or stops a retained one that has none |
| `Upgrades.ServedAfter` | pkg/filesystem/fs.go:385-390 | after such a run exactly the snapshots are served that nydusd took and nobody unmounted since, across restarts and upgrades |
| `Upgrades.UpgradeSafeIff` | pkg/system/system.go:382-462 | after an upgrade all runs are safe if and only if the slot was empty, nothing was served, or, where nydusd refuses to unmount what it does not serve, at most one snapshot was |
| `Upgrades.KillingRun` | pkg/filesystem/fs.go:567-585 | otherwise a run of unmounts and of two mounts through the old object destroys the daemon while it serves a snapshot mounted before the upgrade |
| `Managers.Database.SaveDaemon` | pkg/store/database.go:202-211 | an existing record is never overwritten; failure changes nothing |
| `Managers.Database.UpdateDaemon` | pkg/store/database.go:213-224 | only an existing record is replaced; failure changes nothing |
| `Managers.Database.DeleteDaemon` | pkg/store/database.go:226-236 | exactly that record goes, or nothing |
| `Managers.Database.AddRafsInstance` | pkg/manager/manager.go:135-147 | the instance gets the next sequence number, which is spent even when the instance cannot be written |
| `Managers.Database.DeleteRafsInstance` | pkg/store/database.go:298-308 | exactly that instance goes, or nothing |
| `Managers.Manager.AddDaemon` | pkg/manager/manager.go:190-202 | success exactly for a new ID that could be written; for any number of managers over one store, every cache stays the index of its driver's stored daemons if and only if the daemon is of this driver or was refused |
| `Managers.Manager.UpdateDaemon` | pkg/manager/manager.go:204-221 | success exactly for a cached ID that could be written; the caches stay indexes under the same condition |
| `Managers.Manager.DeleteDaemon` | pkg/manager/manager.go:223-236 | success exactly when the store is written; the caches stay indexes if and only if no other manager has the daemon, or nothing was deleted |
| `Managers.Manager.RecoverDaemons` | pkg/manager/manager.go:312-391 | succeeds exactly when no stored daemon of the driver fails fatally; indexes all of them, hands the dead to recovering and the running to live |
| `Managers.Manager.RecoverInstances` | pkg/manager/manager.go:157-185 | every fresh daemon gains exactly the stored instances that name it, one reference each |
| `Managers.Manager.Recover` | pkg/manager/manager.go:124-133 | from an empty cache a successful restart restores the index, and each dead or running daemon owns its stored instances with as many references |
| `ManagerRuns.StepKeepsInv` | pkg/manager/manager.go:190-236 | every step of every manager, between cache look-up, store transaction and cache update, keeps each cache in step up to the operation in progress |
| `ManagerRuns.CachesIndexTheStore` | pkg/manager/manager.go:190-236 | in every interleaving, store failures included, a manager at rest caches exactly its driver's stored daemons, and one at work differs by the daemon it works on |
| `ManagerHistory.RunsAreAtomic` | pkg/manager/manager.go:190-236 | every interleaving, store failures included, leaves the store as if each operation had happened at once in the order in which they were decided, with the same results: an addition succeeds exactly for a new ID, an update for a stored one |
| `ManagerHistory.WholeIsTheMethod` | pkg/manager/manager.go:190-221 | those results are what the manager's methods promise with a cache that indexes the store |
| `ManagerHistory.EachDecidedOnce` | pkg/manager/manager.go:190-236 | every operation begun is decided exactly once, or about to be |
| `ManagerHistory.CacheAnswers` | pkg/manager/manager.go:190-221 | an addition of a cached daemon and an update of one that is not cached, and only these, end without the store |
| `ManagerHistory.OperationsEnd` | pkg/manager/manager.go:190-236 | when a step is possible; an operation takes at most three steps, and no other manager delays or moves it |
| `ManagerHistory.ComesToRest` | pkg/manager/manager.go:190-236 | after any run a manager at work can finish by itself |
| `ReadSeeker.OpenAligned` | pkg/remote/remotes/docker/fetcher.go:262-330 | for servers that follow sections 14.2 and 14.4 of RFC 9110, an opened body starts at the offset whether the range was honoured or ignored |
| `ReadProgress.OpenIff` | pkg/remote/remotes/docker/fetcher.go:262-330 | exactly which answers are opened: a status up to 299, and, past offset zero, a Content-Range that starts at the offset or, without that header, enough bytes to skip |
| `ReadProgress.OpenGranted` | pkg/remote/remotes/docker/fetcher.go:262-330 | a server that grants the range, or ignores it and sends everything, is always accepted, and the body is the content from the offset |
| `ReadSeeker.ReadCorrect` | pkg/remote/remotes/docker/httpreadseeker.go:47-81 | one Read returns the content at the old offset and moves past it, keeps the connection in step, and reports the end only at the end |
| `ReadSeeker.EveryReadIsCorrect` | pkg/remote/remotes/docker/httpreadseeker.go:47-168 | the same after any mixture of reads, seeks, broken connections, failed and successful reconnections |
| `ReadSeeker.ReadsJoinUp` | pkg/remote/remotes/docker/httpreadseeker.go:47-81 | however a stream is cut into reads and connections, the pieces join up to one slice of the content |
| `ReadSeeker.ReadToEnd` | pkg/remote/remotes/docker/httpreadseeker.go:47-81 | reading until the end gives the whole content, with the right or an unknown size |
| `ReadProgress.ReadDelivers` | pkg/remote/remotes/docker/httpreadseeker.go:47-81 | with a willing server a Read never returns an error but the end at the end, hides an unexpected end while patience lasts by reconnecting at its offset, and delivers what the connection has |
| `ReadProgress.EachReadAdvances` | pkg/remote/remotes/docker/httpreadseeker.go:47-81 | k reads from a willing server, whose connections may break at will but not without a byte, hand over at least k bytes from the beginning of the content, or all of it |
| `ReadProgress.ReadsArrive` | pkg/remote/remotes/docker/httpreadseeker.go:47-81 | so as many reads as the content has bytes hand over the whole content |
| `ReadSeeker.PatienceIsBounded` | pkg/remote/remotes/docker/httpreadseeker.go:59-71 | in every run of reads, seeks and failed reconnections without progress at most three reads hide an unexpected end |
| `ReadSeeker.SeekOutcome` | pkg/remote/remotes/docker/httpreadseeker.go:95-132 | when a seek succeeds, where it leads, and that an error changes nothing |
| `ReadProgress.SeekMeans` | pkg/remote/remotes/docker/httpreadseeker.go:95-132 | the new offset counts from the start, the current offset or the end of a known size; it is refused exactly when closed, negative, of unknown size or of unknown whence |
| `ReadProgress.ReadAfterSeek` | pkg/remote/remotes/docker/httpreadseeker.go:47-132 | after a successful seek into the content a Read from a willing server gives the content found there |
| `ReadProgress.EveryOpWorks` | pkg/remote/remotes/docker/httpreadseeker.go:47-168 | after any mixture of reads from willing servers and seeks inside the content, a read hands over what the connection has from the offset and moves past it, and a seek moves to its target or, refused, nowhere |
| `ReadProgress.ClosedIsOver` | pkg/remote/remotes/docker/httpreadseeker.go:47-102 | a closed reader neither reads nor seeks |
| `ReadProgress.ClosedForGood` | pkg/remote/remotes/docker/httpreadseeker.go:83-93 | nothing opens it again |
| `ReadSeeker.HttpReadSeeker.constructor` | pkg/remote/remotes/docker/httpreadseeker.go:40-45 | starts at offset zero without a connection |
| `ReadSeeker.HttpReadSeeker.Reader` | pkg/remote/remotes/docker/httpreadseeker.go:134-168 | keeps an open body, opens one at the offset, or takes an empty one past a known size |
| `ReadSeeker.HttpReadSeeker.Read` | pkg/remote/remotes/docker/httpreadseeker.go:47-81 | refines the specification of one read; the rest of the buffer is unchanged |
| `ReadSeeker.HttpReadSeeker.Seek` | pkg/remote/remotes/docker/httpreadseeker.go:95-132 | refines the specification of one seek |
| `ReadSeeker.HttpReadSeeker.Close` | pkg/remote/remotes/docker/httpreadseeker.go:83-93 | the reader is closed, and stays so when closed again |
| `Scopes.GetTokenScopes` | pkg/remote/remotes/docker/scope.go:76-101 | the result is strictly ascending and holds exactly the scopes of the context and of the challenge |
| `Scopes.Compact` | pkg/remote/remotes/docker/scope.go:84-100 | the in-place loop leaves one of every run of equal neighbours |
| `Scopes.DedupAscends` | pkg/remote/remotes/docker/scope.go:84-100 | on a sorted list that is strictly ascending with the same members |
| `Scopes.KeyDecidesScopes` | pkg/remote/remotes/docker/authorizer.go:266-269 | for space-free scopes, keys are equal if and only if the sets are, except for the empty set and the set of the empty scope |
| `Scopes.SpacesCollide` | pkg/remote/remotes/docker/authorizer.go:268-269 | with spaces, two different sets share a key |
| `Bearer.RunKeepsInv` | pkg/remote/remotes/docker/authorizer.go:271-289 | in every interleaving each key has one result, each unpublished result exactly one fetcher, and a returned caller the published answer |
| `Bearer.OneFetchOneAnswer` | pkg/remote/remotes/docker/authorizer.go:262-329 | each key is fetched at most once and all callers with it return what that fetch published, errors included |
| `Bearer.WaitersAreServed` | pkg/remote/remotes/docker/authorizer.go:271-276 | a waiter can return, or the caller that fetches for it has yet to publish |
| `Bearer.EveryStepCounts` | pkg/remote/remotes/docker/authorizer.go:271-289 | every step but an arrival lets exactly one caller return |
| `Bearer.EveryoneReturns` | pkg/remote/remotes/docker/authorizer.go:271-289 | every run, whatever the fetches give, can be continued until all callers have returned, one step for each |
| `Bearer.AnyoneMayCome` | pkg/remote/remotes/docker/authorizer.go:262-276 | callers with any keys can arrive |
| `Bearer.AnswersStay` | pkg/remote/remotes/docker/authorizer.go:285-289 | a published answer never changes |
| `Bearer.AnswersAreGiven` | pkg/remote/remotes/docker/authorizer.go:291-328 | what a caller returns is the token of the endpoint that decided the fetch of a caller with its key: GET without a secret or after a status that refuses POST, otherwise POST; a failure gives the bare prefix |
| `BearerScopes.AskedKey` | pkg/remote/remotes/docker/authorizer.go:266-276 | every caller is filed under the key of the scopes it came with |
| `BearerScopes.ScopeSetsShareOneFetch` | pkg/remote/remotes/docker/authorizer.go:262-329 | in every interleaving callers share a fetch and its answer if and only if their space-free scope sets are equal, or are the empty set and the set of the empty scope |
| `Challenge.SkipSpace` | pkg/remote/remotes/docker/auth/parse.go:147-155 | drops the longest prefix of white space |
| `Challenge.ExpectToken` | pkg/remote/remotes/docker/auth/parse.go:157-165 | splits off the longest prefix of token characters |
| `Challenge.ExpectTokenOrQuoted` | pkg/remote/remotes/docker/auth/parse.go:167-200 | a token, or the unescaped quoted string and what follows it, or nothing when the quote is not closed |
| `Challenge.UnquoteEscaped` | pkg/remote/remotes/docker/auth/parse.go:176-195 | the escape loop never writes outside its buffer of one byte less than the text, and collects the unescaped value |
| `Challenge.ParseValueAndParams` | pkg/remote/remotes/docker/auth/parse.go:119-145 | terminates on every header with the scheme in lower case and the parameters read so far |
| `Challenge.TokenOctets` | pkg/remote/remotes/docker/auth/parse.go:66-97 | the token characters are exactly the letters, the digits and fifteen marks |
| `Challenge.LowerMeans` | pkg/remote/remotes/docker/auth/parse.go:119-145 | lower case has no capital left: capitals move by 32, every other character stays |
| `Challenge.ParsedInLowerCase` | pkg/remote/remotes/docker/auth/parse.go:119-145 | whatever the header, the scheme and the names of all parameters are in lower case |
| `Challenge.CaseDoesNotMatter` | pkg/remote/remotes/docker/auth/parse.go:119-145 | challenges that differ only in the case of scheme and names are read alike |
| `Challenge.BearerRecognised` | pkg/remote/remotes/docker/auth/parse.go:99-145 | every spelling of "Bearer" in capitals and small letters is read as `bearer`, with its parameters |
| `Challenge.UnquoteEscape` | pkg/remote/remotes/docker/auth/parse.go:167-200 | unescaping undoes escaping for every value |
| `Challenge.ChallengeReadBack` | pkg/remote/remotes/docker/auth/parse.go:119-200 | a printed challenge with quoted or bare values and any white space is read back: scheme and names in lower case, values unchanged |
| `Challenge.LastOneWins` | pkg/remote/remotes/docker/auth/parse.go:131-138 | of several parameters of one name the last counts |
| `SourceLabel.SortInPlace` | pkg/remote/remotes/docker/handler.go:86-96 | the nested loops compute the insertion of each entry in turn |
| `SourceLabel.MoveUp` | pkg/remote/remotes/docker/handler.go:88-94 | the inner loop moves larger entries up and finds the slot, turning the entry into an empty one on meeting its equal |
| `SourceLabel.CanonLists` | pkg/remote/remotes/docker/handler.go:86-102 | the sorted list without leading empty strings is the strictly ascending list of the non-empty entries |
| `SourceLabel.AppendDistributionSourceLabel` | pkg/remote/remotes/docker/handler.go:79-103 | the new label is the joined canonical list of the old entries and the new repository |
| `SourceLabel.FoldIsUnion` | pkg/remote/remotes/docker/handler.go:79-103 | appending any number of comma-free repositories gives the label of the union |
| `SourceLabel.LabelIsASet` | pkg/remote/remotes/docker/handler.go:79-103 | order and repetition of the appended repositories do not matter |
| `SourceLabel.LabelSays` | pkg/remote/remotes/docker/handler.go:79-103 | the entries of the resulting label are exactly the non-empty old entries and repositories, ascending |
| `SourceLabel.CommonPrefixComponents` | pkg/remote/remotes/docker/handler.go:139-149 | counts the common leading components |
| `SourceLabel.CommonMeans` | pkg/remote/remotes/docker/handler.go:139-149 | the counted leading components are equal, and the next ones differ or there are none |
| `SourceLabel.SelectRepositoryMountCandidate` | pkg/remote/remotes/docker/handler.go:111-137 | the last of the repositories that share most leading components with the target, the target excepted; none when there is no other |
| `Schema1.RankIsIndex` | pkg/remote/remotes/docker/schema1/converter.go:432-469 | the k-th history entry with a layer, base first, has the k-th diff ID, and there are as many diff IDs as such entries |
| `Schema1.ToFetchOnce` | pkg/remote/remotes/docker/schema1/converter.go:94-114 | the layers to fetch are distinct, belong to the manifest and were not known |
| `Schema1.ManifestHistory` | pkg/remote/remotes/docker/schema1/converter.go:432-469 | the loop fills the history base first with the diff IDs of the non-empty layers; it fails at the first entry that cannot be read and panics exactly when it runs out of layers before |
| `Schema1.Converter.constructor` | pkg/remote/remotes/docker/schema1/converter.go:71-78 | starts with nothing known |
| `Schema1.Converter.HandleManifest` | pkg/remote/remotes/docker/schema1/converter.go:81-115 | succeeds exactly when layers and history match in number and the history of every new layer can be read; returns the layers to fetch base first; afterwards every layer is known, empty by claim, or returned |
| `Schema1.Converter.FetchBlob` | pkg/remote/remotes/docker/schema1/converter.go:379-382 | a blob's state and its descriptor are recorded together |
| `Schema1.Converter.Convert` | pkg/remote/remotes/docker/schema1/converter.go:151-192 | when it converts, is refused or panics, for every manifest; once Handle took the manifest and the returned layers are fetched, there is a layer for each diff ID, a fetched blob with that diff ID |
| `Manifest.MergeManifestBlobDigests` | pkg/converter/convert_unix.go:1187-1199 | the source blobs in order, then the merged blobs they lack, in order |
| `Manifest.MergeCovers` | pkg/converter/convert_unix.go:1187-1199 | nothing is lost and what is added was missing |
| `Manifest.LabelLayers` | pkg/converter/convert_unix.go:1101-1114 | every layer has the gc label of its index, and no other label changes |
| `Manifest.MoveDiffIds` | pkg/converter/convert_unix.go:1130-1135 | diff IDs in layer order, and the annotation gone from every layer |
| `Manifest.StrippedMeans` | pkg/converter/convert_unix.go:1130-1135 | each layer loses that annotation and nothing else |
| `Manifest.ConvertManifest` | pkg/converter/convert_unix.go:1096-1143 | layers, diff IDs and labels are index-aligned: source blobs, dictionary-only blobs unless layers refer to OCI layers, bootstrap; refused exactly when a needed reference is no digest; a nydus image is left alone |
| `Manifest.MakeBlobs` | pkg/converter/convert_unix.go:1295-1328 | each blob has its digest as diff ID, and the annotations for OCI references and encryption |
| `Manifest.Reconvert` | pkg/converter/reconvert_unix.go:143-180 | the filtering loops |
| `Manifest.ClearedMeans` | pkg/converter/reconvert_unix.go:146-151 | a label goes exactly when it is a gc reference to a removed layer |
| `Manifest.ReconvertUndoes` | pkg/converter/reconvert_unix.go:143-180 | reconverting a converted image gives back blob layers and diff IDs, leaves exactly the labels that are no gc reference to the bootstrap, unchanged, and gives back the history if and only if no original entry looks like the marker |
| `Manifest.StaysInStep` | pkg/converter/reconvert_unix.go:143-168 | layers and diff IDs stay equally many if and only if there is at most one bootstrap layer |
| `CacheGc.ExtractBlobIdFromFilename` | pkg/cache/manager.go:133-152 | the name without the first suffix of the list that it has |
| `CacheGc.NamesAreExtracted` | pkg/cache/manager.go:100-152 | for IDs without dots the seven file names are exactly the names the ID is extracted from |
| `CacheGc.NamesDisjoint` | pkg/cache/manager.go:100-123 | different IDs have no file name in common |
| `CacheGc.RemoveBlobCache` | pkg/cache/manager.go:100-123 | exactly the blob's files go |
| `CacheGc.UsedBlobIds` | snapshot/snapshot.go:1298-1317 | the IDs of the underlying files of all instances |
| `CacheGc.UnusedCacheBlobs` | snapshot/snapshot.go:1325-1360 | the stored IDs that are not used |
| `CacheGc.Cleanup` | snapshot/snapshot.go:339-356 | a file of a valid digest stays if and only if an instance uses the blob; every other file stays |
| `Retry.Do` | pkg/utils/retry/retry.go:144-207 | the number of calls and the returned error or log, for every callback behaviour |
| `Retry.FinalIsFirstStop` | pkg/utils/retry/retry.go:171-200 | all calls before the last failed retryably, and the last succeeded, failed for good or used up the attempts |
| `Retry.NilIff` | pkg/utils/retry/retry.go:144-207 | nil if and only if a successful call is reached, or, reporting the last error only, an unrecoverable nil is reached or there is no attempt |
| `Retry.LogFrontLoaded` | pkg/utils/retry/retry.go:171-206 | in every returned log the non-nil errors come first |
| `Retry.LenWithoutNil` | pkg/utils/retry/retry.go:225-233 | counts the non-nil errors |
| `Retry.InRangeIff` | pkg/utils/retry/retry.go:214-223 | formatting a log stays in range if and only if the non-nil errors come first |
| `Retry.ErrorText` | pkg/utils/retry/retry.go:214-223 | for such logs, one line for each non-nil error, in order |
| `Retry.Equal` | pkg/filesystem/bootstrap.go:41-54 | the comparison loop decides equality of states |
| `Retry.Readiness.Call` | pkg/filesystem/bootstrap.go:68-83 | the closure remembers the last valid state and succeeds exactly on meeting it again |
| `Retry.ReadyIffConfirmed` | pkg/filesystem/bootstrap.go:61-97 | ready if and only if, within the attempts, two valid states agree with only invalid ones between, or no attempt is made |
| `DmVerity.LabelReadBack` | snapshot/mount_option.go:282-352 | the written label is read back, accepted if and only if the count is in 1 to 2^32-1, the offset is 4096-aligned and at least 512 times the count, and the hash has 64 hexadecimal digits |
| `DmVerity.ScanReadBack` | pkg/tarfs/tarfs.go:546-556 | count, offset and hash of every written label are recovered |
| `DmVerity.ScanIff` | snapshot/mount_option.go:282-303 | a text is scanned if and only if it is two 64-bit numbers, leading zeros allowed, with commas and the marked hash, which ends at white space |
| `DmVerity.ValidateMeans` | snapshot/mount_option.go:334-352 | what is accepted, with the true product of size and count |
| `DmVerity.NoOverflow` | snapshot/mount_option.go:347-349 | for every supported block size and accepted count the size product fits a uint64 |
| `Multipart.SplitFileByPartSize` | pkg/backend/oss.go:70-97 | refuses exactly a non-positive chunk size or 10000 full chunks; otherwise at most 10000 non-empty chunks, numbered from one, laid end to end over the blob |
| `Multipart.EachByteOnce` | pkg/backend/oss.go:70-97 | every byte of the blob is in exactly one chunk |

## Left out

- Commit failures and failed rollback-time removals in the snapshot protocol: the deferred deletion in Remove looks at an error that the final commit never sets, so the model takes commits and these removals to succeed.
- Names of temporary directories are fresh, and snapshot keys are numbered; the contents of snapshot directories do not appear.
- Symbolic links and `..` across them: overlay paths are compared as text, as the code does.
- Archive.SeekFileByTarHeader: header sizes are taken to be non-negative, and archive/tar is a function from bytes to a header.
- Toc.SeekFileByToc: zstd is a function from bytes to bytes; record reading is modelled on complete 128-byte records.
- BlobProxy.ContentProxy.Get: blobs located by tar header, successful writes and one request at a time; a blob found through the table of contents has the whole file's size as its length, and the handler has no lock.
- DaemonRefs.Filesystem.Umount: the steps on the daemon; the global instance cache and the kernel unmount are only their success.
- ManagerRuns.CachesIndexTheStore: daemon IDs are generated, so each is taken to belong to one driver, and managers are handed daemons of their own driver, as their callers do.
- Upgrades.RunsWithUpgradesAreSafe: fewer than 2^31 - 65536 mounts between two restarts, snapshot IDs that are not used again, what nydusd serves it unmounts, and record deletions that succeed; the takeover between the nydusd processes is not modelled.
- Upgrades.UpgradeSafeIff: whether nydusd agrees to unmount an instance it does not serve is not known, so both cases are stated; a failing unmount returns before the reference is looked at.
- Managers.Manager.Recover: supervisors, cgroups and daemon states are one probe for each daemon; event subscription, the global instance cache and the restart of dead daemons follow after it and are not modelled.
- ReadSeeker.OpenAligned: each open is a request of its own, as in Fetch; the reader of FetchByDigest reuses one request and keeps its Range header when it seeks back to the start.
- ReadSeeker.HttpReadSeeker.Read: errors of closing an old body are only logged by the code and do not appear.
- Schema1.Converter.FetchBlob: download, decompression and digests are one function from blob to state; a label that is reused holds what that function gave.
- Manifest.ConvertManifest: the case without a storage backend; the encryption of the bootstrap is a parameter, and sizes, media types, the config descriptor and the referrer are not modelled.
- CacheGc.Cleanup: drivers that cache in files, removals that succeed, and no directory under a cache file name.
- Retry.Do: delays, and the conversion of a negative attempt count to unsigned.
- DmVerity.ScanReadBack: the scan is modelled on texts of the written form; Sscanf also takes leading white space.
- Multipart.SplitFileByPartSize: blob sizes are non-negative, as sizes of stored content are.
- Multi-host fetching, basic and digest authentication, the order of several challenges, and JSON documents.
- The tarfs status machine, mount rollback, nydusd's API, metrics, configuration and process handling.
