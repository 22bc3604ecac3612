# BackupBuddy snapshot chain and diff, in Dafny

This project models the core of BackupBuddy's `BackupManager`. The tool makes
incremental, snapshot-based backups of a device's tracked folders. Each run
creates a snapshot directory in the device's backups folder, named by a
timestamp. The snapshot records a `file_info.json`: for every tracked folder, a
fingerprint mapping each file's relative path to its modification time. A
backup compares fresh scans with the latest earlier snapshot that has a
`file_info.json`. It copies new and modified files into `to_transfer` and
writes one deleted-paths manifest per folder.

There are two variants of the manager, and both are modelled:

- `main.py` (module `BackupMain`): configuration, a resolver that skips
  snapshots without a file info, init with merge-forward, init-all, and backup.
- `main2.py` (module `BackupMain2`): the earlier variant. Its configuration and
  init are the same. Its resolver takes the newest other directory whether or
  not it has a file info. It has no backup.

Shared pieces:

- `StringOrder`: Python's `str` ordering, `sorted(..., reverse=True)` as an
  insertion sort proved to give a descending permutation, and the greatest
  element of a set, which exists and is unique.
- `Lists`: the list comprehension that filters one list by another.
- `Fingerprints`: the scan shape (`_gather_file_info`) and the change and
  deletion tests of `backup`. It also defines a reference "apply" step, under
  which the staged increment rebuilds the new scan.
- `SnapshotStore`: entries of the backups folder, the predecessor predicates of
  both variants, the two loops of `init_backup`, and what init and backup write.

The managers are classes whose methods update three fields in place:

- `locations`: `config_data['backup_locations']`.
- `savedLocations`: the config file's copy of it.
- `backups`: the contents of the backups folder.

The tracked trees on disk (`Disk`: per root, the files a walk reports, with
their modification times) are a read-only parameter. Operation failures are
`Outcome` values instead of log lines or exceptions.

The source behaves as follows, and the model does the same:

- A snapshot without a file info is never an error when read. `main.py` skips
  it. `main2.py` yields `{}` for it.
- Backup before any init reports the configured folders as not initialized.
  There is no separate "no predecessor" error.
- Tracked folders form a list that keeps duplicates, and the manager itself
  changes the config.
- A name collision when creating the snapshot aborts `init_backup`. In
  `backup`, a failure to create `to_transfer` is caught and reported as
  "Backup failed".
- Files are written directly. No write is atomic.

## Model

| member | source | states |
|---|---|---|
| StringOrder.LessIrreflexive | main.py:114 | no snapshot name sorts before itself |
| StringOrder.LessTransitive | main.py:114 | Python string order is transitive |
| StringOrder.LessTotal | main.py:114 | two different names are always ordered one way or the other |
| StringOrder.LessAsymmetric | main.py:114 | two names are never each smaller than the other |
| StringOrder.Insert | main.py:114 | inserting into a descending list keeps it descending and adds exactly the one element |
| StringOrder.SortDescending | main.py:113-114 | `sorted(reverse=True)` yields a permutation of the names in descending order |
| StringOrder.DescendingHeadIsGreatest | main2.py:103-107 | the head of the reverse-sorted list is at least every name in it |
| StringOrder.GreatestUnique | main.py:113-119 | a set of names has at most one greatest name |
| StringOrder.GreatestExists | main.py:113-119 | every non-empty set of names has a greatest name |
| Lists.RemoveAllMembers | main.py:61 | a folder is kept exactly when it was tracked and is not being removed |
| Lists.RemoveAllCounts | main.py:61 | each kept folder keeps its multiplicity; removed folders vanish entirely |
| Lists.RemoveAllAppend | main.py:61 | the filter distributes over concatenation, so kept folders stay in order |
| Lists.RemoveAllIdempotent | main.py:58-63 | removing the same folders twice equals removing them once |
| Fingerprints.FromWalkShape | main.py:121-129 | a scan has one key per reported relative path, holding the last reported mtime for it |
| Fingerprints.GatherFileInfo | main.py:121-129 | the scan loop builds exactly the walk's fingerprint |
| Fingerprints.DistinctWalkRecordsEveryFile | main.py:121-129 | when each file is reported once, every file is recorded with its own mtime |
| Fingerprints.CopyChanged | main.py:177-188 | the copy loop copies exactly the files that are new or have a different mtime, with their current mtime |
| Fingerprints.DeletedManifest | main.py:190-195 | the manifest loop lists exactly the previous paths absent from the new scan |
| Fingerprints.IdenticalScansStageNothing | main.py:178-195 | diffing a scan against itself copies nothing and deletes nothing |
| Fingerprints.FirstBackupCopiesEverything | main.py:178-195 | against an empty predecessor every file is copied and none is deleted |
| Fingerprints.DiffPartition | main.py:178-195 | changed, deleted and unchanged paths are disjoint and cover both scans |
| Fingerprints.StagingRebuildsScan | main.py:177-195 | removing the deleted paths from the previous scan and adding the copied files gives the new scan |
| Fingerprints.ModifiedDeletedAddedScenario | main.py:168-195 | a modified and an added file are copied; a removed file is the only manifest entry |
| SnapshotStore.ListDir | main.py:103 | the listing names every entry of the backups folder exactly once |
| SnapshotStore.Directories | main.py:105-107 | keeps exactly the listed names that are directories |
| SnapshotStore.SortedSnapshotsAreCandidates | main.py:102-114 | the filtered, reverse-sorted list is descending and holds exactly the directories other than the new snapshot |
| SnapshotStore.FirstCompleteIsLatest | main.py:116-118 | the first sorted entry with a file info is the greatest complete snapshot |
| SnapshotStore.NoneCompleteMeansEmpty | main.py:116-119 | if no sorted entry has a file info, no complete snapshot exists |
| SnapshotStore.PredecessorInfoDetermined | main.py:91-99 | main.py's predecessor info always exists and is unique |
| SnapshotStore.PredecessorInfoV2Determined | main2.py:81-89 | main2.py's predecessor info always exists and is unique |
| SnapshotStore.CurrentIsIgnored | main.py:109-111 | creating or changing the new snapshot's directory changes neither resolver's answer |
| SnapshotStore.NewerSnapshotsAreIncomplete | main.py:116-118 | every snapshot newer than the chosen one lacks a file info |
| SnapshotStore.ScanFolders | main.py:74-77 | the first init loop maps exactly the given folders, each to its fresh scan |
| SnapshotStore.CarryOver | main.py:82-85 | the second init loop keeps every scanned folder and adds each other predecessor folder unchanged |
| SnapshotStore.BackupFileInfo | main.py:168-174 | the new file info has exactly the configured folders as keys |
| SnapshotStore.BackupTransfer | main.py:170-195 | `to_transfer` has exactly one staged entry per configured folder |
| SnapshotStore.WrittenSnapshotIsNextPredecessor | main.py:101-119 | a snapshot saved under a name above every other complete one is the next run's predecessor |
| SnapshotStore.BackupThenUnchangedBackupStagesNothing | main.py:147-201 | after a backup, a second backup over an unchanged disk finds it and stages nothing |
| SnapshotStore.InitThenUnchangedBackupStagesNothing | main.py:69-88 | after an init, a backup of the initialized folders over an unchanged disk stages nothing |
| BackupMain.BackupManager.constructor | main.py:15-21 | the manager starts with the loaded config and the given backups folder |
| BackupMain.BackupManager.TrackedFolders | main.py:43-47 | a device without a config entry has no tracked folders |
| BackupMain.BackupManager.SaveConfig | main.py:38-41 | the saved config equals the config in memory |
| BackupMain.BackupManager.AddFolders | main.py:49-56 | appends the folders in order, keeps duplicates, creates the entry if missing, saves, changes no other device |
| BackupMain.BackupManager.RemoveFolders | main.py:58-63 | filters the device's list and saves; an unknown device leaves config and saved config unchanged |
| BackupMain.BackupManager.FolderWithLatestSnapshot | main.py:101-119 | returns the greatest directory other than the new snapshot that has a file info; None only if there is none |
| BackupMain.BackupManager.PreviousBackupInfo | main.py:91-99 | returns that snapshot's file info, or `{}` when there is none |
| BackupMain.BackupManager.SaveFileInfo | main.py:131-134 | writes the file info into the new snapshot and keeps its staging |
| BackupMain.BackupManager.InitBackup | main.py:69-89 | if the snapshot name exists, raises and writes nothing; else adds only the new snapshot, holding the merge of fresh scans over the predecessor |
| BackupMain.BackupManager.InitAllBackups | main.py:136-141 | inits exactly the configured list when the device has an entry; otherwise errors and writes nothing |
| BackupMain.BackupManager.StageFolders | main.py:170-195 | scans every configured folder and stages its diff against the predecessor |
| BackupMain.BackupManager.Backup | main.py:147-206 | no folders, an uninitialized folder, or a failed staging mkdir leave the folder unchanged; otherwise writes the diff and a file info of exactly the configured folders |
| BackupMain2.BackupManager.constructor | main2.py:11-17 | the manager starts with the loaded config and the given backups folder |
| BackupMain2.BackupManager.TrackedFolders | main2.py:34-38 | a device without a config entry has no tracked folders |
| BackupMain2.BackupManager.SaveConfig | main2.py:29-32 | the saved config equals the config in memory |
| BackupMain2.BackupManager.AddFolders | main2.py:40-47 | appends in order, creating `backup_locations` and the device entry if absent, and saves |
| BackupMain2.BackupManager.RemoveFolders | main2.py:49-54 | filters the removed folders out in order and saves; an unknown device changes nothing |
| BackupMain2.BackupManager.LatestPreviousBackupFolder | main2.py:91-108 | returns the greatest directory other than the new snapshot, with or without a file info; None if there is none |
| BackupMain2.BackupManager.PreviousBackupInfo | main2.py:81-89 | the newest other snapshot's file info, or `{}` when it has none; no fallback to older snapshots |
| BackupMain2.BackupManager.SaveFileInfo | main2.py:120-123 | writes the file info into the new snapshot |
| BackupMain2.BackupManager.InitBackup | main2.py:59-79 | fresh scans override the predecessor; every other predecessor folder is carried over unchanged |
| BackupMain2.BackupManager.InitAllBackups | main2.py:125-130 | inits exactly the configured list when the device has an entry; otherwise creates no snapshot |
| BackupMain2.IncompleteNewestSnapshotHidesOlderOne | main2.py:81-108 | for every backups folder whose newest other directory lacks a file info, main2.py yields `{}` while main.py yields the greatest complete snapshot's info |
| BackupMain2.InitAfterIncompleteSnapshotCarriesNothing | main2.py:59-79 | after such an interrupted run, main2.py's init keeps exactly the folders scanned now and carries no other folder over |
| BackupMain2.IncompleteNewestSnapshotExample | main2.py:81-108 | with a complete snapshot `a` and a newer, incomplete `b`, main2.py yields `{}` and main.py yields `a`'s info |

## Left out

- File copying is not modelled, so a staged copy records the file's scanned
  mtime. This covers `shutil.copy2` in `backup`, its OS errors, and copying
  the deletion helper script with `_copy_file`. The errors of `_copy_file`
  are swallowed anyway.
- Staging by `os.path.basename` is not modelled: `to_transfer` is keyed by the
  full tracked-folder path. In the source, two tracked folders with the same
  basename share one staging directory and one manifest file name.
- The manifest's line order is not modelled. The model's manifest is a set;
  the source writes paths in the previous scan's iteration order.
- The only exception `backup` catches in the model is the failed creation of
  `to_transfer`. Scan, JSON and copy errors inside its `try` are not modelled.
  Neither are partially written staging directories.
- The config file `new_config.json` is kept outside `backups`, as
  `savedLocations`. `_save_config` also creates the backups folder and the
  file in it, but no plain file of that folder changes what the resolvers
  pick, since they consider directories only.
- JSON loading and saving of the config and of `file_info.json` is not
  modelled. Keys of `config_data` other than `backup_locations` are not
  modelled. The loaded config is a constructor argument.
- The walk is not modelled. `os.walk`, `os.path.relpath` and `getmtime` become
  the `Disk` input: a list of relative paths with modification times per root.
  Path separators and symlink policy are outside the model.
- Modification times are integers compared by equality. The source's float
  times and clock resolution are not modelled.
- The snapshot name (`datetime.now()` formatted) is a constructor argument.
  The source sorts `backups_folder/name` paths. Those share one prefix, so the
  model sorts bare names.
- Logging (`setup_logging`, logger calls), `print` messages and the argparse
  `main` of both files are not modelled. The outcome of each operation is
  returned instead.
- `backup` in `main2.py` does not exist: its command-line default branch does
  nothing.
