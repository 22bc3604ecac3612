/**
 * The backups folder of one device: its snapshot directories, how the latest
 * predecessor is picked among them, and what an init or a backup writes into
 * the new snapshot.
 */
module SnapshotStore {
  import opened Wrappers
  import opened StringOrder
  import opened Lists
  import opened Fingerprints

  /** One tracked folder's staged increment: copied files and the deleted-paths manifest. */
  datatype Staged = Staged(copied: map<Path, MTime>, deleted: set<Path>)

  /** A snapshot's `to_transfer` directory, per tracked folder. */
  type Transfer = map<string, Staged>

  /**
   * An entry of the backups folder: a plain file, or a
   * directory that may hold a `file_info.json` and a `to_transfer` directory.
   */
  datatype Entry = File | Dir(info: Option<FileInfo>, transfer: Option<Transfer>)

  /** The backups folder: entry name to entry. */
  type Store = map<string, Entry>

  /** Why an operation of the backup manager stops. */
  datatype Error =
    | SnapshotExists                      // `os.makedirs` of the new snapshot raised
    | NoTrackedFolders                    // the device has no entry in the config
    | NoFoldersConfigured                 // the device's folder list is empty
    | NotInitialized(folders: set<string>) // configured folders the predecessor does not know
    | BackupFailed                        // `backup` caught an exception

  /** `names` is what `os.listdir` returns for `store`: each entry once. */
  ghost predicate IsListing(names: seq<string>, store: Store)
  {
    && (forall i, j :: 0 <= i < j < |names| ==> names[i] != names[j])
    && (forall n :: n in names <==> n in store)
  }

  /** `os.listdir` of the backups folder, in whatever order the folder yields. */
  method ListDir(store: Store) returns (names: seq<string>)
    ensures IsListing(names, store)
  {
    names := [];
    var pending := store.Keys;
    while pending != {}
      invariant pending <= store.Keys
      invariant forall n :: n in names <==> n in store.Keys - pending
      invariant forall i, j :: 0 <= i < j < |names| ==> names[i] != names[j]
      decreases |pending|
    {
      var n :| n in pending;
      assert n !in names;
      ghost var listed := names;
      names := names + [n];
      assert forall i :: 0 <= i < |listed| ==> names[i] == listed[i] && names[i] != n;
      pending := pending - {n};
    }
  }

  /** `[f for f in names if os.path.isdir(f)]`. */
  function Directories(names: seq<string>, store: Store): (r: seq<string>)
    ensures forall n :: n in r <==> n in names && n in store && store[n].Dir?
  {
    if names == [] then
      []
    else
      var n := names[0];
      assert names == [n] + names[1..];
      (if n in store && store[n].Dir? then [n] else []) + Directories(names[1..], store)
  }

  /** The snapshot directories a resolver may pick: every directory but the one being created. */
  function Candidates(store: Store, current: string): set<string>
  {
    set n | n in store && store[n].Dir? && n != current
  }

  /**
   * The filtered and reverse-sorted listing both resolvers walk: exactly the
   * candidates, greatest first.
   */
  lemma SortedSnapshotsAreCandidates(names: seq<string>, store: Store, current: string)
    requires IsListing(names, store)
    ensures var snapshots := SortDescending(RemoveAll(Directories(names, store), [current]));
      && Descending(snapshots)
      && forall n :: n in snapshots <==> n in Candidates(store, current)
  {
    var directories := Directories(names, store);
    var others := RemoveAll(directories, [current]);
    var snapshots := SortDescending(others);
    RemoveAllMembers(directories, [current]);
    forall n
      ensures n in snapshots <==> n in Candidates(store, current)
    {
      calc {
        n in snapshots;
        n in multiset(snapshots);
        n in multiset(others);
        n in others;
        n in directories && n != current;
        n in store && store[n].Dir? && n != current;
        n in Candidates(store, current);
      }
    }
  }

  /**
   * The first entry of the reverse-sorted candidates that holds a file info is
   * the greatest complete candidate.
   */
  lemma FirstCompleteIsLatest(snapshots: seq<string>, store: Store, current: string, i: int)
    requires Descending(snapshots)
    requires forall n :: n in snapshots <==> n in Candidates(store, current)
    requires 0 <= i < |snapshots| && snapshots[i] in Complete(store, current)
    requires forall k :: 0 <= k < i ==> snapshots[k] !in Complete(store, current)
    ensures IsGreatest(Complete(store, current), snapshots[i])
  {
    forall m | m in Complete(store, current)
      ensures !Less(snapshots[i], m)
    {
      assert m in snapshots;
      var j :| 0 <= j < |snapshots| && snapshots[j] == m;
      if j == i {
        LessIrreflexive(m);
      }
    }
  }

  /** When no entry of the candidates holds a file info, there is no complete candidate. */
  lemma NoneCompleteMeansEmpty(snapshots: seq<string>, store: Store, current: string)
    requires forall n :: n in snapshots <==> n in Candidates(store, current)
    requires forall k :: 0 <= k < |snapshots| ==> snapshots[k] !in Complete(store, current)
    ensures Complete(store, current) == {}
  {
    forall m | m in Complete(store, current)
      ensures false
    {
    }
  }

  /** The candidates that hold a `file_info.json`. */
  function Complete(store: Store, current: string): set<string>
  {
    set n | n in Candidates(store, current) && store[n].info.Some?
  }

  /**
   * `info` is what `_get_previous_backup_info` of main.py returns: the file
   * info of the greatest complete candidate, or `{}` when there is none.
   */
  ghost predicate IsPredecessorInfo(store: Store, current: string, info: FileInfo)
  {
    && (Complete(store, current) == {} ==> info == map[])
    && (forall n :: IsGreatest(Complete(store, current), n) ==> info == store[n].info.value)
  }

  /**
   * `info` is what `_get_previous_backup_info` of main2.py returns: the file
   * info of the greatest candidate, or `{}` when there is none or it has no
   * file info.
   */
  ghost predicate IsPredecessorInfoV2(store: Store, current: string, info: FileInfo)
  {
    && (Candidates(store, current) == {} ==> info == map[])
    && (forall n :: IsGreatest(Candidates(store, current), n) ==>
          info == if store[n].info.Some? then store[n].info.value else map[])
  }

  /** The predecessor info of main.py exists and is unique. */
  lemma PredecessorInfoDetermined(store: Store, current: string, a: FileInfo, b: FileInfo)
    ensures exists info :: IsPredecessorInfo(store, current, info)
    ensures IsPredecessorInfo(store, current, a) && IsPredecessorInfo(store, current, b) ==> a == b
  {
    var c := Complete(store, current);
    if c == {} {
      assert IsPredecessorInfo(store, current, map[]);
    } else {
      GreatestExists(c);
      var n :| IsGreatest(c, n);
      forall m | IsGreatest(c, m)
        ensures m == n
      {
        GreatestUnique(c, m, n);
      }
      assert IsPredecessorInfo(store, current, store[n].info.value);
    }
  }

  /** The predecessor info of main2.py exists and is unique. */
  lemma PredecessorInfoV2Determined(store: Store, current: string, a: FileInfo, b: FileInfo)
    ensures exists info :: IsPredecessorInfoV2(store, current, info)
    ensures IsPredecessorInfoV2(store, current, a) && IsPredecessorInfoV2(store, current, b) ==> a == b
  {
    var c := Candidates(store, current);
    if c == {} {
      assert IsPredecessorInfoV2(store, current, map[]);
    } else {
      GreatestExists(c);
      var n :| IsGreatest(c, n);
      forall m | IsGreatest(c, m)
        ensures m == n
      {
        GreatestUnique(c, m, n);
      }
      var info := if store[n].info.Some? then store[n].info.value else map[];
      assert IsPredecessorInfoV2(store, current, info);
    }
  }

  /** Creating the new snapshot directory does not change what the resolvers see. */
  lemma CurrentIsIgnored(store: Store, current: string, e: Entry)
    ensures Candidates(store[current := e], current) == Candidates(store, current)
    ensures Complete(store[current := e], current) == Complete(store, current)
    ensures forall info :: IsPredecessorInfo(store[current := e], current, info) <==> IsPredecessorInfo(store, current, info)
    ensures forall info :: IsPredecessorInfoV2(store[current := e], current, info) <==> IsPredecessorInfoV2(store, current, info)
  {
    var s' := store[current := e];
    assert Candidates(s', current) == Candidates(store, current);
    assert Complete(s', current) == Complete(store, current);
  }

  /** A newer candidate than the chosen complete snapshot has no file info: it was skipped. */
  lemma NewerSnapshotsAreIncomplete(store: Store, current: string, n: string, m: string)
    requires IsGreatest(Complete(store, current), n)
    requires m in Candidates(store, current) && Less(n, m)
    ensures store[m].info.None?
  {
  }

  /**
   * `init_backup`'s merge: every folder initialized now maps to its fresh
   * scan, every other folder of the predecessor keeps its fingerprint, and
   * there are no other keys.
   */
  ghost predicate IsInitMerge(merged: FileInfo, folders: seq<string>, disk: Disk, prev: FileInfo)
  {
    && (forall f :: f in merged <==> f in folders || f in prev)
    && (forall f :: f in folders ==> merged[f] == Scan(disk, f))
    && (forall f :: f in prev && f !in folders ==> merged[f] == prev[f])
  }

  /** The first loop of `init_backup` (main.py and main2.py): scans each folder to initialize. */
  method ScanFolders(disk: Disk, foldersToTrack: seq<string>) returns (fileInfo: FileInfo)
    ensures forall f :: f in fileInfo <==> f in foldersToTrack
    ensures forall f :: f in fileInfo ==> fileInfo[f] == Scan(disk, f)
  {
    fileInfo := map[];
    for i := 0 to |foldersToTrack|
      invariant forall f :: f in fileInfo <==> f in foldersToTrack[..i]
      invariant forall f :: f in fileInfo ==> fileInfo[f] == Scan(disk, f)
    {
      assert foldersToTrack[..i + 1] == foldersToTrack[..i] + [foldersToTrack[i]];
      var folderInfo := GatherFileInfo(Walk(disk, foldersToTrack[i]));
      fileInfo := fileInfo[foldersToTrack[i] := folderInfo];
    }
    assert foldersToTrack[..|foldersToTrack|] == foldersToTrack;
  }

  /**
   * The second loop of `init_backup` (main.py and main2.py): adds each folder of the predecessor
   * that the first loop did not scan, with its previous fingerprint.
   */
  method CarryOver(scanned: FileInfo, prev: FileInfo)
    returns (fileInfo: FileInfo)
    ensures forall f :: f in fileInfo <==> f in scanned || f in prev
    ensures forall f :: f in scanned ==> fileInfo[f] == scanned[f]
    ensures forall f :: f in prev && f !in scanned ==> fileInfo[f] == prev[f]
  {
    fileInfo := scanned;
    var pending := prev.Keys;
    while pending != {}
      invariant pending <= prev.Keys
      invariant forall f :: f in fileInfo <==> f in scanned || (f in prev && f !in pending)
      invariant forall f :: f in scanned ==> fileInfo[f] == scanned[f]
      invariant forall f :: f in fileInfo && f !in scanned ==> fileInfo[f] == prev[f]
      decreases |pending|
    {
      var folder :| folder in pending;
      if folder !in fileInfo {
        fileInfo := fileInfo[folder := prev[folder]];
      }
      pending := pending - {folder};
    }
  }

  /** After an init, `current` is a new directory holding exactly a merged file info. */
  ghost predicate InitSnapshotWritten(before: Store, after: Store, current: string, folders: seq<string>, disk: Disk, prev: FileInfo)
  {
    && current !in before
    && current in after && after[current].Dir? && after[current].info.Some? && after[current].transfer.None?
    && after == before[current := after[current]]
    && IsInitMerge(after[current].info.value, folders, disk, prev)
  }

  /** `backup`'s new file info: each configured folder mapped to its fresh scan. */
  function BackupFileInfo(configured: set<string>, disk: Disk): (info: FileInfo)
    ensures info.Keys == configured
  {
    map f | f in configured :: Scan(disk, f)
  }

  /** `backup`'s `to_transfer` content: per configured folder, its diff against the predecessor. */
  function BackupTransfer(configured: set<string>, disk: Disk, prev: FileInfo): (t: Transfer)
    requires configured <= prev.Keys
    ensures t.Keys == configured
  {
    map f | f in configured :: Staged(ChangedFiles(Scan(disk, f), prev[f]), DeletedPaths(Scan(disk, f), prev[f]))
  }

  /** `os.makedirs` of `current/to_transfer` succeeds. */
  predicate CanStage(store: Store, current: string)
  {
    current !in store || (store[current].Dir? && store[current].transfer.None?)
  }

  /**
   * What `backup` of main.py does to the backups folder, given the configured
   * folders and the predecessor's file info: it stops, writing nothing, when no
   * folder is configured, when a configured folder is missing from the
   * predecessor, or when the staging directory cannot be created; otherwise it
   * writes the staged diff and a file info of exactly the configured folders.
   */
  ghost predicate BackupWrites(before: Store, after: Store, current: string, configured: set<string>,
                               disk: Disk, prev: FileInfo, outcome: Outcome<Error>)
  {
    if configured == {} then
      outcome == Fail(NoFoldersConfigured) && after == before
    else if !(configured <= prev.Keys) then
      outcome == Fail(NotInitialized(configured - prev.Keys)) && after == before
    else if !CanStage(before, current) then
      outcome == Fail(BackupFailed) && after == before
    else
      && outcome == Pass
      && after == before[current := Dir(Some(BackupFileInfo(configured, disk)),
                                        Some(BackupTransfer(configured, disk, prev)))]
  }

  /**
   * A snapshot written with file info `info` under a name greater than every
   * other complete snapshot is the one the next run of main.py resolves to.
   */
  lemma WrittenSnapshotIsNextPredecessor(before: Store, current: string, e: Entry, next: string, prev: FileInfo)
    requires e.Dir? && e.info.Some? && current != next
    requires forall n :: n in Complete(before, next) && n != current ==> Less(n, current)
    requires IsPredecessorInfo(before[current := e], next, prev)
    ensures prev == e.info.value
  {
    var after := before[current := e];
    var c := Complete(after, next);
    assert current in c;
    forall m | m in c
      ensures !Less(current, m)
    {
      if m == current {
        LessIrreflexive(current);
      } else {
        assert m in Complete(before, next);
        LessAsymmetric(m, current);
      }
    }
    assert IsGreatest(c, current);
  }

  /**
   * After a successful backup, the next run of main.py, with nothing changed
   * on disk, finds that backup as its predecessor and stages nothing.
   */
  lemma BackupThenUnchangedBackupStagesNothing(before: Store, after: Store, current: string, configured: set<string>,
                                                disk: Disk, prev: FileInfo, next: string, prev2: FileInfo)
    requires BackupWrites(before, after, current, configured, disk, prev, Pass)
    requires current != next
    requires forall n :: n in Complete(before, next) && n != current ==> Less(n, current)
    requires IsPredecessorInfo(after, next, prev2)
    ensures configured <= prev2.Keys
    ensures forall f :: f in configured ==> BackupTransfer(configured, disk, prev2)[f] == Staged(map[], {})
  {
    WrittenSnapshotIsNextPredecessor(before, current, after[current], next, prev2);
    forall f | f in configured
      ensures BackupTransfer(configured, disk, prev2)[f] == Staged(map[], {})
    {
      IdenticalScansStageNothing(Scan(disk, f));
    }
  }

  /**
   * After an init, the next run of main.py, with nothing changed on disk,
   * finds the init as its predecessor: a backup of initialized folders stages
   * nothing.
   */
  lemma InitThenUnchangedBackupStagesNothing(before: Store, after: Store, current: string, folders: seq<string>,
                                              disk: Disk, prev: FileInfo, next: string, prev2: FileInfo, configured: set<string>)
    requires InitSnapshotWritten(before, after, current, folders, disk, prev)
    requires current != next
    requires forall n :: n in Complete(before, next) && n != current ==> Less(n, current)
    requires IsPredecessorInfo(after, next, prev2)
    requires forall f :: f in configured ==> f in folders
    ensures configured <= prev2.Keys
    ensures forall f :: f in configured ==> BackupTransfer(configured, disk, prev2)[f] == Staged(map[], {})
  {
    WrittenSnapshotIsNextPredecessor(before, current, after[current], next, prev2);
    forall f | f in configured
      ensures BackupTransfer(configured, disk, prev2)[f] == Staged(map[], {})
    {
      IdenticalScansStageNothing(Scan(disk, f));
    }
  }
}
