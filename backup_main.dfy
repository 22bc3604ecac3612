/**
 * `BackupManager` of main.py: the device's tracked-folder configuration, the
 * latest-snapshot resolver that skips snapshots without a file info, init
 * with merge-forward, and the incremental backup.
 */
module BackupMain {
  import opened Wrappers
  import opened StringOrder
  import opened Lists
  import opened Fingerprints
  import opened SnapshotStore

  class BackupManager {
    /** The backup device this manager works for. */
    const deviceName: string
    /** The name of the snapshot directory this run creates (a timestamp). */
    const newSnapshot: string
    /** `config_data['backup_locations']`, or `None` when the config has no such key. */
    var locations: Option<map<string, seq<string>>>
    /** The `backup_locations` of the config file on disk. */
    var savedLocations: Option<map<string, seq<string>>>
    /** The device's backups folder. */
    var backups: Store

    /** `__init__`: the config is what the config file held; the snapshot name is given. */
    constructor (deviceName: string, newSnapshot: string, saved: Option<map<string, seq<string>>>, backups: Store)
      ensures this.deviceName == deviceName && this.newSnapshot == newSnapshot
      ensures locations == saved && savedLocations == saved && this.backups == backups
    {
      this.deviceName := deviceName;
      this.newSnapshot := newSnapshot;
      locations := saved;
      savedLocations := saved;
      this.backups := backups;
    }

    /** The config has an entry for this device. */
    predicate HasDevice()
      reads this
    {
      locations.Some? && deviceName in locations.value
    }

    /** `backup_locations` as a map, empty when the key is missing. */
    function Locations(): map<string, seq<string>>
      reads this
    {
      if locations.Some? then locations.value else map[]
    }

    /** `get_tracked_folders`: the device's list, and no folder at all for an unknown device. */
    function TrackedFolders(): (folders: seq<string>)
      reads this
      ensures HasDevice() <==> deviceName in Locations()
      ensures !HasDevice() ==> folders == []
    {
      if HasDevice() then locations.value[deviceName] else []
    }

    /** `_save_config`. */
    method SaveConfig()
      modifies this`savedLocations
      ensures savedLocations == locations
    {
      savedLocations := locations;
    }

    /**
     * `add_folders`: appends the folders, duplicates included, creating the
     * device entry if needed, and saves the config.
     */
    method AddFolders(foldersToAdd: seq<string>)
      modifies this
      ensures HasDevice() && TrackedFolders() == old(TrackedFolders()) + foldersToAdd
      ensures locations == Some(old(Locations())[deviceName := old(TrackedFolders()) + foldersToAdd])
      ensures savedLocations == locations && backups == old(backups)
    {
      ghost var tracked := TrackedFolders();
      ghost var before := Locations();
      if locations.None? {
        locations := Some(map[]);
      }
      if deviceName !in locations.value {
        locations := Some(locations.value[deviceName := []]);
      }
      assert locations.value == before[deviceName := tracked];
      locations := Some(locations.value[deviceName := locations.value[deviceName] + foldersToAdd]);
      assert locations.value == before[deviceName := tracked + foldersToAdd];
      SaveConfig();
    }

    /**
     * `remove_folders`: keeps, in order, the folders not being removed and
     * saves the config; does nothing for a device without an entry.
     */
    method RemoveFolders(foldersToRemove: seq<string>)
      modifies this
      ensures old(HasDevice()) ==> HasDevice() && TrackedFolders() == RemoveAll(old(TrackedFolders()), foldersToRemove)
      ensures old(HasDevice()) ==>
        locations == Some(old(Locations())[deviceName := RemoveAll(old(TrackedFolders()), foldersToRemove)])
        && savedLocations == locations
      ensures !old(HasDevice()) ==> locations == old(locations) && savedLocations == old(savedLocations)
      ensures backups == old(backups)
    {
      if HasDevice() {
        var currentFolders := locations.value[deviceName];
        var updatedFolders := RemoveAll(currentFolders, foldersToRemove);
        locations := Some(locations.value[deviceName := updatedFolders]);
        SaveConfig();
      }
    }

    /**
     * `_get_folder_with_latest_snapshot`: among the directories of the backups
     * folder other than the new snapshot, sorted in reverse, the first with a
     * file info; `None` when no such directory has one.
     */
    method FolderWithLatestSnapshot() returns (folder: Option<string>)
      ensures folder.None? <==> Complete(backups, newSnapshot) == {}
      ensures folder.Some? ==> IsGreatest(Complete(backups, newSnapshot), folder.value)
    {
      var names := ListDir(backups);
      var snapshots := Directories(names, backups);
      snapshots := RemoveAll(snapshots, [newSnapshot]);
      snapshots := SortDescending(snapshots);
      SortedSnapshotsAreCandidates(names, backups, newSnapshot);
      for i := 0 to |snapshots|
        invariant forall k :: 0 <= k < i ==> snapshots[k] !in Complete(backups, newSnapshot)
      {
        assert snapshots[i] in Candidates(backups, newSnapshot);
        if backups[snapshots[i]].info.Some? {
          assert snapshots[i] in Complete(backups, newSnapshot);
          FirstCompleteIsLatest(snapshots, backups, newSnapshot, i);
          return Some(snapshots[i]);
        }
      }
      NoneCompleteMeansEmpty(snapshots, backups, newSnapshot);
      return None;
    }

    /**
     * `_get_previous_backup_info`: the file info of the latest complete
     * snapshot, or `{}`.
     */
    method PreviousBackupInfo() returns (info: FileInfo)
      ensures IsPredecessorInfo(backups, newSnapshot, info)
    {
      var folder := FolderWithLatestSnapshot();
      if folder.Some? && backups[folder.value].info.Some? {
        info := backups[folder.value].info.value;
        forall n | IsGreatest(Complete(backups, newSnapshot), n)
          ensures n == folder.value
        {
          GreatestUnique(Complete(backups, newSnapshot), n, folder.value);
        }
      } else {
        info := map[];
      }
    }

    /** `_save_file_info` into the new snapshot directory. */
    method SaveFileInfo(fileInfo: FileInfo)
      requires newSnapshot in backups && backups[newSnapshot].Dir?
      modifies this`backups
      ensures backups == old(backups)[newSnapshot := Dir(Some(fileInfo), old(backups)[newSnapshot].transfer)]
    {
      backups := backups[newSnapshot := Dir(Some(fileInfo), backups[newSnapshot].transfer)];
    }

    /**
     * `init_backup`: creates the new snapshot directory, scans the given
     * folders, carries every other folder of the predecessor over, and saves
     * the merged file info. Creating a directory that already exists raises.
     */
    method InitBackup(disk: Disk, foldersToTrack: seq<string>) returns (outcome: Outcome<Error>)
      modifies this
      ensures locations == old(locations) && savedLocations == old(savedLocations)
      ensures old(newSnapshot in backups) ==> outcome == Fail(SnapshotExists) && backups == old(backups)
      ensures old(newSnapshot !in backups) ==>
        && outcome == Pass
        && exists prev :: IsPredecessorInfo(old(backups), newSnapshot, prev)
                       && InitSnapshotWritten(old(backups), backups, newSnapshot, foldersToTrack, disk, prev)
    {
      if newSnapshot in backups {
        return Fail(SnapshotExists);
      }
      backups := backups[newSnapshot := Dir(None, None)];

      var fileInfo := ScanFolders(disk, foldersToTrack);
      var prev := PreviousBackupInfo();
      CurrentIsIgnored(old(backups), newSnapshot, Dir(None, None));
      fileInfo := CarryOver(fileInfo, prev);
      SaveFileInfo(fileInfo);
      assert InitSnapshotWritten(old(backups), backups, newSnapshot, foldersToTrack, disk, prev);
      return Pass;
    }

    /**
     * `init_all_backups`: an init of exactly the configured list when the
     * device has an entry; otherwise an error and no snapshot.
     */
    method InitAllBackups(disk: Disk) returns (outcome: Outcome<Error>)
      modifies this
      ensures locations == old(locations) && savedLocations == old(savedLocations)
      ensures !HasDevice() ==> outcome == Fail(NoTrackedFolders) && backups == old(backups)
      ensures HasDevice() && old(newSnapshot in backups) ==> outcome == Fail(SnapshotExists) && backups == old(backups)
      ensures HasDevice() && old(newSnapshot !in backups) ==>
        && outcome == Pass
        && exists prev :: IsPredecessorInfo(old(backups), newSnapshot, prev)
                       && InitSnapshotWritten(old(backups), backups, newSnapshot, TrackedFolders(), disk, prev)
    {
      if HasDevice() {
        var foldersToTrack := locations.value[deviceName];
        outcome := InitBackup(disk, foldersToTrack);
      } else {
        outcome := Fail(NoTrackedFolders);
      }
    }

    /**
     * The per-folder loop of `backup`: scans each configured folder, copies its
     * changed files and lists its deleted paths against the predecessor.
     */
    static method StageFolders(configured: set<string>, disk: Disk, prev: FileInfo)
      returns (fileInfo: FileInfo, transfer: Transfer)
      requires configured <= prev.Keys
      ensures fileInfo == BackupFileInfo(configured, disk)
      ensures transfer == BackupTransfer(configured, disk, prev)
    {
      fileInfo, transfer := map[], map[];
      var pending := configured;
      while pending != {}
        invariant pending <= configured
        invariant forall f :: f in fileInfo <==> f in configured && f !in pending
        invariant forall f :: f in transfer <==> f in configured && f !in pending
        invariant forall f :: f in fileInfo ==> fileInfo[f] == Scan(disk, f)
        invariant forall f :: f in transfer ==>
          transfer[f] == Staged(ChangedFiles(Scan(disk, f), prev[f]), DeletedPaths(Scan(disk, f), prev[f]))
        decreases |pending|
      {
        var folder :| folder in pending;
        var previousSnapshotInfo := prev[folder];
        var folderInfo := GatherFileInfo(Walk(disk, folder));
        fileInfo := fileInfo[folder := folderInfo];
        var copied := CopyChanged(folderInfo, previousSnapshotInfo);
        var deleted := DeletedManifest(folderInfo, previousSnapshotInfo);
        transfer := transfer[folder := Staged(copied, deleted)];
        pending := pending - {folder};
      }
    }

    /**
     * `backup`: diffs each configured folder against the predecessor's file
     * info, stages the changed files and the deleted paths, and saves a file
     * info of exactly the configured folders. It stops without writing when no
     * folder is configured, when a configured folder was never initialized, or
     * when the staging directory cannot be created.
     */
    method Backup(disk: Disk) returns (outcome: Outcome<Error>)
      modifies this
      ensures locations == old(locations) && savedLocations == old(savedLocations)
      ensures exists prev :: IsPredecessorInfo(old(backups), newSnapshot, prev)
                          && BackupWrites(old(backups), backups, newSnapshot, (set f | f in TrackedFolders()), disk, prev, outcome)
    {
      var prev := PreviousBackupInfo();
      var configured := set f | f in TrackedFolders();

      if configured == {} {
        return Fail(NoFoldersConfigured);
      }
      var uninitialized := configured - prev.Keys;
      if uninitialized != {} {
        return Fail(NotInitialized(uninitialized));
      }

      assert configured <= prev.Keys by {
        forall f | f in configured
          ensures f in prev.Keys
        {
          assert f !in uninitialized;
        }
      }
      // os.makedirs of the staging directory
      if !CanStage(backups, newSnapshot) {
        return Fail(BackupFailed);
      }
      var info := if newSnapshot in backups then backups[newSnapshot].info else None;
      backups := backups[newSnapshot := Dir(info, Some(map[]))];

      var fileInfo, transfer := StageFolders(configured, disk, prev);
      backups := backups[newSnapshot := Dir(info, Some(transfer))];
      SaveFileInfo(fileInfo);
      assert BackupWrites(old(backups), backups, newSnapshot, configured, disk, prev, Pass);
      return Pass;
    }
  }
}
