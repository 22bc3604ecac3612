/**
 * `BackupManager` of main2.py, the earlier variant: the same tracked-folder
 * configuration and init with merge-forward, but a resolver that takes the
 * newest directory whether or not it holds a file info, and no backup.
 */
module BackupMain2 {
  import opened Wrappers
  import opened StringOrder
  import opened Lists
  import opened Fingerprints
  import opened SnapshotStore

  class BackupManager {
    /** The backup device this manager works for. */
    const deviceName: string
    /** The name of the snapshot directory this run creates (a timestamp). */
    const newSnapshot: string
    /** `config_data['backup_locations']`, or `None` when the config has no such key. */
    var locations: Option<map<string, seq<string>>>
    /** The `backup_locations` of the config file on disk. */
    var savedLocations: Option<map<string, seq<string>>>
    /** The device's backups folder. */
    var backups: Store

    /** `__init__`: the config is what the config file held; the snapshot name is given. */
    constructor (deviceName: string, newSnapshot: string, saved: Option<map<string, seq<string>>>, backups: Store)
      ensures this.deviceName == deviceName && this.newSnapshot == newSnapshot
      ensures locations == saved && savedLocations == saved && this.backups == backups
    {
      this.deviceName := deviceName;
      this.newSnapshot := newSnapshot;
      locations := saved;
      savedLocations := saved;
      this.backups := backups;
    }

    /** The config has an entry for this device. */
    predicate HasDevice()
      reads this
    {
      locations.Some? && deviceName in locations.value
    }

    /** `backup_locations` as a map, empty when the key is missing. */
    function Locations(): map<string, seq<string>>
      reads this
    {
      if locations.Some? then locations.value else map[]
    }

    /** `get_tracked_folders`: the device's list, and no folder at all for an unknown device. */
    function TrackedFolders(): (folders: seq<string>)
      reads this
      ensures HasDevice() <==> deviceName in Locations()
      ensures !HasDevice() ==> folders == []
    {
      if HasDevice() then locations.value[deviceName] else []
    }

    /** `_save_config`. */
    method SaveConfig()
      modifies this`savedLocations
      ensures savedLocations == locations
    {
      savedLocations := locations;
    }

    /**
     * `add_folders`: appends the folders, duplicates included, creating
     * `backup_locations` and the device entry if needed, and saves the config.
     */
    method AddFolders(foldersToAdd: seq<string>)
      modifies this
      ensures HasDevice() && TrackedFolders() == old(TrackedFolders()) + foldersToAdd
      ensures locations == Some(old(Locations())[deviceName := old(TrackedFolders()) + foldersToAdd])
      ensures savedLocations == locations && backups == old(backups)
    {
      ghost var tracked := TrackedFolders();
      ghost var before := Locations();
      if locations.None? {
        locations := Some(map[]);
      }
      if deviceName !in locations.value {
        locations := Some(locations.value[deviceName := []]);
      }
      assert locations.value == before[deviceName := tracked];
      locations := Some(locations.value[deviceName := locations.value[deviceName] + foldersToAdd]);
      assert locations.value == before[deviceName := tracked + foldersToAdd];
      SaveConfig();
    }

    /**
     * `remove_folders`: keeps, in order, the folders not being removed and
     * saves the config; does nothing for a device without an entry.
     */
    method RemoveFolders(foldersToRemove: seq<string>)
      modifies this
      ensures old(HasDevice()) ==> HasDevice() && TrackedFolders() == RemoveAll(old(TrackedFolders()), foldersToRemove)
      ensures old(HasDevice()) ==>
        locations == Some(old(Locations())[deviceName := RemoveAll(old(TrackedFolders()), foldersToRemove)])
        && savedLocations == locations
      ensures !old(HasDevice()) ==> locations == old(locations) && savedLocations == old(savedLocations)
      ensures backups == old(backups)
    {
      if HasDevice() {
        var currentFolders := locations.value[deviceName];
        var updatedFolders := RemoveAll(currentFolders, foldersToRemove);
        locations := Some(locations.value[deviceName := updatedFolders]);
        SaveConfig();
      }
    }

    /**
     * `_get_latest_previous_backup_folder`: the first of the directories other
     * than the new snapshot, sorted in reverse, file info or not; `None` when
     * there is no such directory.
     */
    method LatestPreviousBackupFolder() returns (folder: Option<string>)
      ensures folder.None? <==> Candidates(backups, newSnapshot) == {}
      ensures folder.Some? ==> IsGreatest(Candidates(backups, newSnapshot), folder.value)
    {
      var names := ListDir(backups);
      var snapshots := Directories(names, backups);
      snapshots := RemoveAll(snapshots, [newSnapshot]);
      snapshots := SortDescending(snapshots);
      SortedSnapshotsAreCandidates(names, backups, newSnapshot);
      if |snapshots| > 0 {
        assert snapshots[0] in Candidates(backups, newSnapshot);
        DescendingHeadIsGreatest(snapshots);
        return Some(snapshots[0]);
      }
      assert forall n :: n in Candidates(backups, newSnapshot) ==> n in snapshots;
      return None;
    }

    /**
     * `_get_previous_backup_info`: the file info of the newest other
     * snapshot, or `{}` when there is none or it holds no file info.
     */
    method PreviousBackupInfo() returns (info: FileInfo)
      ensures IsPredecessorInfoV2(backups, newSnapshot, info)
    {
      var folder := LatestPreviousBackupFolder();
      if folder.Some? && backups[folder.value].info.Some? {
        info := backups[folder.value].info.value;
      } else {
        info := map[];
      }
      forall n | IsGreatest(Candidates(backups, newSnapshot), n)
        ensures n == folder.value
      {
        GreatestUnique(Candidates(backups, newSnapshot), n, folder.value);
      }
    }

    /** `_save_file_info` into the new snapshot directory. */
    method SaveFileInfo(fileInfo: FileInfo)
      requires newSnapshot in backups && backups[newSnapshot].Dir?
      modifies this`backups
      ensures backups == old(backups)[newSnapshot := Dir(Some(fileInfo), old(backups)[newSnapshot].transfer)]
    {
      backups := backups[newSnapshot := Dir(Some(fileInfo), backups[newSnapshot].transfer)];
    }

    /**
     * `init_backup`: creates the new snapshot directory, scans the given
     * folders, carries every other folder of the predecessor over, and saves
     * the merged file info. Creating a directory that already exists raises.
     */
    method InitBackup(disk: Disk, foldersToTrack: seq<string>) returns (outcome: Outcome<Error>)
      modifies this
      ensures locations == old(locations) && savedLocations == old(savedLocations)
      ensures old(newSnapshot in backups) ==> outcome == Fail(SnapshotExists) && backups == old(backups)
      ensures old(newSnapshot !in backups) ==>
        && outcome == Pass
        && exists prev :: IsPredecessorInfoV2(old(backups), newSnapshot, prev)
                       && InitSnapshotWritten(old(backups), backups, newSnapshot, foldersToTrack, disk, prev)
    {
      if newSnapshot in backups {
        return Fail(SnapshotExists);
      }
      backups := backups[newSnapshot := Dir(None, None)];
      var fileInfo := ScanFolders(disk, foldersToTrack);
      var prev := PreviousBackupInfo();
      CurrentIsIgnored(old(backups), newSnapshot, Dir(None, None));
      fileInfo := CarryOver(fileInfo, prev);
      SaveFileInfo(fileInfo);
      assert InitSnapshotWritten(old(backups), backups, newSnapshot, foldersToTrack, disk, prev);
      return Pass;
    }

    /**
     * `init_all_backups`: an init of exactly the configured list when the
     * device has an entry; otherwise a message and no snapshot.
     */
    method InitAllBackups(disk: Disk) returns (outcome: Outcome<Error>)
      modifies this
      ensures locations == old(locations) && savedLocations == old(savedLocations)
      ensures !HasDevice() ==> outcome == Fail(NoTrackedFolders) && backups == old(backups)
      ensures HasDevice() && old(newSnapshot in backups) ==> outcome == Fail(SnapshotExists) && backups == old(backups)
      ensures HasDevice() && old(newSnapshot !in backups) ==>
        && outcome == Pass
        && exists prev :: IsPredecessorInfoV2(old(backups), newSnapshot, prev)
                       && InitSnapshotWritten(old(backups), backups, newSnapshot, TrackedFolders(), disk, prev)
    {
      if HasDevice() {
        var foldersToTrack := locations.value[deviceName];
        outcome := InitBackup(disk, foldersToTrack);
      } else {
        outcome := Fail(NoTrackedFolders);
      }
    }
  }

  /**
   * Where the two resolvers part: when the newest candidate has no file info
   * (an interrupted run), main2.py's predecessor info is `{}` while main.py's
   * is the file info of the greatest complete snapshot below it.
   */
  lemma IncompleteNewestSnapshotHidesOlderOne(store: Store, current: string, newest: string, older: string)
    requires IsGreatest(Candidates(store, current), newest) && store[newest].info.None?
    requires IsGreatest(Complete(store, current), older)
    ensures IsPredecessorInfoV2(store, current, map[])
    ensures IsPredecessorInfo(store, current, store[older].info.value)
  {
    forall n | IsGreatest(Candidates(store, current), n)
      ensures n == newest
    {
      GreatestUnique(Candidates(store, current), n, newest);
    }
    forall n | IsGreatest(Complete(store, current), n)
      ensures n == older
    {
      GreatestUnique(Complete(store, current), n, older);
    }
  }

  /**
   * An init in main2.py after an interrupted run carries no folder over: the
   * new file info holds exactly the folders scanned now.
   */
  lemma InitAfterIncompleteSnapshotCarriesNothing(before: Store, after: Store, current: string, newest: string,
                                                  folders: seq<string>, disk: Disk, prev: FileInfo)
    requires IsGreatest(Candidates(before, current), newest) && before[newest].info.None?
    requires IsPredecessorInfoV2(before, current, prev)
    requires InitSnapshotWritten(before, after, current, folders, disk, prev)
    ensures forall f :: f in after[current].info.value <==> f in folders
  {
    assert prev == map[];
  }

  /** A backups folder with a complete snapshot "a" and a newer, incomplete "b". */
  lemma IncompleteNewestSnapshotExample(older: FileInfo)
    requires older != map[]
    ensures var store := map["a" := Dir(Some(older), None), "b" := Dir(None, None)];
      && IsPredecessorInfoV2(store, "c", map[])
      && IsPredecessorInfo(store, "c", older)
  {
    var store := map["a" := Dir(Some(older), None), "b" := Dir(None, None)];
    assert Less("a", "b");
    assert Candidates(store, "c") == {"a", "b"};
    assert Complete(store, "c") == {"a"};
    LessIrreflexive("a");
    LessIrreflexive("b");
    LessAsymmetric("a", "b");
    assert IsGreatest(Candidates(store, "c"), "b");
    assert IsGreatest(Complete(store, "c"), "a");
    IncompleteNewestSnapshotHidesOlderOne(store, "c", "b", "a");
  }
}
