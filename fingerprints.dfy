/**
 * Fingerprints: what `_gather_file_info` records for one tracked folder, and
 * the change test `backup` applies to decide what to copy and what to list as
 * deleted.
 */
module Fingerprints {

  /** A file path relative to the tracked folder it was found under. */
  type Path = string

  /** A modification time, compared by equality only. */
  type MTime = int

  /** One folder's scan: relative path to modification time. */
  type Fingerprint = map<Path, MTime>

  /** The content of a snapshot's `file_info.json`: tracked folder to its fingerprint. */
  type FileInfo = map<string, Fingerprint>

  /** One file that `os.walk` reports under a root, with its relative path and `getmtime`. */
  datatype FileStat = FileStat(path: Path, mtime: MTime)

  /** The tracked trees on disk: for each root, the files a walk of it reports, in walk order. */
  type Disk = map<string, seq<FileStat>>

  /** What `os.walk(root)` yields; a root that does not exist yields nothing. */
  function Walk(disk: Disk, root: string): seq<FileStat>
  {
    if root in disk then disk[root] else []
  }

  /** No later entry of the walk has the same relative path as entry `i`. */
  ghost predicate LastOccurrence(walk: seq<FileStat>, i: int)
    requires 0 <= i < |walk|
  {
    forall j :: i < j < |walk| ==> walk[j].path != walk[i].path
  }

  /** The fingerprint a walk produces, entry by entry, a later entry for a path replacing an earlier one. */
  function FromWalk(walk: seq<FileStat>): Fingerprint
  {
    if walk == [] then map[] else FromWalk(walk[..|walk| - 1])[walk[|walk| - 1].path := walk[|walk| - 1].mtime]
  }

  /**
   * The scan has one key per relative path the walk reports, each holding the
   * modification time of the last entry for that path.
   */
  lemma {:induction false} FromWalkShape(walk: seq<FileStat>)
    ensures FromWalk(walk).Keys == set e | e in walk :: e.path
    ensures forall i :: 0 <= i < |walk| && LastOccurrence(walk, i) ==> FromWalk(walk)[walk[i].path] == walk[i].mtime
  {
    if walk != [] {
      var init, last := walk[..|walk| - 1], walk[|walk| - 1];
      assert walk == init + [last];
      FromWalkShape(init);
      forall i | 0 <= i < |walk| && LastOccurrence(walk, i)
        ensures FromWalk(walk)[walk[i].path] == walk[i].mtime
      {
        if i < |init| {
          assert LastOccurrence(init, i);
        }
      }
    }
  }

  /** The fingerprint of the folder `root` as found on `disk`. */
  function Scan(disk: Disk, root: string): Fingerprint
  {
    FromWalk(Walk(disk, root))
  }

  /**
   * `_gather_file_info`: walks the files under a root and records each one's
   * modification time under its relative path.
   */
  method GatherFileInfo(walk: seq<FileStat>) returns (fp: Fingerprint)
    ensures fp == FromWalk(walk)
  {
    fp := map[];
    for i := 0 to |walk|
      invariant fp == FromWalk(walk[..i])
    {
      assert walk[..i + 1][..i] == walk[..i];
      fp := fp[walk[i].path := walk[i].mtime];
    }
    assert walk[..|walk|] == walk;
  }

  /** The scan of a walk that reports each file once records every file with its own time. */
  lemma DistinctWalkRecordsEveryFile(walk: seq<FileStat>)
    requires forall i, j :: 0 <= i < j < |walk| ==> walk[i].path != walk[j].path
    ensures forall i :: 0 <= i < |walk| ==> walk[i].path in FromWalk(walk) && FromWalk(walk)[walk[i].path] == walk[i].mtime
  {
    FromWalkShape(walk);
    forall i | 0 <= i < |walk|
      ensures walk[i].path in FromWalk(walk) && FromWalk(walk)[walk[i].path] == walk[i].mtime
    {
      assert LastOccurrence(walk, i);
      assert walk[i] in walk;
    }
  }

  /** The change test of `backup`: in the new scan and new, or with a different time. */
  predicate Changed(current: Fingerprint, previous: Fingerprint, p: Path)
  {
    p in current && (p !in previous || current[p] != previous[p])
  }

  /** The deletion test of `backup`: in the previous scan and gone from the new one. */
  predicate Deleted(current: Fingerprint, previous: Fingerprint, p: Path)
  {
    p in previous && p !in current
  }

  /** The files `backup` copies into the staging folder, with the times they carry. */
  function ChangedFiles(current: Fingerprint, previous: Fingerprint): map<Path, MTime>
  {
    map p | p in current && Changed(current, previous, p) :: current[p]
  }

  /** The relative paths `backup` writes to a folder's deleted-paths manifest. */
  function DeletedPaths(current: Fingerprint, previous: Fingerprint): set<Path>
  {
    set p | p in previous && Deleted(current, previous, p)
  }

  /** Paths present in both scans with the same time: neither copied nor deleted. */
  function UnchangedPaths(current: Fingerprint, previous: Fingerprint): set<Path>
  {
    set p | p in current && p in previous && current[p] == previous[p]
  }

  /**
   * The copy loop of `backup` over one folder's new scan: copies each file
   * that is new or has a different time.
   */
  method CopyChanged(current: Fingerprint, previous: Fingerprint) returns (copied: map<Path, MTime>)
    ensures copied == ChangedFiles(current, previous)
  {
    copied := map[];
    var pending := current.Keys;
    while pending != {}
      invariant pending <= current.Keys
      invariant forall p :: p in copied <==> p in current.Keys - pending && Changed(current, previous, p)
      invariant forall p :: p in copied ==> copied[p] == current[p]
      decreases |pending|
    {
      var p :| p in pending;
      if p !in previous || current[p] != previous[p] {
        copied := copied[p := current[p]];
      }
      pending := pending - {p};
    }
  }

  /**
   * The manifest loop of `backup` over one folder's previous scan: lists each
   * path that the new scan no longer has.
   */
  method DeletedManifest(current: Fingerprint, previous: Fingerprint) returns (deleted: set<Path>)
    ensures deleted == DeletedPaths(current, previous)
  {
    deleted := {};
    var pending := previous.Keys;
    while pending != {}
      invariant pending <= previous.Keys
      invariant forall p :: p in deleted <==> p in previous.Keys - pending && p !in current
      decreases |pending|
    {
      var p :| p in pending;
      if p !in current {
        deleted := deleted + {p};
      }
      pending := pending - {p};
    }
  }

  /** A folder that did not change stages nothing. */
  lemma IdenticalScansStageNothing(fp: Fingerprint)
    ensures ChangedFiles(fp, fp) == map[]
    ensures DeletedPaths(fp, fp) == {}
  {
    assert ChangedFiles(fp, fp).Keys == {};
  }

  /** Against an empty predecessor every file is copied and nothing is deleted. */
  lemma FirstBackupCopiesEverything(fp: Fingerprint)
    ensures ChangedFiles(fp, map[]) == fp
    ensures DeletedPaths(fp, map[]) == {}
  {
  }

  /**
   * Changed, deleted and unchanged paths are pairwise disjoint and together
   * cover every path of either scan.
   */
  lemma DiffPartition(current: Fingerprint, previous: Fingerprint)
    ensures ChangedFiles(current, previous).Keys !! DeletedPaths(current, previous)
    ensures ChangedFiles(current, previous).Keys !! UnchangedPaths(current, previous)
    ensures DeletedPaths(current, previous) !! UnchangedPaths(current, previous)
    ensures ChangedFiles(current, previous).Keys + DeletedPaths(current, previous) + UnchangedPaths(current, previous)
         == current.Keys + previous.Keys
  {
  }

  /**
   * What the transfer step does with a staged folder: remove the listed paths
   * from the previous state, then put the copied files in place.
   */
  function ApplyStaged(previous: Fingerprint, copied: map<Path, MTime>, deleted: set<Path>): Fingerprint
  {
    (previous - deleted) + copied
  }

  /**
   * Applying what `backup` stages for a folder to the previous scan yields the
   * new scan: the increment loses nothing.
   */
  lemma StagingRebuildsScan(current: Fingerprint, previous: Fingerprint)
    ensures ApplyStaged(previous, ChangedFiles(current, previous), DeletedPaths(current, previous)) == current
  {
    var rebuilt := ApplyStaged(previous, ChangedFiles(current, previous), DeletedPaths(current, previous));
    forall p | p in current
      ensures p in rebuilt && rebuilt[p] == current[p]
    {
      if !Changed(current, previous, p) {
        assert p in UnchangedPaths(current, previous);
      }
    }
  }

  /**
   * A worked case: `a.txt` modified, `b.txt` deleted and `c.txt` added since
   * the predecessor; `a.txt` and `c.txt` are copied and `b.txt` is listed.
   */
  lemma ModifiedDeletedAddedScenario(t1: MTime, t2: MTime, t3: MTime)
    requires t1 != t2
    ensures ChangedFiles(map["a.txt" := t2, "c.txt" := t3], map["a.txt" := t1, "b.txt" := t1])
         == map["a.txt" := t2, "c.txt" := t3]
    ensures DeletedPaths(map["a.txt" := t2, "c.txt" := t3], map["a.txt" := t1, "b.txt" := t1]) == {"b.txt"}
  {
    var current, previous := map["a.txt" := t2, "c.txt" := t3], map["a.txt" := t1, "b.txt" := t1];
    assert "a.txt" != "c.txt" && "a.txt" != "b.txt" && "b.txt" != "c.txt";
    assert Changed(current, previous, "c.txt");
    assert DeletedPaths(current, previous) == {"b.txt"};
  }
}
