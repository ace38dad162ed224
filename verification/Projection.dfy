/** The Markdown projection: reconciling a tree of files with the desired records without
    overwriting local edits. Files are a map from normal-form relative paths to bytes. */
module Projection {
  import opened Integers
  import opened Results
  import opened Strings

  type Path = string
  type RecordId = string
  type Files = map<Path, Bytes>
  type Hash = Bytes -> string

  const DELETED_HASH := "deleted"

  /** Content hashes are hexadecimal digests without collisions, never the deletion mark. */
  ghost predicate ContentHash(hash: Hash) {
    && (forall a, b :: hash(a) == hash(b) ==> a == b)
    && (forall a :: hash(a) != DELETED_HASH)
  }

  datatype DesiredFile = DesiredFile(id: RecordId, path: Path, bytes: Bytes)

  datatype Entry = Entry(path: Path, hash: string)

  type Desired = map<RecordId, DesiredFile>
  type Manifest = map<RecordId, Entry>

  /** What survives between passes: the tree, the manifest file and the expected-writes file. */
  datatype Disk = Disk(files: Files, manifest: Manifest, expected: map<Path, string>)

  /** How one step of a pass fails: nothing can be read at the path; the change cannot be prepared,
      because the record of it or the directory for it cannot be written; or the change itself
      cannot be made. */
  datatype Fault = ReadFails | PrepareFails | ChangeFails

  /** Which steps fail if they get that far, for each entry removed and each file written, and
      whether the manifest cannot be written at the end. */
  datatype Faults = Faults(removals: map<RecordId, Fault>, writes: map<RecordId, Fault>, manifestLost: bool)

  const NO_FAULTS := Faults(map[], map[], false)

  datatype Failure = Failure(path: Path, fault: Fault)

  predicate Hits(faults: map<RecordId, Fault>, id: RecordId, fault: Fault) {
    id in faults && faults[id] == fault
  }

  datatype Report = Report(materialized: seq<Path>, removed: seq<Path>, preserved: seq<Path>)

  /** A pass in progress. Its manifest reaches the disk only if it does not fail. */
  datatype Work = Work(
    files: Files,
    manifest: Manifest,
    expected: map<Path, string>,
    report: Report,
    error: Option<Failure>)

  // ----- The desired set ------------------------------------------------------------------------------

  predicate Accepts(d: Desired, file: DesiredFile) {
    file.id !in d && forall i :: i in d ==> d[i].path != file.path
  }

  /** First come, first served: a repeated identity or path is rejected. */
  function UniqueFrom(d: Desired, files: seq<DesiredFile>): Desired
    decreases |files|
  {
    if files == [] then d
    else UniqueFrom(if Accepts(d, files[0]) then d[files[0].id := files[0]] else d, files[1..])
  }

  function UniqueDesired(files: seq<DesiredFile>): Desired {
    UniqueFrom(map[], files)
  }

  ghost function PathsOf(d: Desired): set<Path> {
    set i | i in d :: d[i].path
  }

  lemma PathsGrow(d: Desired, file: DesiredFile)
    requires file.id !in d
    ensures PathsOf(d[file.id := file]) == PathsOf(d) + {file.path}
  {
    var after := d[file.id := file];
    forall p ensures p in PathsOf(after) <==> p in PathsOf(d) + {file.path} {
      if p in PathsOf(d) {
        var i :| i in d && d[i].path == p;
        assert after[i].path == p;
      }
      if p == file.path {
        assert after[file.id].path == p;
      }
    }
  }

  predicate WellKeyed(d: Desired) {
    && (forall i :: i in d ==> d[i].id == i)
    && (forall i, j :: i in d && j in d && d[i].path == d[j].path ==> i == j)
  }

  lemma {:induction false} UniqueFromWellKeyed(d: Desired, files: seq<DesiredFile>)
    requires WellKeyed(d)
    ensures WellKeyed(UniqueFrom(d, files))
    decreases |files|
  {
    if files != [] {
      UniqueFromWellKeyed(if Accepts(d, files[0]) then d[files[0].id := files[0]] else d, files[1..]);
    }
  }

  /** No earlier file that is kept has the identity or the path of this one. */
  ghost predicate Kept(files: seq<DesiredFile>, k: nat)
    requires k < |files|
    decreases k
  {
    forall j :: 0 <= j < k && Kept(files, j) ==> files[j].id != files[k].id && files[j].path != files[k].path
  }

  ghost predicate HoldsKept(d: Desired, files: seq<DesiredFile>, n: nat)
    requires n <= |files|
  {
    && (forall k :: 0 <= k < n && Kept(files, k) ==> files[k].id in d && d[files[k].id] == files[k])
    && (forall i :: i in d ==> exists k :: 0 <= k < n && Kept(files, k) && files[k].id == i && d[i] == files[k])
  }

  lemma {:induction false} UniqueFromSnoc(d: Desired, files: seq<DesiredFile>, file: DesiredFile)
    ensures var e := UniqueFrom(d, files);
            UniqueFrom(d, files + [file]) == if Accepts(e, file) then e[file.id := file] else e
    decreases |files|
  {
    if files == [] {
      assert (files + [file])[1..] == [];
    } else {
      assert (files + [file])[1..] == files[1..] + [file];
      UniqueFromSnoc(if Accepts(d, files[0]) then d[files[0].id := files[0]] else d, files[1..], file);
    }
  }

  lemma AcceptsExactly(d: Desired, files: seq<DesiredFile>, n: nat)
    requires n < |files| && HoldsKept(d, files, n)
    ensures Accepts(d, files[n]) <==> Kept(files, n)
  {
    if Kept(files, n) {
      forall i | i in d ensures i != files[n].id && d[i].path != files[n].path {
        var k :| 0 <= k < n && Kept(files, k) && files[k].id == i && d[i] == files[k];
      }
    }
  }

  /** A file of the list is in the desired set exactly when no earlier kept one has its identity or
      its path, and nothing else is. */
  lemma {:induction false} UniqueKeepsFirst(files: seq<DesiredFile>, n: nat)
    requires n <= |files|
    ensures HoldsKept(UniqueDesired(files[..n]), files, n)
  {
    hide HoldsKept, Kept, Accepts, UniqueFrom;
    if n == 0 {
      NothingKept(files);
    } else {
      var d := UniqueDesired(files[..n - 1]);
      UniqueKeepsFirst(files, n - 1);
      AcceptsExactly(d, files, n - 1);
      UniqueFromSnoc(map[], files[..n - 1], files[n - 1]);
      assert files[..n] == files[..n - 1] + [files[n - 1]];
      KeptGrows(d, files, n - 1);
    }
  }

  lemma NothingKept(files: seq<DesiredFile>)
    ensures HoldsKept(UniqueDesired(files[..0]), files, 0)
  {
  }

  lemma KeptGrows(d: Desired, files: seq<DesiredFile>, n: nat)
    requires n < |files| && HoldsKept(d, files, n)
    ensures HoldsKept(if Kept(files, n) then d[files[n].id := files[n]] else d, files, n + 1)
  {
    var e := if Kept(files, n) then d[files[n].id := files[n]] else d;
    forall i | i in e ensures exists k :: 0 <= k < n + 1 && Kept(files, k) && files[k].id == i && e[i] == files[k] {
      if i in d && !(Kept(files, n) && i == files[n].id) {
        var k :| 0 <= k < n && Kept(files, k) && files[k].id == i && d[i] == files[k];
        assert Kept(files, k) && e[i] == files[k];
      } else {
        assert Kept(files, n) && e[i] == files[n];
      }
    }
  }

  ghost predicate Distinct(files: seq<DesiredFile>) {
    forall j, k :: 0 <= j < k < |files| ==> files[j].id != files[k].id && files[j].path != files[k].path
  }

  /** Files with different identities and paths are all kept. */
  lemma DistinctAreKept(files: seq<DesiredFile>)
    requires Distinct(files)
    ensures forall k :: 0 <= k < |files| ==>
              files[k].id in UniqueDesired(files) && UniqueDesired(files)[files[k].id] == files[k]
    ensures forall i :: i in UniqueDesired(files) ==>
              UniqueDesired(files)[i] in files && UniqueDesired(files)[i].id == i
  {
    UniqueKeepsFirst(files, |files|);
    assert files[..|files|] == files;
    assert forall k :: 0 <= k < |files| ==> Kept(files, k);
  }

  // ----- Removing obsolete files ------------------------------------------------------------------------

  predicate Obsolete(id: RecordId, manifest: Manifest, d: Desired)
    requires id in manifest
  {
    id !in d || d[id].path != manifest[id].path
  }

  function RemoveStep(w: Work, id: RecordId, entry: Entry, faults: Faults, hash: Hash): Work {
    var path := entry.path;
    if w.error.Some? then w
    else if Hits(faults.removals, id, ReadFails) then w.(error := Some(Failure(path, ReadFails)))
    else if path !in w.files then w.(manifest := w.manifest - {id})
    else if hash(w.files[path]) != entry.hash then
      w.(report := w.report.(preserved := w.report.preserved + [path]))
    else if Hits(faults.removals, id, PrepareFails) then
      w.(expected := w.expected[path := DELETED_HASH], error := Some(Failure(path, PrepareFails)))
    else if Hits(faults.removals, id, ChangeFails) then
      w.(expected := w.expected - {path}, error := Some(Failure(path, ChangeFails)))
    else
      w.(files := w.files - {path},
         manifest := w.manifest - {id},
         expected := w.expected[path := DELETED_HASH],
         report := w.report.(removed := w.report.removed + [path]))
  }

  function RemoveAll(w: Work, ids: seq<RecordId>, manifest: Manifest, faults: Faults, hash: Hash): Work
    requires forall i :: i in ids ==> i in manifest
    decreases |ids|
  {
    if ids == [] then w
    else RemoveAll(RemoveStep(w, ids[0], manifest[ids[0]], faults, hash), ids[1..], manifest, faults, hash)
  }

  function ObsoleteIds(ids: seq<RecordId>, manifest: Manifest, d: Desired): (r: seq<RecordId>)
    requires forall i :: i in ids ==> i in manifest
    ensures forall i :: i in r <==> i in ids && Obsolete(i, manifest, d)
  {
    if ids == [] then []
    else (if Obsolete(ids[0], manifest, d) then [ids[0]] else []) + ObsoleteIds(ids[1..], manifest, d)
  }

  // ----- Materializing desired files --------------------------------------------------------------------

  /** The file is absent, already as desired, or as this record last wrote it. */
  predicate SafeToWrite(files: Files, manifest: Manifest, file: DesiredFile, hash: Hash) {
    || file.path !in files
    || hash(files[file.path]) == hash(file.bytes)
    || (file.id in manifest && manifest[file.id] == Entry(file.path, hash(files[file.path])))
  }

  function MaterializeStep(w: Work, file: DesiredFile, faults: Faults, hash: Hash): Work {
    var path := file.path;
    if w.error.Some? then w
    else if Hits(faults.writes, file.id, ReadFails) then w.(error := Some(Failure(path, ReadFails)))
    else if !SafeToWrite(w.files, w.manifest, file, hash) then
      w.(report := w.report.(preserved := w.report.preserved + [path]))
    else
      var recorded := w.manifest[file.id := Entry(path, hash(file.bytes))];
      if path in w.files && hash(w.files[path]) == hash(file.bytes) then w.(manifest := recorded)
      else if Hits(faults.writes, file.id, PrepareFails) then
        w.(expected := w.expected[path := hash(file.bytes)], error := Some(Failure(path, PrepareFails)))
      else if Hits(faults.writes, file.id, ChangeFails) then
        w.(expected := w.expected - {path}, error := Some(Failure(path, ChangeFails)))
      else
        w.(files := w.files[path := file.bytes],
           manifest := recorded,
           expected := w.expected[path := hash(file.bytes)],
           report := w.report.(materialized := w.report.materialized + [path]))
  }

  function MaterializeAll(w: Work, ids: seq<RecordId>, d: Desired, faults: Faults, hash: Hash): Work
    requires forall i :: i in ids ==> i in d
    decreases |ids|
  {
    if ids == [] then w
    else MaterializeAll(MaterializeStep(w, d[ids[0]], faults, hash), ids[1..], d, faults, hash)
  }

  // ----- One pass ----------------------------------------------------------------------------------------

  function Start(disk: Disk): Work {
    Work(disk.files, disk.manifest, disk.expected, Report([], [], []), None)
  }

  function AfterRemoval(disk: Disk, d: Desired, faults: Faults, hash: Hash): Work {
    RemoveAll(Start(disk), ObsoleteIds(SortedKeys(disk.manifest.Keys), disk.manifest, d), disk.manifest, faults, hash)
  }

  function AfterPass(disk: Disk, d: Desired, faults: Faults, hash: Hash): Work {
    MaterializeAll(AfterRemoval(disk, d, faults, hash), SortedKeys(d.Keys), d, faults, hash)
  }

  /** The disk after one pass, which stops at the first failure without persisting its manifest. */
  function Reconciled(disk: Disk, files: seq<DesiredFile>, faults: Faults, hash: Hash): Disk {
    var w := AfterPass(disk, UniqueDesired(files), faults, hash);
    Disk(w.files, if w.error.Some? || faults.manifestLost then disk.manifest else w.manifest, w.expected)
  }

  class ProjectionState {
    const hash: Hash
    var files: Files
    var manifest: Manifest
    var expected: map<Path, string>

    constructor (hash: Hash, disk: Disk)
      ensures this.hash == hash && OnDisk() == disk
    {
      this.hash, files, manifest, expected := hash, disk.files, disk.manifest, disk.expected;
    }

    function OnDisk(): Disk
      reads this
    {
      Disk(files, manifest, expected)
    }

    method Unique(desired: seq<DesiredFile>) returns (result: Desired)
      ensures result == UniqueDesired(desired)
    {
      result := map[];
      var paths: set<Path> := {};
      for k := 0 to |desired|
        invariant paths == PathsOf(result)
        invariant UniqueDesired(desired) == UniqueFrom(result, desired[k..])
      {
        var file := desired[k];
        assert desired[k..][1..] == desired[k + 1..];
        assert Accepts(result, file) <==> file.id !in result && file.path !in paths;
        if file.id !in result && file.path !in paths {
          PathsGrow(result, file);
          paths := paths + {file.path};
          result := result[file.id := file];
        }
      }
    }

    /** The body of the loop of `remove_obsolete`. */
    method Remove(id: RecordId, entry: Entry, work: Manifest, was: Report, faults: Faults)
      returns (kept: Manifest, report: Report, error: Option<Failure>)
      modifies `files, `expected
      ensures Work(files, kept, expected, report, error)
           == RemoveStep(Work(old(files), work, old(expected), was, None), id, entry, faults, hash)
    {
      kept, report, error := work, was, None;
      if Hits(faults.removals, id, ReadFails) {
        error := Some(Failure(entry.path, ReadFails));
      } else if entry.path !in files {
        kept := kept - {id};
      } else if hash(files[entry.path]) == entry.hash {
        expected := expected[entry.path := DELETED_HASH];
        if Hits(faults.removals, id, PrepareFails) {
          error := Some(Failure(entry.path, PrepareFails));
          return;
        }
        if Hits(faults.removals, id, ChangeFails) {
          expected := expected - {entry.path};
          error := Some(Failure(entry.path, ChangeFails));
          return;
        }
        files := files - {entry.path};
        kept := kept - {id};
        report := report.(removed := report.removed + [entry.path]);
      } else {
        report := report.(preserved := report.preserved + [entry.path]);
      }
    }

    /** `remove_obsolete`. */
    method RemoveObsolete(d: Desired, faults: Faults) returns (kept: Manifest, report: Report, error: Option<Failure>)
      modifies `files, `expected
      ensures Work(files, kept, expected, report, error) == AfterRemoval(old(OnDisk()), d, faults, hash)
    {
      hide RemoveStep, Obsolete, SortedKeys, Less;
      kept, report, error := manifest, Report([], [], []), None;
      var obsolete := ObsoleteIds(SortedKeys(manifest.Keys), manifest, d);
      ghost var w := Start(OnDisk());
      for k := 0 to |obsolete|
        invariant error.None? && w == Work(files, kept, expected, report, error)
        invariant AfterRemoval(old(OnDisk()), d, faults, hash) == RemoveAll(w, obsolete[k..], manifest, faults, hash)
      {
        RemoveNext(w, obsolete, k, manifest, faults, hash);
        kept, report, error := Remove(obsolete[k], manifest[obsolete[k]], kept, report, faults);
        w := RemoveStep(w, obsolete[k], manifest[obsolete[k]], faults, hash);
        if error.Some? {
          FailedRemovalStops(w, obsolete[k + 1..], manifest, faults, hash);
          return;
        }
      }
    }

    /** `materialize_desired` for one file. */
    method Materialize(file: DesiredFile, work: Manifest, was: Report, faults: Faults)
      returns (recorded: Manifest, report: Report, error: Option<Failure>)
      modifies `files, `expected
      ensures Work(files, recorded, expected, report, error)
           == MaterializeStep(Work(old(files), work, old(expected), was, None), file, faults, hash)
    {
      recorded, report, error := work, was, None;
      if Hits(faults.writes, file.id, ReadFails) {
        error := Some(Failure(file.path, ReadFails));
        return;
      }
      var desiredHash := hash(file.bytes);
      var actual := if file.path in files then Some(hash(files[file.path])) else None;
      var prior := if file.id in work then Some(work[file.id]) else None;
      var safeToWrite :=
        || actual == None
        || actual == Some(desiredHash)
        || (prior.Some? && prior.value.path == file.path && actual == Some(prior.value.hash));
      if !safeToWrite {
        report := report.(preserved := report.preserved + [file.path]);
        return;
      }
      if actual != Some(desiredHash) {
        expected := expected[file.path := desiredHash];
        if Hits(faults.writes, file.id, PrepareFails) {
          error := Some(Failure(file.path, PrepareFails));
          return;
        }
        if Hits(faults.writes, file.id, ChangeFails) {
          expected := expected - {file.path};
          error := Some(Failure(file.path, ChangeFails));
          return;
        }
        files := files[file.path := file.bytes];
        report := report.(materialized := report.materialized + [file.path]);
      }
      recorded := recorded[file.id := Entry(file.path, desiredHash)];
    }

    /** The loop over the desired files, in the order of their identities. */
    method MaterializeDesired(d: Desired, work: Manifest, was: Report, faults: Faults)
      returns (recorded: Manifest, report: Report, error: Option<Failure>)
      modifies `files, `expected
      ensures Work(files, recorded, expected, report, error)
           == MaterializeAll(Work(old(files), work, old(expected), was, None), SortedKeys(d.Keys), d, faults, hash)
    {
      hide MaterializeStep, SortedKeys, Less;
      recorded, report, error := work, was, None;
      var ids := SortedKeys(d.Keys);
      ghost var w := Work(files, work, expected, was, None);
      ghost var goal := MaterializeAll(w, ids, d, faults, hash);
      for k := 0 to |ids|
        invariant error.None? && w == Work(files, recorded, expected, report, error)
        invariant goal == MaterializeAll(w, ids[k..], d, faults, hash)
      {
        recorded, report, error := Materialize(d[ids[k]], recorded, report, faults);
        w := MaterializeStep(w, d[ids[k]], faults, hash);
        if error.Some? {
          FailedMaterializationStops(w, ids[k + 1..], d, faults, hash);
          return;
        }
      }
    }

    /** `reconcile_files`: one pass over the whole tree. */
    method Reconcile(desired: seq<DesiredFile>, faults: Faults) returns (report: Report, failed: bool)
      modifies this
      ensures OnDisk() == Reconciled(old(OnDisk()), desired, faults, hash)
      ensures var w := AfterPass(old(OnDisk()), UniqueDesired(desired), faults, hash);
              report == w.report && failed == (w.error.Some? || faults.manifestLost)
    {
      var d := Unique(desired);
      var work, removed, error := RemoveObsolete(d, faults);
      if error.Some? {
        FailedMaterializationStops(AfterRemoval(old(OnDisk()), d, faults, hash), SortedKeys(d.Keys), d, faults, hash);
        return removed, true;
      }
      work, report, error := MaterializeDesired(d, work, removed, faults);
      if error.Some? || faults.manifestLost {
        return report, true;
      }
      manifest := work;
      failed := false;
    }

    /** `consume_if_expected`: swallow a watcher event that the projection itself caused. An event
        whose file cannot be read leaves the record, one whose use of it cannot be saved has used it. */
    method ConsumeIfExpected(path: Path, fault: Option<ConsumeFault>) returns (matched: Result<bool, ConsumeFault>)
      modifies `expected
      ensures matched == (if fault == Some(FileUnreadable) || (fault == Some(TableUnwritable) && path in old(expected))
                          then Err(fault.value) else Ok(Expects(old(OnDisk()), path, hash)))
      ensures expected == if fault == Some(FileUnreadable) then old(expected) else old(expected) - {path}
    {
      if fault == Some(FileUnreadable) {
        return Err(FileUnreadable);
      }
      var actual := if path in files then Some(hash(files[path])) else None;
      var found :=
        && path in expected
        && (if actual.Some? then actual.value == expected[path] else expected[path] == DELETED_HASH);
      if path in expected {
        expected := expected - {path};
        if fault == Some(TableUnwritable) {
          return Err(TableUnwritable);
        }
      }
      return Ok(found);
    }
  }

  /** How the handling of a watcher event fails. */
  datatype ConsumeFault = FileUnreadable | TableUnwritable

  /** The recorded hash is that of the current content, or marks the deletion of an absent file. */
  predicate Expects(disk: Disk, path: Path, hash: Hash) {
    path in disk.expected
    && disk.expected[path] == if path in disk.files then hash(disk.files[path]) else DELETED_HASH
  }

  lemma RemoveNext(w: Work, ids: seq<RecordId>, k: nat, manifest: Manifest, faults: Faults, hash: Hash)
    requires k < |ids| && forall i :: i in ids ==> i in manifest
    ensures RemoveAll(w, ids[k..], manifest, faults, hash)
         == RemoveAll(RemoveStep(w, ids[k], manifest[ids[k]], faults, hash), ids[k + 1..], manifest, faults, hash)
  {
    assert ids[k..][1..] == ids[k + 1..];
  }

  lemma {:induction false} FailedRemovalStops(w: Work, ids: seq<RecordId>, manifest: Manifest, faults: Faults,
      hash: Hash)
    requires w.error.Some? && forall i :: i in ids ==> i in manifest
    ensures RemoveAll(w, ids, manifest, faults, hash) == w
    decreases |ids|
  {
    if ids != [] {
      FailedRemovalStops(w, ids[1..], manifest, faults, hash);
    }
  }

  lemma {:induction false} FailedMaterializationStops(w: Work, ids: seq<RecordId>, d: Desired, faults: Faults,
      hash: Hash)
    requires w.error.Some? && forall i :: i in ids ==> i in d
    ensures MaterializeAll(w, ids, d, faults, hash) == w
    decreases |ids|
  {
    if ids != [] {
      FailedMaterializationStops(w, ids[1..], d, faults, hash);
    }
  }
}
