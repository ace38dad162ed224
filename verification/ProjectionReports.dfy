/** What the report of a pass says: exactly what it removed, what it wrote and what it left alone. */
module ProjectionReports {
  import opened Sequences
  import opened Strings
  import opened Projection
  import opened ProjectionSafety

  // ----- Removed ------------------------------------------------------------------------------------------

  /** So far the report names exactly the files that are gone. */
  ghost predicate ReportsRemovals(w: Work, files: Files) {
    && w.report.materialized == [] && w.files.Keys <= files.Keys
    && (forall p :: p in w.report.removed <==> p in files && p !in w.files)
  }

  lemma RemoveStepReports(w: Work, id: RecordId, entry: Entry, faults: Faults, hash: Hash, files: Files)
    requires ReportsRemovals(w, files)
    ensures ReportsRemovals(RemoveStep(w, id, entry, faults, hash), files)
  {
  }

  lemma {:induction false} RemovalReports(w: Work, ids: seq<RecordId>, manifest: Manifest, faults: Faults, hash: Hash,
      files: Files)
    requires (forall i :: i in ids ==> i in manifest) && ReportsRemovals(w, files)
    ensures ReportsRemovals(RemoveAll(w, ids, manifest, faults, hash), files)
    decreases |ids|
  {
    hide RemoveStep, ReportsRemovals;
    if ids != [] {
      RemoveStepReports(w, ids[0], manifest[ids[0]], faults, hash, files);
      RemovalReports(RemoveStep(w, ids[0], manifest[ids[0]], faults, hash), ids[1..], manifest, faults, hash, files);
    }
  }

  // ----- Written ------------------------------------------------------------------------------------------

  predicate ChangedAt(w: Work, after: Work, p: Path) {
    !SameFile(w.files, after.files, p)
  }

  lemma MaterializeStepReports(w: Work, file: DesiredFile, faults: Faults, hash: Hash, p: Path)
    requires ContentHash(hash)
    ensures var after := MaterializeStep(w, file, faults, hash);
            && after.report.removed == w.report.removed
            && (p in after.report.materialized <==> p in w.report.materialized || ChangedAt(w, after, p))
            && (ChangedAt(w, after, p) ==> p == file.path && Holds(after.files, p, file.bytes))
  {
  }

  lemma {:induction false} MaterializationReports(w: Work, ids: seq<RecordId>, d: Desired, faults: Faults, hash: Hash,
      p: Path)
    requires ContentHash(hash) && WellKeyed(d) && NoRepeats(ids) && forall i :: i in ids ==> i in d
    ensures var after := MaterializeAll(w, ids, d, faults, hash);
            && after.report.removed == w.report.removed
            && (p in after.report.materialized <==> p in w.report.materialized || ChangedAt(w, after, p))
            && (ChangedAt(w, after, p) ==> exists i :: i in ids && d[i].path == p && Holds(after.files, p, d[i].bytes))
    decreases |ids|
  {
    hide MaterializeStep, ContentHash;
    if ids != [] {
      var next := MaterializeStep(w, d[ids[0]], faults, hash);
      var after := MaterializeAll(w, ids, d, faults, hash);
      MaterializeStepReports(w, d[ids[0]], faults, hash, p);
      MaterializationReports(next, ids[1..], d, faults, hash, p);
      assert ids == [ids[0]] + ids[1..];
      if ChangedAt(next, after, p) {
        var i :| i in ids[1..] && d[i].path == p && Holds(after.files, p, d[i].bytes);
        assert i != ids[0] && i in ids;
      } else if ChangedAt(w, next, p) {
        assert ids[0] in ids;
      }
    }
  }

  /** Whatever fails, the report of a pass names as removed exactly the files its first half took away
      and as materialized exactly those its second half changed, each of which then holds the desired
      bytes. */
  lemma ReportNamesChanges(disk: Disk, files: seq<DesiredFile>, faults: Faults, hash: Hash, p: Path)
    requires ContentHash(hash)
    ensures var d := UniqueDesired(files);
            var mid, after := AfterRemoval(disk, d, faults, hash), AfterPass(disk, d, faults, hash);
            && (p in after.report.removed <==> p in disk.files && p !in mid.files)
            && (p in after.report.materialized <==> !SameFile(mid.files, after.files, p))
            && (p in after.report.materialized ==>
                  exists i :: i in d && d[i].path == p && Holds(after.files, p, d[i].bytes))
  {
    hide RemoveAll, MaterializeAll, SortedKeys, Less, UniqueDesired;
    var d := UniqueDesired(files);
    WellKeyedSet(files);
    var ids := ObsoleteIds(SortedKeys(disk.manifest.Keys), disk.manifest, d);
    RemovalReports(Start(disk), ids, disk.manifest, faults, hash, disk.files);
    SortedKeysDistinct(d.Keys);
    MaterializationReports(AfterRemoval(disk, d, faults, hash), SortedKeys(d.Keys), d, faults, hash, p);
  }

  lemma WellKeyedSet(files: seq<DesiredFile>)
    ensures WellKeyed(UniqueDesired(files))
  {
    UniqueFromWellKeyed(map[], files);
  }

  // ----- Preserved ------------------------------------------------------------------------------------------

  /** Some of these entries is kept, and it is one for this path. */
  ghost predicate KeepsEntry(w: Work, manifest: Manifest, ids: set<RecordId>, p: Path) {
    exists i :: i in ids && i in manifest && i in w.manifest && manifest[i].path == p
  }

  lemma {:induction false} RemovalPreserves(w: Work, ids: seq<RecordId>, manifest: Manifest, hash: Hash, p: Path,
      done: set<RecordId>)
    requires w.error.None? && NoRepeats(ids)
    requires forall i :: i in ids ==> i in manifest && i in w.manifest && i !in done
    requires p in w.report.preserved <==> KeepsEntry(w, manifest, done, p)
    ensures var after := RemoveAll(w, ids, manifest, NO_FAULTS, hash);
            p in after.report.preserved <==> KeepsEntry(after, manifest, done + (set i | i in ids), p)
    decreases |ids|
  {
    if ids == [] {
      assert done + (set i | i in ids) == done;
    } else {
      var next := RemoveStep(w, ids[0], manifest[ids[0]], NO_FAULTS, hash);
      RemoveStepPreserves(w, ids[0], manifest, hash, p, done);
      assert forall i :: i in ids[1..] ==> i in ids && i != ids[0];
      RemoveStepKeepsOthers(w, ids[0], manifest, hash);
      RemovalPreserves(next, ids[1..], manifest, hash, p, done + {ids[0]});
      assert done + {ids[0]} + (set i | i in ids[1..]) == done + (set i | i in ids);
    }
  }

  lemma RemoveStepKeepsOthers(w: Work, id: RecordId, manifest: Manifest, hash: Hash)
    requires id in manifest && w.error.None?
    ensures var next := RemoveStep(w, id, manifest[id], NO_FAULTS, hash);
            next.error.None? && forall i :: i in w.manifest && i != id ==> i in next.manifest
  {
  }

  lemma RemoveStepPreserves(w: Work, id: RecordId, manifest: Manifest, hash: Hash, p: Path, done: set<RecordId>)
    requires w.error.None? && id in manifest && id in w.manifest && id !in done
    requires p in w.report.preserved <==> KeepsEntry(w, manifest, done, p)
    ensures var next := RemoveStep(w, id, manifest[id], NO_FAULTS, hash);
            p in next.report.preserved <==> KeepsEntry(next, manifest, done + {id}, p)
  {
    var next := RemoveStep(w, id, manifest[id], NO_FAULTS, hash);
    if KeepsEntry(w, manifest, done, p) {
      var i :| i in done && i in manifest && i in w.manifest && manifest[i].path == p;
      assert i in done + {id} && i in next.manifest;
    }
    if id in next.manifest && manifest[id].path == p {
      assert id in done + {id};
    }
  }

  lemma MaterializeStepPreserves(w: Work, file: DesiredFile, hash: Hash, p: Path)
    requires w.error.None?
    ensures p in MaterializeStep(w, file, NO_FAULTS, hash).report.preserved
            <==> p in w.report.preserved || (p == file.path && !SafeToWrite(w.files, w.manifest, file, hash))
  {
  }

  /** A desired file that is not safe to write. */
  ghost predicate Unsafe(w: Work, ids: seq<RecordId>, d: Desired, hash: Hash, p: Path) {
    exists i :: i in ids && i in d && d[i].path == p && !SafeToWrite(w.files, w.manifest, d[i], hash)
  }

  lemma {:induction false} MaterializationPreserves(w: Work, ids: seq<RecordId>, d: Desired, hash: Hash, p: Path)
    requires ContentHash(hash) && w.error.None? && WellKeyed(d) && NoRepeats(ids) && forall i :: i in ids ==> i in d
    ensures p in MaterializeAll(w, ids, d, NO_FAULTS, hash).report.preserved
            <==> p in w.report.preserved || Unsafe(w, ids, d, hash, p)
    decreases |ids|
  {
    hide MaterializeStep, ContentHash;
    if ids != [] {
      var next := MaterializeStep(w, d[ids[0]], NO_FAULTS, hash);
      MaterializeStepPreserves(w, d[ids[0]], hash, p);
      MaterializeStepOutcome(w, d[ids[0]], hash);
      MaterializationPreserves(next, ids[1..], d, hash, p);
      assert ids == [ids[0]] + ids[1..];
      UnsafeSteps(w, next, ids, d, hash, p);
    }
  }

  lemma UnsafeSteps(w: Work, next: Work, ids: seq<RecordId>, d: Desired, hash: Hash, p: Path)
    requires WellKeyed(d) && NoRepeats(ids) && ids != [] && forall i :: i in ids ==> i in d
    requires forall q :: q != d[ids[0]].path ==> SameFile(w.files, next.files, q)
    requires forall i :: i != d[ids[0]].id ==> SameEntry(w.manifest, next.manifest, i)
    ensures Unsafe(w, ids, d, hash, p)
            <==> (p == d[ids[0]].path && !SafeToWrite(w.files, w.manifest, d[ids[0]], hash))
                 || Unsafe(next, ids[1..], d, hash, p)
  {
    forall i | i in ids[1..]
      ensures SafeToWrite(w.files, w.manifest, d[i], hash) <==> SafeToWrite(next.files, next.manifest, d[i], hash)
    {
      assert i != ids[0] && d[i].path != d[ids[0]].path;
      assert SameFile(w.files, next.files, d[i].path) && SameEntry(w.manifest, next.manifest, i);
    }
    if Unsafe(w, ids, d, hash, p) {
      var i :| i in ids && i in d && d[i].path == p && !SafeToWrite(w.files, w.manifest, d[i], hash);
      assert i == ids[0] || i in ids[1..];
    }
    if Unsafe(next, ids[1..], d, hash, p) {
      var i :| i in ids[1..] && i in d && d[i].path == p && !SafeToWrite(next.files, next.manifest, d[i], hash);
      assert i in ids;
    }
    assert ids[0] in ids;
  }

  lemma PreservedByRemoval(disk: Disk, d: Desired, hash: Hash, p: Path)
    ensures var mid := AfterRemoval(disk, d, NO_FAULTS, hash);
            p in mid.report.preserved <==> KeepsEntry(mid, disk.manifest, ObsoleteSet(disk, d), p)
  {
    hide RemoveAll, SortedKeys, Less, Obsolete, KeepsEntry;
    var ids := ObsoleteIds(SortedKeys(disk.manifest.Keys), disk.manifest, d);
    SortedKeysDistinct(disk.manifest.Keys);
    ObsoleteIdsDistinct(SortedKeys(disk.manifest.Keys), disk.manifest, d);
    NothingKept(Start(disk), disk.manifest, p);
    RemovalPreserves(Start(disk), ids, disk.manifest, hash, p, {});
    ObsoleteIdsCover(disk, d);
    assert {} + (set i | i in ids) == ObsoleteSet(disk, d);
  }

  lemma NothingKept(w: Work, manifest: Manifest, p: Path)
    ensures !KeepsEntry(w, manifest, {}, p)
  {
  }

  ghost predicate NotPlaced(disk: Disk, d: Desired, hash: Hash, p: Path) {
    exists i :: i in d && d[i].path == p && !CanPlace(disk, d, i, hash)
  }

  lemma UnsafeIsNotPlaced(disk: Disk, d: Desired, mid: Work, after: Work, hash: Hash, p: Path)
    requires ContentHash(hash) && WellKeyed(d) && PassEffect(disk, d, mid, after, hash)
    ensures Unsafe(mid, SortedKeys(d.Keys), d, hash, p) <==> NotPlaced(disk, d, hash, p)
  {
    hide Less, SafeToWrite, CanPlace, PassEffect, WellKeyed, ContentHash;
    forall i | i in d
      ensures i in SortedKeys(d.Keys)
      ensures SafeToWrite(mid.files, mid.manifest, d[i], hash) <==> CanPlace(disk, d, i, hash)
    {
      EffectPlaces(disk, d, mid, after, i, hash);
    }
  }

  /** A complete pass reports a path as preserved exactly if it kept an obsolete entry for it or could
      not place the desired file there. */
  lemma ReportNamesPreserved(disk: Disk, files: seq<DesiredFile>, hash: Hash, p: Path)
    requires ContentHash(hash)
    ensures var d := UniqueDesired(files);
            var mid, after := AfterRemoval(disk, d, NO_FAULTS, hash), AfterPass(disk, d, NO_FAULTS, hash);
            p in after.report.preserved
            <==> || (exists i :: i in ObsoleteSet(disk, d) && i in mid.manifest && disk.manifest[i].path == p)
                 || (exists i :: i in d && d[i].path == p && !CanPlace(disk, d, i, hash))
  {
    hide AfterRemoval, MaterializeAll, SortedKeys, Less, UniqueDesired, Obsolete, CanPlace, PassEffect, Unsafe;
    var d := UniqueDesired(files);
    PassOutcome(disk, files, hash);
    var mid, after := AfterRemoval(disk, d, NO_FAULTS, hash), AfterPass(disk, d, NO_FAULTS, hash);
    PreservedByRemoval(disk, d, hash, p);
    SortedKeysDistinct(d.Keys);
    NoErrorHalfWay(disk, d, mid, after, hash);
    MaterializationPreserves(mid, SortedKeys(d.Keys), d, hash, p);
    UnsafeIsNotPlaced(disk, d, mid, after, hash, p);
  }

  lemma NoErrorHalfWay(disk: Disk, d: Desired, mid: Work, after: Work, hash: Hash)
    requires PassEffect(disk, d, mid, after, hash)
    ensures mid.error.None?
  {
  }

  lemma {:induction false} ObsoleteIdsDistinct(ids: seq<RecordId>, manifest: Manifest, d: Desired)
    requires NoRepeats(ids) && forall i :: i in ids ==> i in manifest
    ensures NoRepeats(ObsoleteIds(ids, manifest, d))
  {
    if ids != [] {
      ObsoleteIdsDistinct(ids[1..], manifest, d);
    }
  }

  // ----- The manifest ---------------------------------------------------------------------------------------

  /** A pass that fails anywhere leaves the manifest on the disk as it was; one that does not replaces it by
      what it recorded. */
  lemma ManifestOnSuccessOnly(disk: Disk, files: seq<DesiredFile>, faults: Faults, hash: Hash)
    ensures var w := AfterPass(disk, UniqueDesired(files), faults, hash);
            var after := Reconciled(disk, files, faults, hash);
            && (w.error.Some? || faults.manifestLost ==> after.manifest == disk.manifest)
            && (w.error.None? && !faults.manifestLost ==> after.manifest == w.manifest)
            && after.files == w.files && after.expected == w.expected
  {
  }

  /** A pass fails only where it is made to: the failure names a removal or a write that was to fail so. */
  lemma FailuresAreFaults(disk: Disk, d: Desired, faults: Faults, hash: Hash)
    ensures var w := AfterPass(disk, d, faults, hash);
            w.error.Some? ==>
              || (exists i :: i in disk.manifest && disk.manifest[i].path == w.error.value.path
                              && Hits(faults.removals, i, w.error.value.fault))
              || (exists i :: i in d && d[i].path == w.error.value.path
                              && Hits(faults.writes, d[i].id, w.error.value.fault))
  {
    hide RemoveAll, MaterializeAll, SortedKeys, Less;
    var ids := ObsoleteIds(SortedKeys(disk.manifest.Keys), disk.manifest, d);
    RemovalFailures(Start(disk), ids, disk.manifest, faults, hash);
    MaterializationFailures(AfterRemoval(disk, d, faults, hash), SortedKeys(d.Keys), d, faults, hash);
  }

  lemma {:induction false} RemovalFailures(w: Work, ids: seq<RecordId>, manifest: Manifest, faults: Faults, hash: Hash)
    requires w.error.None? && forall i :: i in ids ==> i in manifest
    ensures var after := RemoveAll(w, ids, manifest, faults, hash);
            after.error.Some? ==>
              exists i :: i in manifest && manifest[i].path == after.error.value.path
                          && Hits(faults.removals, i, after.error.value.fault)
    decreases |ids|
  {
    if ids != [] {
      var next := RemoveStep(w, ids[0], manifest[ids[0]], faults, hash);
      if next.error.Some? {
        FailedRemovalStops(next, ids[1..], manifest, faults, hash);
      } else {
        RemovalFailures(next, ids[1..], manifest, faults, hash);
      }
    }
  }

  lemma {:induction false} MaterializationFailures(w: Work, ids: seq<RecordId>, d: Desired, faults: Faults, hash: Hash)
    requires forall i :: i in ids ==> i in d
    ensures var after := MaterializeAll(w, ids, d, faults, hash);
            && (w.error.Some? ==> after == w)
            && (w.error.None? && after.error.Some? ==>
                  exists i :: i in d && d[i].path == after.error.value.path
                              && Hits(faults.writes, d[i].id, after.error.value.fault))
    decreases |ids|
  {
    if ids != [] {
      MaterializationFailures(MaterializeStep(w, d[ids[0]], faults, hash), ids[1..], d, faults, hash);
    }
  }
}
