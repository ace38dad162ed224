/** What the projection guarantees: local edits survive whole runs, faults included; a pass
    without local edits reaches the desired tree; a second pass changes no file. */
module ProjectionSafety {
  import opened Results
  import opened Integers
  import opened Sequences
  import opened Strings
  import opened Projection

  // ----- Local edits survive ----------------------------------------------------------------------------

  /** Content that no manifest entry recorded at its path. */
  predicate Unrecorded(path: Path, bytes: Bytes, manifest: Manifest, hash: Hash) {
    forall i :: i in manifest ==> manifest[i] != Entry(path, hash(bytes))
  }

  predicate Holds(files: Files, path: Path, bytes: Bytes) {
    path in files && files[path] == bytes
  }

  /** The store itself asks for exactly this content at this path. */
  predicate Wants(d: Desired, path: Path, bytes: Bytes) {
    exists i :: i in d && d[i].path == path && d[i].bytes == bytes
  }

  predicate Edited(w: Work, path: Path, bytes: Bytes, hash: Hash) {
    Holds(w.files, path, bytes) && Unrecorded(path, bytes, w.manifest, hash)
  }

  lemma {:induction false} RemovalKeepsEdit(w: Work, ids: seq<RecordId>, manifest: Manifest, faults: Faults,
      hash: Hash, path: Path, bytes: Bytes)
    requires forall i :: i in ids ==> i in manifest
    requires Edited(w, path, bytes, hash) && Unrecorded(path, bytes, manifest, hash)
    ensures Edited(RemoveAll(w, ids, manifest, faults, hash), path, bytes, hash)
    decreases |ids|
  {
    if ids != [] {
      var next := RemoveStep(w, ids[0], manifest[ids[0]], faults, hash);
      RemovalKeepsEdit(next, ids[1..], manifest, faults, hash, path, bytes);
    }
  }

  lemma {:induction false} MaterializationKeepsEdit(w: Work, ids: seq<RecordId>, d: Desired, faults: Faults,
      hash: Hash, path: Path, bytes: Bytes)
    requires ContentHash(hash) && forall i :: i in ids ==> i in d && d[i].id == i
    requires Edited(w, path, bytes, hash) && !Wants(d, path, bytes)
    ensures Edited(MaterializeAll(w, ids, d, faults, hash), path, bytes, hash)
    decreases |ids|
  {
    if ids != [] {
      assert !(d[ids[0]].path == path && d[ids[0]].bytes == bytes);
      MaterializationKeepsEdit(MaterializeStep(w, d[ids[0]], faults, hash), ids[1..], d, faults, hash, path, bytes);
    }
  }

  /** One pass, faulty or not, leaves a local edit in place and still unrecorded. */
  lemma PassKeepsEdit(disk: Disk, files: seq<DesiredFile>, faults: Faults, hash: Hash, path: Path, bytes: Bytes)
    requires ContentHash(hash) && !Wants(UniqueDesired(files), path, bytes)
    requires Holds(disk.files, path, bytes) && Unrecorded(path, bytes, disk.manifest, hash)
    ensures var after := Reconciled(disk, files, faults, hash);
            Holds(after.files, path, bytes) && Unrecorded(path, bytes, after.manifest, hash)
  {
    var d := UniqueDesired(files);
    UniqueFromWellKeyed(map[], files);
    var ids := ObsoleteIds(SortedKeys(disk.manifest.Keys), disk.manifest, d);
    RemovalKeepsEdit(Start(disk), ids, disk.manifest, faults, hash, path, bytes);
    MaterializationKeepsEdit(AfterRemoval(disk, d, faults, hash), SortedKeys(d.Keys), d, faults, hash, path, bytes);
  }

  datatype Event =
    | UserWrite(path: Path, bytes: Bytes)
    | UserDelete(path: Path)
    | Pass(desired: seq<DesiredFile>, faults: Faults)
    | Watch(path: Path, fault: Option<ConsumeFault>)

  function After(disk: Disk, event: Event, hash: Hash): Disk {
    match event
    case UserWrite(path, bytes) => disk.(files := disk.files[path := bytes])
    case UserDelete(path) => disk.(files := disk.files - {path})
    case Pass(desired, faults) => Reconciled(disk, desired, faults, hash)
    case Watch(path, fault) => if fault == Some(FileUnreadable) then disk else disk.(expected := disk.expected - {path})
  }

  function AfterAll(disk: Disk, events: seq<Event>, hash: Hash): Disk
    decreases |events|
  {
    if events == [] then disk else AfterAll(After(disk, events[0], hash), events[1..], hash)
  }

  /** The user changes this file, or the store asks for these very bytes in its place. */
  predicate Interferes(event: Event, path: Path, bytes: Bytes) {
    match event
    case UserWrite(p, _) => p == path
    case UserDelete(p) => p == path
    case Pass(desired, _) => Wants(UniqueDesired(desired), path, bytes)
    case Watch(_, _) => false
  }

  /** Over every run of user edits, watcher events and passes, complete or failing at any file, a
      file whose content the manifest never recorded at its path stays byte for byte as it was. */
  lemma {:induction false} LocalEditsSurvive(disk: Disk, events: seq<Event>, hash: Hash, path: Path, bytes: Bytes)
    requires ContentHash(hash)
    requires Holds(disk.files, path, bytes) && Unrecorded(path, bytes, disk.manifest, hash)
    requires forall k :: 0 <= k < |events| ==> !Interferes(events[k], path, bytes)
    ensures var after := AfterAll(disk, events, hash);
            Holds(after.files, path, bytes) && Unrecorded(path, bytes, after.manifest, hash)
    decreases |events|
  {
    if events != [] {
      assert !Interferes(events[0], path, bytes);
      if events[0].Pass? {
        PassKeepsEdit(disk, events[0].desired, events[0].faults, hash, path, bytes);
      }
      LocalEditsSurvive(After(disk, events[0], hash), events[1..], hash, path, bytes);
    }
  }

  // ----- What a complete pass does to every file -----------------------------------------------------------

  predicate MatchesEntry(files: Files, entry: Entry, hash: Hash) {
    entry.path in files && hash(files[entry.path]) == entry.hash
  }

  /** Some of these entries records the file at `path` as it is. */
  predicate Recorded(path: Path, ids: set<RecordId>, disk: Disk, hash: Hash)
    requires ids <= disk.manifest.Keys
  {
    exists i :: i in ids && disk.manifest[i].path == path && MatchesEntry(disk.files, disk.manifest[i], hash)
  }

  function ObsoleteSet(disk: Disk, d: Desired): set<RecordId> {
    set i | i in disk.manifest && Obsolete(i, disk.manifest, d)
  }

  /** An obsolete entry still matches the file. */
  predicate Removed(path: Path, disk: Disk, d: Desired, hash: Hash) {
    Recorded(path, ObsoleteSet(disk, d), disk, hash)
  }

  ghost predicate FilesRemoved(w: Work, disk: Disk, hash: Hash, done: set<RecordId>)
    requires done <= disk.manifest.Keys
  {
    && (forall p :: p in w.files <==> (p in disk.files && !Recorded(p, done, disk, hash)))
    && (forall p :: p in w.files ==> w.files[p] == disk.files[p])
  }

  ghost predicate EntriesForgotten(w: Work, disk: Disk, hash: Hash, done: set<RecordId>)
    requires done <= disk.manifest.Keys
  {
    && w.manifest.Keys <= disk.manifest.Keys
    && (forall i :: i in w.manifest ==> w.manifest[i] == disk.manifest[i])
    && (forall i :: i in disk.manifest && i !in done ==> i in w.manifest)
    && (forall i :: i in done && i in w.manifest ==>
          disk.manifest[i].path in disk.files && !MatchesEntry(disk.files, disk.manifest[i], hash))
  }

  ghost predicate RemovalInvariant(w: Work, disk: Disk, hash: Hash, done: set<RecordId>)
    requires done <= disk.manifest.Keys
  {
    w.error.None? && FilesRemoved(w, disk, hash, done) && EntriesForgotten(w, disk, hash, done)
  }

  lemma RecordedGrows(p: Path, disk: Disk, hash: Hash, done: set<RecordId>, id: RecordId)
    requires done <= disk.manifest.Keys && id in disk.manifest
    ensures Recorded(p, done + {id}, disk, hash) <==>
            || Recorded(p, done, disk, hash)
            || (p == disk.manifest[id].path && MatchesEntry(disk.files, disk.manifest[id], hash))
  {
    hide MatchesEntry;
    if Recorded(p, done, disk, hash) {
      var i :| i in done && disk.manifest[i].path == p && MatchesEntry(disk.files, disk.manifest[i], hash);
      assert i in done + {id};
    }
    assert id in done + {id};
  }

  lemma RemoveStepFiles(w: Work, disk: Disk, hash: Hash, done: set<RecordId>, id: RecordId)
    requires done <= disk.manifest.Keys && id in disk.manifest && w.error.None? && FilesRemoved(w, disk, hash, done)
    ensures FilesRemoved(RemoveStep(w, id, disk.manifest[id], NO_FAULTS, hash), disk, hash, done + {id})
  {
    hide Recorded;
    var after := RemoveStep(w, id, disk.manifest[id], NO_FAULTS, hash);
    forall p ensures p in after.files <==> (p in disk.files && !Recorded(p, done + {id}, disk, hash)) {
      RecordedGrows(p, disk, hash, done, id);
    }
  }

  lemma RemoveStepEntries(w: Work, disk: Disk, hash: Hash, done: set<RecordId>, id: RecordId)
    requires done <= disk.manifest.Keys && id in disk.manifest && w.error.None?
    requires FilesRemoved(w, disk, hash, done) && EntriesForgotten(w, disk, hash, done)
    ensures EntriesForgotten(RemoveStep(w, id, disk.manifest[id], NO_FAULTS, hash), disk, hash, done + {id})
  {
    hide Recorded;
  }

  lemma RemoveStepInvariant(w: Work, disk: Disk, hash: Hash, done: set<RecordId>, id: RecordId)
    requires done <= disk.manifest.Keys && id in disk.manifest
    requires RemovalInvariant(w, disk, hash, done)
    ensures RemovalInvariant(RemoveStep(w, id, disk.manifest[id], NO_FAULTS, hash), disk, hash, done + {id})
  {
    hide FilesRemoved, EntriesForgotten;
    RemoveStepFiles(w, disk, hash, done, id);
    RemoveStepEntries(w, disk, hash, done, id);
  }

  lemma {:induction false} RemoveAllInvariant(w: Work, disk: Disk, hash: Hash, done: set<RecordId>,
      ids: seq<RecordId>) returns (after: Work)
    requires done <= disk.manifest.Keys && forall i :: i in ids ==> i in disk.manifest
    requires RemovalInvariant(w, disk, hash, done)
    ensures after == RemoveAll(w, ids, disk.manifest, NO_FAULTS, hash)
    ensures forall i :: i in done || i in ids ==> i in disk.manifest
    ensures RemovalInvariant(after, disk, hash, done + set i | i in ids)
    decreases |ids|
  {
    if ids == [] {
      after := w;
      assert done + (set i | i in ids) == done;
    } else {
      RemoveStepInvariant(w, disk, hash, done, ids[0]);
      var next := RemoveStep(w, ids[0], disk.manifest[ids[0]], NO_FAULTS, hash);
      after := RemoveAllInvariant(next, disk, hash, done + {ids[0]}, ids[1..]);
      assert done + {ids[0]} + (set i | i in ids[1..]) == done + set i | i in ids;
    }
  }

  /** The state between the two halves of a complete pass. */
  ghost predicate HalfWay(w: Work, disk: Disk, d: Desired, hash: Hash) {
    && w.error.None?
    && (forall p :: p in w.files <==> (p in disk.files && !Removed(p, disk, d, hash)))
    && (forall p :: p in w.files ==> w.files[p] == disk.files[p])
    && (forall i :: i in w.manifest ==> i in disk.manifest && w.manifest[i] == disk.manifest[i])
    && (forall i :: i in disk.manifest && !Obsolete(i, disk.manifest, d) ==> i in w.manifest)
    && (forall i :: i in w.manifest && Obsolete(i, disk.manifest, d) ==>
          disk.manifest[i].path in disk.files && !MatchesEntry(disk.files, disk.manifest[i], hash))
  }

  lemma RemovalStarts(disk: Disk, hash: Hash)
    ensures RemovalInvariant(Start(disk), disk, hash, {})
  {
  }

  lemma RemovalEnds(w: Work, disk: Disk, d: Desired, hash: Hash)
    requires RemovalInvariant(w, disk, hash, ObsoleteSet(disk, d))
    ensures HalfWay(w, disk, d, hash)
  {
    hide Recorded, MatchesEntry, Obsolete;
    assert forall i :: i in disk.manifest ==> (i in ObsoleteSet(disk, d) <==> Obsolete(i, disk.manifest, d));
  }

  lemma ObsoleteIdsCover(disk: Disk, d: Desired)
    ensures (set i | i in ObsoleteIds(SortedKeys(disk.manifest.Keys), disk.manifest, d)) == ObsoleteSet(disk, d)
  {
  }

  lemma RemovalOutcome(disk: Disk, d: Desired, hash: Hash)
    ensures HalfWay(AfterRemoval(disk, d, NO_FAULTS, hash), disk, d, hash)
  {
    hide RemovalInvariant, HalfWay, SortedKeys, ObsoleteSet;
    var ids := ObsoleteIds(SortedKeys(disk.manifest.Keys), disk.manifest, d);
    RemovalStarts(disk, hash);
    var w := RemoveAllInvariant(Start(disk), disk, hash, {}, ids);
    ObsoleteIdsCover(disk, d);
    assert {} + (set i | i in ids) == ObsoleteSet(disk, d);
    RemovalEnds(w, disk, d, hash);
  }

  predicate SameFile(before: Files, after: Files, path: Path) {
    (path in before <==> path in after) && (path in before ==> before[path] == after[path])
  }

  predicate SameEntry(before: Manifest, after: Manifest, id: RecordId) {
    (id in before <==> id in after) && (id in before ==> before[id] == after[id])
  }

  /** Each desired file is written and recorded if that was safe, and left alone otherwise. */
  ghost predicate Settled(w: Work, after: Work, file: DesiredFile, hash: Hash) {
    if SafeToWrite(w.files, w.manifest, file, hash) then
      && Holds(after.files, file.path, file.bytes)
      && file.id in after.manifest && after.manifest[file.id] == Entry(file.path, hash(file.bytes))
    else
      SameFile(w.files, after.files, file.path) && SameEntry(w.manifest, after.manifest, file.id)
  }

  predicate Targets(ids: seq<RecordId>, d: Desired, path: Path) {
    exists i :: i in ids && i in d && d[i].path == path
  }

  lemma MaterializeStepOutcome(w: Work, file: DesiredFile, hash: Hash)
    requires ContentHash(hash) && w.error.None?
    ensures var after := MaterializeStep(w, file, NO_FAULTS, hash);
            && after.error.None? && Settled(w, after, file, hash)
            && (forall p :: p != file.path ==> SameFile(w.files, after.files, p))
            && (forall i :: i != file.id ==> SameEntry(w.manifest, after.manifest, i))
  {
  }

  lemma {:induction false} MaterializationOutcome(w: Work, ids: seq<RecordId>, d: Desired, hash: Hash)
    requires ContentHash(hash) && w.error.None? && WellKeyed(d) && NoRepeats(ids) && forall i :: i in ids ==> i in d
    ensures var after := MaterializeAll(w, ids, d, NO_FAULTS, hash);
            && after.error.None?
            && (forall i :: i in ids ==> Settled(w, after, d[i], hash))
            && (forall p :: !Targets(ids, d, p) ==> SameFile(w.files, after.files, p))
            && (forall i :: i !in ids ==> SameEntry(w.manifest, after.manifest, i))
    decreases |ids|
  {
    if ids != [] {
      var file := d[ids[0]];
      var next := MaterializeStep(w, file, NO_FAULTS, hash);
      MaterializeStepOutcome(w, file, hash);
      MaterializationOutcome(next, ids[1..], d, hash);
      var after := MaterializeAll(w, ids, d, NO_FAULTS, hash);
      assert ids == [ids[0]] + ids[1..];
      assert !Targets(ids[1..], d, file.path) by {
        forall i | i in ids[1..] && i in d ensures d[i].path != file.path {
          assert i != ids[0];
        }
      }
      forall i | i in ids ensures Settled(w, after, d[i], hash) {
        if i != ids[0] {
          assert i in ids[1..];
          assert d[i].path != file.path;
          assert SameFile(w.files, next.files, d[i].path) && SameEntry(w.manifest, next.manifest, i);
          assert Settled(next, after, d[i], hash);
        } else {
          assert ids[0] !in ids[1..];
        }
      }
      forall p | !Targets(ids, d, p) ensures SameFile(w.files, after.files, p) {
        assert p != file.path && !Targets(ids[1..], d, p);
      }
    }
  }

  ghost predicate PassEffect(disk: Disk, d: Desired, mid: Work, after: Work, hash: Hash) {
    && HalfWay(mid, disk, d, hash) && after.error.None?
    && (forall i :: i in d ==> Settled(mid, after, d[i], hash))
    && (forall p :: !Targets(SortedKeys(d.Keys), d, p) ==> SameFile(mid.files, after.files, p))
    && (forall i :: i !in d ==> SameEntry(mid.manifest, after.manifest, i))
  }

  lemma PassOutcome(disk: Disk, files: seq<DesiredFile>, hash: Hash)
    requires ContentHash(hash)
    ensures var d := UniqueDesired(files);
            && WellKeyed(d)
            && PassEffect(disk, d, AfterRemoval(disk, d, NO_FAULTS, hash), AfterPass(disk, d, NO_FAULTS, hash), hash)
  {
    var d := UniqueDesired(files);
    UniqueFromWellKeyed(map[], files);
    RemovalOutcome(disk, d, hash);
    SortedKeysDistinct(d.Keys);
    MaterializationOutcome(AfterRemoval(disk, d, NO_FAULTS, hash), SortedKeys(d.Keys), d, hash);
  }

  /** Exactly when one pass puts a desired file in place. */
  predicate CanPlace(disk: Disk, d: Desired, i: RecordId, hash: Hash)
    requires i in d
  {
    var path := d[i].path;
    || path !in disk.files
    || disk.files[path] == d[i].bytes
    || (i in disk.manifest && disk.manifest[i] == Entry(path, hash(disk.files[path])))
    || Removed(path, disk, d, hash)
  }

  lemma EffectPlaces(disk: Disk, d: Desired, mid: Work, after: Work, i: RecordId, hash: Hash)
    requires ContentHash(hash) && WellKeyed(d) && PassEffect(disk, d, mid, after, hash) && i in d
    ensures SafeToWrite(mid.files, mid.manifest, d[i], hash) <==> CanPlace(disk, d, i, hash)
    ensures Holds(after.files, d[i].path, d[i].bytes) <==> CanPlace(disk, d, i, hash)
    ensures !CanPlace(disk, d, i, hash) ==> SameFile(disk.files, after.files, d[i].path)
  {
    assert Settled(mid, after, d[i], hash);
  }

  lemma PlacedExactly(disk: Disk, files: seq<DesiredFile>, hash: Hash, i: RecordId)
    requires ContentHash(hash) && i in UniqueDesired(files)
    ensures var d := UniqueDesired(files);
            Holds(Reconciled(disk, files, NO_FAULTS, hash).files, d[i].path, d[i].bytes) <==> CanPlace(disk, d, i, hash)
  {
    PassOutcome(disk, files, hash);
    var d := UniqueDesired(files);
    EffectPlaces(disk, d, AfterRemoval(disk, d, NO_FAULTS, hash), AfterPass(disk, d, NO_FAULTS, hash), i, hash);
  }

  // ----- Without local edits -------------------------------------------------------------------------------

  predicate Tracked(path: Path, manifest: Manifest) {
    exists i :: i in manifest && manifest[i].path == path
  }

  /** Every recorded file is absent or as recorded, and nothing foreign is in the way. */
  predicate NoLocalEdits(disk: Disk, d: Desired, hash: Hash) {
    && (forall i :: i in disk.manifest && disk.manifest[i].path in disk.files ==>
          MatchesEntry(disk.files, disk.manifest[i], hash))
    && (forall i :: i in d && d[i].path in disk.files && disk.files[d[i].path] != d[i].bytes ==>
          Tracked(d[i].path, disk.manifest))
  }

  function ManifestOf(d: Desired, hash: Hash): Manifest {
    map i | i in d :: Entry(d[i].path, hash(d[i].bytes))
  }

  lemma CleanCanPlace(disk: Disk, d: Desired, hash: Hash, i: RecordId)
    requires WellKeyed(d) && NoLocalEdits(disk, d, hash) && i in d
    ensures CanPlace(disk, d, i, hash)
  {
    var path := d[i].path;
    if path in disk.files && disk.files[path] != d[i].bytes {
      var j :| j in disk.manifest && disk.manifest[j].path == path;
      assert MatchesEntry(disk.files, disk.manifest[j], hash);
      if Obsolete(j, disk.manifest, d) {
        assert Recorded(path, ObsoleteSet(disk, d), disk, hash);
      } else {
        assert j == i;
      }
    }
  }

  lemma CleanRemovesStale(disk: Disk, d: Desired, hash: Hash, p: Path)
    requires NoLocalEdits(disk, d, hash) && Tracked(p, disk.manifest) && !Targets(SortedKeys(d.Keys), d, p)
    ensures p in disk.files ==> Removed(p, disk, d, hash)
  {
    var j :| j in disk.manifest && disk.manifest[j].path == p;
    assert j in d ==> j in SortedKeys(d.Keys);
    assert Obsolete(j, disk.manifest, d);
    if p in disk.files {
      assert MatchesEntry(disk.files, disk.manifest[j], hash);
      assert Recorded(p, ObsoleteSet(disk, d), disk, hash);
    }
  }

  lemma CleanManifest(disk: Disk, d: Desired, mid: Work, after: Work, hash: Hash)
    requires ContentHash(hash) && WellKeyed(d) && PassEffect(disk, d, mid, after, hash) && NoLocalEdits(disk, d, hash)
    ensures after.manifest == ManifestOf(d, hash)
    ensures forall i :: i in d ==> Holds(after.files, d[i].path, d[i].bytes)
  {
    forall i | i in d
      ensures Holds(after.files, d[i].path, d[i].bytes)
      ensures i in after.manifest && after.manifest[i] == Entry(d[i].path, hash(d[i].bytes))
    {
      CleanCanPlace(disk, d, hash, i);
      EffectPlaces(disk, d, mid, after, i, hash);
      assert Settled(mid, after, d[i], hash);
    }
    forall i | i !in d ensures i !in after.manifest {
      assert SameEntry(mid.manifest, after.manifest, i);
    }
  }

  /** One pass without local edits or faults, path swaps included: every desired path holds its
      bytes, every formerly projected path no longer wanted is gone, nothing else is touched, and
      the manifest is exactly the desired set. */
  lemma CleanPassReachesDesired(disk: Disk, files: seq<DesiredFile>, hash: Hash)
    requires ContentHash(hash) && NoLocalEdits(disk, UniqueDesired(files), hash)
    ensures var d := UniqueDesired(files);
            var after := Reconciled(disk, files, NO_FAULTS, hash);
            && (forall i :: i in d ==> Holds(after.files, d[i].path, d[i].bytes))
            && (forall p :: Tracked(p, disk.manifest) && !Targets(SortedKeys(d.Keys), d, p) ==> p !in after.files)
            && (forall p :: !Tracked(p, disk.manifest) && !Targets(SortedKeys(d.Keys), d, p) ==>
                  SameFile(disk.files, after.files, p))
            && after.manifest == ManifestOf(d, hash)
  {
    PassOutcome(disk, files, hash);
    var d := UniqueDesired(files);
    var mid, after := AfterRemoval(disk, d, NO_FAULTS, hash), AfterPass(disk, d, NO_FAULTS, hash);
    CleanManifest(disk, d, mid, after, hash);
    forall p | !Targets(SortedKeys(d.Keys), d, p)
      ensures if Tracked(p, disk.manifest) then p !in after.files else SameFile(disk.files, after.files, p)
    {
      assert SameFile(mid.files, after.files, p);
      if Tracked(p, disk.manifest) {
        CleanRemovesStale(disk, d, hash, p);
      }
    }
  }

  predicate Lists(files: seq<DesiredFile>, p: Path) {
    exists k :: 0 <= k < |files| && files[k].path == p
  }

  lemma DistinctTargets(files: seq<DesiredFile>, p: Path)
    requires Distinct(files)
    ensures Targets(SortedKeys(UniqueDesired(files).Keys), UniqueDesired(files), p) <==> Lists(files, p)
  {
    hide Less, UniqueDesired;
    DistinctAreKept(files);
    var d := UniqueDesired(files);
    if Lists(files, p) {
      var k :| 0 <= k < |files| && files[k].path == p;
      assert files[k].id in SortedKeys(d.Keys);
    }
    if Targets(SortedKeys(d.Keys), d, p) {
      var i :| i in SortedKeys(d.Keys) && i in d && d[i].path == p;
      assert d[i] in files;
    }
  }

  /** The same on the list itself, when its identities and paths are all different: every file of the
      list is in place and recorded, and nothing else is tracked. */
  lemma CleanPassPlacesFiles(disk: Disk, files: seq<DesiredFile>, hash: Hash)
    requires ContentHash(hash) && Distinct(files)
    requires forall i :: i in disk.manifest && disk.manifest[i].path in disk.files ==>
               MatchesEntry(disk.files, disk.manifest[i], hash)
    requires forall k :: 0 <= k < |files| && files[k].path in disk.files && disk.files[files[k].path] != files[k].bytes
               ==> Tracked(files[k].path, disk.manifest)
    ensures var after := Reconciled(disk, files, NO_FAULTS, hash);
            && (forall k :: 0 <= k < |files| ==>
                  && Holds(after.files, files[k].path, files[k].bytes)
                  && files[k].id in after.manifest
                  && after.manifest[files[k].id] == Entry(files[k].path, hash(files[k].bytes)))
            && (forall i :: i in after.manifest ==> exists k :: 0 <= k < |files| && files[k].id == i)
            && (forall p :: Tracked(p, disk.manifest) && !Lists(files, p) ==> p !in after.files)
            && (forall p :: !Tracked(p, disk.manifest) && !Lists(files, p) ==> SameFile(disk.files, after.files, p))
  {
    hide Reconciled, UniqueDesired, Targets, Tracked, MatchesEntry;
    DistinctAreKept(files);
    var d := UniqueDesired(files);
    assert NoLocalEdits(disk, d, hash) by {
      assert forall i :: i in d ==> d[i] in files;
    }
    CleanPassReachesDesired(disk, files, hash);
    forall p ensures Targets(SortedKeys(d.Keys), d, p) <==> Lists(files, p) {
      DistinctTargets(files, p);
    }
  }

  // ----- A second pass -------------------------------------------------------------------------------------

  /** An obsolete entry that outlives a pass did not match its file before it. */
  lemma SurvivorsAreStale(disk: Disk, d: Desired, mid: Work, after: Work, hash: Hash, j: RecordId)
    requires WellKeyed(d) && PassEffect(disk, d, mid, after, hash)
    requires j in after.manifest && Obsolete(j, after.manifest, d)
    ensures j in disk.manifest && disk.manifest[j] == after.manifest[j]
    ensures disk.manifest[j].path in disk.files && !MatchesEntry(disk.files, disk.manifest[j], hash)
  {
    if j in d {
      assert Settled(mid, after, d[j], hash);
    } else {
      assert SameEntry(mid.manifest, after.manifest, j);
    }
  }

  lemma SecondRemovalOnlyOfRewritten(disk: Disk, d: Desired, mid: Work, after: Work, hash: Hash, p: Path)
    requires ContentHash(hash) && WellKeyed(d) && PassEffect(disk, d, mid, after, hash)
    requires Removed(p, Disk(after.files, after.manifest, after.expected), d, hash)
    ensures !SameFile(disk.files, after.files, p)
  {
    var again := Disk(after.files, after.manifest, after.expected);
    var j :| j in ObsoleteSet(again, d) && again.manifest[j].path == p
      && MatchesEntry(again.files, again.manifest[j], hash);
    SurvivorsAreStale(disk, d, mid, after, hash, j);
  }

  lemma SecondPassKeepsTarget(disk: Disk, d: Desired, mid: Work, after: Work, mid': Work, after': Work, hash: Hash,
      i: RecordId)
    requires ContentHash(hash) && WellKeyed(d) && i in d
    requires PassEffect(disk, d, mid, after, hash)
    requires PassEffect(Disk(after.files, after.manifest, after.expected), d, mid', after', hash)
    ensures SameFile(after.files, after'.files, d[i].path)
  {
    var once := Disk(after.files, after.manifest, after.expected);
    EffectPlaces(disk, d, mid, after, i, hash);
    EffectPlaces(once, d, mid', after', i, hash);
    if !CanPlace(disk, d, i, hash) && CanPlace(once, d, i, hash) {
      assert Settled(mid, after, d[i], hash);
      if Removed(d[i].path, once, d, hash) {
        SecondRemovalOnlyOfRewritten(disk, d, mid, after, hash, d[i].path);
      }
    }
  }

  lemma SecondPassKeepsPath(disk: Disk, d: Desired, mid: Work, after: Work, mid': Work, after': Work, hash: Hash,
      p: Path)
    requires ContentHash(hash) && WellKeyed(d)
    requires PassEffect(disk, d, mid, after, hash)
    requires PassEffect(Disk(after.files, after.manifest, after.expected), d, mid', after', hash)
    ensures SameFile(after.files, after'.files, p)
  {
    if Targets(SortedKeys(d.Keys), d, p) {
      var i :| i in SortedKeys(d.Keys) && i in d && d[i].path == p;
      SecondPassKeepsTarget(disk, d, mid, after, mid', after', hash, i);
    } else {
      assert SameFile(mid.files, after.files, p) && SameFile(mid'.files, after'.files, p);
      if Removed(p, Disk(after.files, after.manifest, after.expected), d, hash) {
        SecondRemovalOnlyOfRewritten(disk, d, mid, after, hash, p);
      }
    }
  }

  lemma SameEverywhere(f: Files, g: Files)
    requires forall p :: SameFile(f, g, p)
    ensures f == g
  {
    forall p ensures p in f <==> p in g {
      assert SameFile(f, g, p);
    }
    forall p | p in f ensures f[p] == g[p] {
      assert SameFile(f, g, p);
    }
  }

  /** Reconciling again with the same desired set changes no file, whatever stale entries and
      preserved edits there were, although it may delete and rewrite some of them. */
  lemma SecondPassChangesNothing(disk: Disk, files: seq<DesiredFile>, hash: Hash)
    requires ContentHash(hash)
    ensures var once := Reconciled(disk, files, NO_FAULTS, hash);
            Reconciled(once, files, NO_FAULTS, hash).files == once.files
  {
    var d := UniqueDesired(files);
    var once := Reconciled(disk, files, NO_FAULTS, hash);
    PassOutcome(disk, files, hash);
    PassOutcome(once, files, hash);
    var twice := Reconciled(once, files, NO_FAULTS, hash);
    forall p ensures SameFile(once.files, twice.files, p) {
      SecondPassKeepsPath(disk, d, AfterRemoval(disk, d, NO_FAULTS, hash), AfterPass(disk, d, NO_FAULTS, hash),
                          AfterRemoval(once, d, NO_FAULTS, hash), AfterPass(once, d, NO_FAULTS, hash), hash, p);
    }
    SameEverywhere(once.files, twice.files);
  }

  // ----- The events a pass causes --------------------------------------------------------------------------

  predicate Reported(report: Report, p: Path) {
    p in report.removed || p in report.materialized
  }

  predicate Recognized(w: Work, p: Path, hash: Hash) {
    Expects(Disk(w.files, w.manifest, w.expected), p, hash)
  }

  /** The pass failed at this path after recording what it was about to do there. */
  predicate BrokeOff(w: Work, p: Path) {
    w.error.Some? && w.error.value.path == p && w.error.value.fault != ReadFails
  }

  /** Every file that changed is reported and, unless the pass broke off there, has a record that
      will swallow the event of its change. Where it broke off no record matches the file. */
  predicate KnownAt(w: Work, p: Path, files: Files, hash: Hash) {
    && (BrokeOff(w, p) ==> !Recognized(w, p, hash))
    && (SameFile(files, w.files, p) || (Reported(w.report, p) && (BrokeOff(w, p) || Recognized(w, p, hash))))
  }

  ghost predicate Announced(w: Work, files: Files, hash: Hash) {
    forall p :: KnownAt(w, p, files, hash)
  }

  lemma RemoveStepAnnounces(w: Work, id: RecordId, entry: Entry, faults: Faults, hash: Hash, files: Files, p: Path)
    requires ContentHash(hash) && KnownAt(w, p, files, hash)
    ensures KnownAt(RemoveStep(w, id, entry, faults, hash), p, files, hash)
  {
  }

  lemma MaterializeStepAnnounces(w: Work, file: DesiredFile, faults: Faults, hash: Hash, files: Files, p: Path)
    requires ContentHash(hash) && KnownAt(w, p, files, hash)
    ensures KnownAt(MaterializeStep(w, file, faults, hash), p, files, hash)
  {
  }

  lemma {:induction false} RemovalAnnounces(w: Work, ids: seq<RecordId>, manifest: Manifest, faults: Faults, hash: Hash,
      files: Files)
    requires ContentHash(hash) && (forall i :: i in ids ==> i in manifest) && Announced(w, files, hash)
    ensures Announced(RemoveAll(w, ids, manifest, faults, hash), files, hash)
    decreases |ids|
  {
    hide KnownAt, RemoveStep, ContentHash;
    if ids != [] {
      var next := RemoveStep(w, ids[0], manifest[ids[0]], faults, hash);
      forall p ensures KnownAt(next, p, files, hash) {
        RemoveStepAnnounces(w, ids[0], manifest[ids[0]], faults, hash, files, p);
      }
      RemovalAnnounces(next, ids[1..], manifest, faults, hash, files);
    }
  }

  lemma {:induction false} MaterializationAnnounces(w: Work, ids: seq<RecordId>, d: Desired, faults: Faults, hash: Hash,
      files: Files)
    requires ContentHash(hash) && (forall i :: i in ids ==> i in d) && Announced(w, files, hash)
    ensures Announced(MaterializeAll(w, ids, d, faults, hash), files, hash)
    decreases |ids|
  {
    hide KnownAt, MaterializeStep, ContentHash;
    if ids != [] {
      var next := MaterializeStep(w, d[ids[0]], faults, hash);
      forall p ensures KnownAt(next, p, files, hash) {
        MaterializeStepAnnounces(w, d[ids[0]], faults, hash, files, p);
      }
      MaterializationAnnounces(next, ids[1..], d, faults, hash, files);
    }
  }

  lemma PassAnnounces(disk: Disk, d: Desired, faults: Faults, hash: Hash)
    requires ContentHash(hash)
    ensures Announced(AfterPass(disk, d, faults, hash), disk.files, hash)
  {
    hide RemoveStep, MaterializeStep, Obsolete;
    var ids := ObsoleteIds(SortedKeys(disk.manifest.Keys), disk.manifest, d);
    RemovalAnnounces(Start(disk), ids, disk.manifest, faults, hash, disk.files);
    MaterializationAnnounces(AfterRemoval(disk, d, faults, hash), SortedKeys(d.Keys), d, faults, hash, disk.files);
  }

  /** Any file a pass changed, complete or not, is in its report, and a watcher event for it is
      recognized as the projection's own if and only if the pass did not break off at that very
      file; once the user changes the file again it is not recognized any more. */
  lemma OwnWritesAreExpected(disk: Disk, files: seq<DesiredFile>, faults: Faults, hash: Hash, p: Path, edit: Bytes)
    requires ContentHash(hash)
    requires !SameFile(disk.files, Reconciled(disk, files, faults, hash).files, p)
    ensures var w := AfterPass(disk, UniqueDesired(files), faults, hash);
            var after := Reconciled(disk, files, faults, hash);
            && Reported(w.report, p)
            && (Expects(after, p, hash) <==> !BrokeOff(w, p))
            && (!BrokeOff(w, p) && !Holds(after.files, p, edit) ==>
                  !Expects(after.(files := after.files[p := edit]), p, hash))
  {
    hide AfterPass, UniqueDesired;
    PassAnnounces(disk, UniqueDesired(files), faults, hash);
    assert KnownAt(AfterPass(disk, UniqueDesired(files), faults, hash), p, disk.files, hash);
  }

  lemma SwapDesired(x: Bytes, y: Bytes)
    ensures UniqueDesired([DesiredFile("a", "q", x), DesiredFile("b", "p", y)])
         == map["a" := DesiredFile("a", "q", x), "b" := DesiredFile("b", "p", y)]
  {
    var a, b := DesiredFile("a", "q", x), DesiredFile("b", "p", y);
    assert [a, b][1..] == [b] && [b][1..] == [];
    assert UniqueFrom(map["a" := a], [b]) == UniqueFrom(map["a" := a, "b" := b], []);
  }

  lemma SwapKeys()
    ensures SortedKeys({"a", "b"}) == ["a", "b"]
  {
    var keys := SortedKeys({"a", "b"});
    assert |{"a", "b"}| == 2;
    assert "a" in keys && "b" in keys && keys[0] in {"a", "b"} && keys[1] in {"a", "b"};
    assert Less(keys[0], keys[1]);
    assert !Less("b", "a") && !Less("a", "a") && !Less("b", "b");
  }

  const SWAP_FAULTS := Faults(map[], map["b" := ChangeFails], false)

  function SwapDisk(hash: Hash, x: Bytes, y: Bytes): Disk {
    Disk(map["p" := x, "q" := y], map["a" := Entry("p", hash(x)), "b" := Entry("q", hash(y))], map[])
  }

  function SwapSet(x: Bytes, y: Bytes): Desired {
    map["a" := DesiredFile("a", "q", x), "b" := DesiredFile("b", "p", y)]
  }

  lemma SwapObsolete(hash: Hash, x: Bytes, y: Bytes)
    ensures var m := SwapDisk(hash, x, y).manifest;
            m.Keys == {"a", "b"} && ObsoleteIds(["a", "b"], m, SwapSet(x, y)) == ["a", "b"]
  {
    var m, d := SwapDisk(hash, x, y).manifest, SwapSet(x, y);
    assert ["a", "b"][1..] == ["b"] && ["b"][1..] == [];
    assert ObsoleteIds(["b"], m, d) == ["b"] + ObsoleteIds([], m, d);
  }

  lemma SwapRemoved(hash: Hash, x: Bytes, y: Bytes)
    ensures var w := AfterRemoval(SwapDisk(hash, x, y), SwapSet(x, y), SWAP_FAULTS, hash);
            w.error.None? && w.files == map[] && w.expected == map["p" := DELETED_HASH, "q" := DELETED_HASH]
  {
    hide ObsoleteIds, SwapSet, SortedKeys;
    var disk := SwapDisk(hash, x, y);
    SwapObsolete(hash, x, y);
    SwapKeys();
    assert ["a", "b"][1..] == ["b"] && ["b"][1..] == [];
    var s1 := RemoveStep(Start(disk), "a", disk.manifest["a"], SWAP_FAULTS, hash);
    var s2 := RemoveStep(s1, "b", disk.manifest["b"], SWAP_FAULTS, hash);
    assert RemoveAll(s1, ["b"], disk.manifest, SWAP_FAULTS, hash)
      == RemoveAll(s2, [], disk.manifest, SWAP_FAULTS, hash);
  }

  lemma SwapWritten(w: Work, x: Bytes, y: Bytes, hash: Hash)
    requires w.error.None? && w.files == map[]
    ensures var after := MaterializeAll(w, ["a", "b"], SwapSet(x, y), SWAP_FAULTS, hash);
            after.files == map["q" := x] && "p" !in after.expected
  {
    assert ["a", "b"][1..] == ["b"] && ["b"][1..] == [];
    var s1 := MaterializeStep(w, SwapSet(x, y)["a"], SWAP_FAULTS, hash);
    var s2 := MaterializeStep(s1, SwapSet(x, y)["b"], SWAP_FAULTS, hash);
    assert MaterializeAll(s1, ["b"], SwapSet(x, y), SWAP_FAULTS, hash)
      == MaterializeAll(s2, [], SwapSet(x, y), SWAP_FAULTS, hash);
  }

  /** A pass that removes a file and then cannot write its new content leaves the removal without
      a record: two records swap their paths, and the second write fails. */
  lemma SwapLosesRecord(hash: Hash, x: Bytes, y: Bytes)
    ensures var disk, files := SwapDisk(hash, x, y), [DesiredFile("a", "q", x), DesiredFile("b", "p", y)];
            var after := Reconciled(disk, files, SWAP_FAULTS, hash);
            "p" in disk.files && "p" !in after.files && !Expects(after, "p", hash)
  {
    hide AfterRemoval, MaterializeAll, UniqueDesired, SortedKeys;
    SwapDesired(x, y);
    SwapRemoved(hash, x, y);
    SwapKeys();
    assert SwapSet(x, y).Keys == {"a", "b"};
    SwapWritten(AfterRemoval(SwapDisk(hash, x, y), SwapSet(x, y), SWAP_FAULTS, hash), x, y, hash);
  }
}
