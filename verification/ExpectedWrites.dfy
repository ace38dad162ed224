/** The table of expected writes over whole runs: which watcher events it swallows. */
module ExpectedWrites {
  import opened Results
  import opened Strings
  import opened Projection
  import ProjectionSafety

  /** The three operations on the table. An event carries the hash the file has when it is
      examined, or `None` if there is no file. */
  datatype Operation =
    | Record(path: Path, hash: string)
    | Forget(path: Path)
    | Event(path: Path, actual: Option<string>)

  type Table = map<Path, string>

  function After(table: Table, op: Operation): Table {
    match op
    case Record(path, hash) => table[path := hash]
    case Forget(path) => table - {path}
    case Event(path, _) => table - {path}
  }

  /** The table after the first `n` operations, starting empty. */
  function TableAt(ops: seq<Operation>, n: nat): Table
    requires n <= |ops|
  {
    if n == 0 then map[] else After(TableAt(ops, n - 1), ops[n - 1])
  }

  predicate Describes(actual: Option<string>, hash: string) {
    match actual
    case Some(h) => h == hash
    case None => hash == DELETED_HASH
  }

  predicate Swallowed(ops: seq<Operation>, i: nat) {
    i < |ops| && ops[i].Event?
    && ops[i].path in TableAt(ops, i) && Describes(ops[i].actual, TableAt(ops, i)[ops[i].path])
  }

  /** `j` is the last operation on the path before `i`, and it recorded `hash`. */
  predicate LastRecord(ops: seq<Operation>, j: nat, i: nat, path: Path, hash: string) {
    j < i <= |ops| && ops[j] == Record(path, hash) && forall k :: j < k < i ==> ops[k].path != path
  }

  /** The table holds exactly the hashes whose record is the last thing that happened to a path. */
  lemma {:induction false} TableHoldsLastRecords(ops: seq<Operation>, n: nat, path: Path, hash: string)
    requires n <= |ops|
    ensures (path in TableAt(ops, n) && TableAt(ops, n)[path] == hash) <==>
            exists j :: LastRecord(ops, j, n, path, hash)
  {
    if n > 0 {
      TableHoldsLastRecords(ops, n - 1, path, hash);
      if ops[n - 1] == Record(path, hash) {
        assert LastRecord(ops, n - 1, n, path, hash);
      } else if ops[n - 1].path != path {
        var m := n - 1;
        if exists j :: LastRecord(ops, j, m, path, hash) {
          var j :| LastRecord(ops, j, m, path, hash);
          assert LastRecord(ops, j, n, path, hash);
        }
        if exists j :: LastRecord(ops, j, n, path, hash) {
          var j :| LastRecord(ops, j, n, path, hash);
          assert LastRecord(ops, j, m, path, hash);
        }
      }
    }
  }

  /** An event is swallowed exactly when the file is as the projection last recorded it and
      nothing else, in particular no other event, has happened to the path since that record. */
  lemma SwallowedExactly(ops: seq<Operation>, i: nat)
    requires i < |ops| && ops[i].Event?
    ensures Swallowed(ops, i) <==>
            exists j, hash :: LastRecord(ops, j, i, ops[i].path, hash) && Describes(ops[i].actual, hash)
  {
    var path := ops[i].path;
    if path in TableAt(ops, i) {
      TableHoldsLastRecords(ops, i, path, TableAt(ops, i)[path]);
    }
    if j, hash :| LastRecord(ops, j, i, path, hash) && Describes(ops[i].actual, hash) {
      TableHoldsLastRecords(ops, i, path, hash);
    }
  }

  /** No record swallows two events. */
  lemma RecordSwallowsOnce(ops: seq<Operation>, j: nat, path: Path, h: string, g: string, i: nat, k: nat)
    requires LastRecord(ops, j, i, path, h) && LastRecord(ops, j, k, path, g)
    requires i < |ops| && k < |ops| && ops[i].path == path && ops[k].path == path
    ensures i == k && h == g
  {
  }

  function SwallowedAt(ops: seq<Operation>, n: nat, path: Path): nat
    requires n <= |ops|
  {
    if n == 0 then 0
    else SwallowedAt(ops, n - 1, path) + if ops[n - 1].path == path && Swallowed(ops, n - 1) then 1 else 0
  }

  function RecordsAt(ops: seq<Operation>, n: nat, path: Path): nat
    requires n <= |ops|
  {
    if n == 0 then 0
    else RecordsAt(ops, n - 1, path) + if ops[n - 1].path == path && ops[n - 1].Record? then 1 else 0
  }

  /** Over any run, at any path, at most as many events are swallowed as writes were recorded. */
  lemma {:induction false} SwallowsAtMostRecords(ops: seq<Operation>, n: nat, path: Path)
    requires n <= |ops|
    ensures SwallowedAt(ops, n, path) + (if path in TableAt(ops, n) then 1 else 0) <= RecordsAt(ops, n, path)
  {
    if n > 0 {
      SwallowsAtMostRecords(ops, n - 1, path);
    }
  }

  // ----- The operations of a run ---------------------------------------------------------------------------

  function Fold(table: Table, ops: seq<Operation>): Table
    decreases |ops|
  {
    if ops == [] then table else Fold(After(table, ops[0]), ops[1..])
  }

  lemma {:induction false} FoldAppend(table: Table, ops: seq<Operation>, more: seq<Operation>)
    ensures Fold(table, ops + more) == Fold(Fold(table, ops), more)
    decreases |ops|
  {
    if ops == [] {
      assert ops + more == more;
    } else {
      assert (ops + more)[1..] == ops[1..] + more;
      FoldAppend(After(table, ops[0]), ops[1..], more);
    }
  }

  lemma {:induction false} TableIsFold(ops: seq<Operation>, n: nat)
    requires n <= |ops|
    ensures TableAt(ops, n) == Fold(map[], ops[..n])
  {
    if n > 0 {
      TableIsFold(ops, n - 1);
      assert ops[..n] == ops[..n - 1] + [ops[n - 1]];
      FoldAppend(map[], ops[..n - 1], [ops[n - 1]]);
      assert [ops[n - 1]][1..] == [];
    }
  }

  /** A change is recorded before it is made; the record is taken back if the change cannot be
      made, but stays if the pass breaks off before trying. */
  function ChangeOps(path: Path, hash: string, faults: map<RecordId, Fault>, id: RecordId): seq<Operation> {
    if Hits(faults, id, ChangeFails) then [Record(path, hash), Forget(path)] else [Record(path, hash)]
  }

  function RemoveOps(w: Work, id: RecordId, entry: Entry, faults: Faults, hash: Hash): seq<Operation> {
    if w.error.Some? || Hits(faults.removals, id, ReadFails) then []
    else if entry.path !in w.files || hash(w.files[entry.path]) != entry.hash then []
    else ChangeOps(entry.path, DELETED_HASH, faults.removals, id)
  }

  function RemoveAllOps(w: Work, ids: seq<RecordId>, manifest: Manifest, faults: Faults, hash: Hash): seq<Operation>
    requires forall i :: i in ids ==> i in manifest
    decreases |ids|
  {
    if ids == [] then []
    else
      RemoveOps(w, ids[0], manifest[ids[0]], faults, hash)
      + RemoveAllOps(RemoveStep(w, ids[0], manifest[ids[0]], faults, hash), ids[1..], manifest, faults, hash)
  }

  function MaterializeOps(w: Work, file: DesiredFile, faults: Faults, hash: Hash): seq<Operation> {
    if w.error.Some? || Hits(faults.writes, file.id, ReadFails) then []
    else if !SafeToWrite(w.files, w.manifest, file, hash) then []
    else if file.path in w.files && hash(w.files[file.path]) == hash(file.bytes) then []
    else ChangeOps(file.path, hash(file.bytes), faults.writes, file.id)
  }

  function MaterializeAllOps(w: Work, ids: seq<RecordId>, d: Desired, faults: Faults, hash: Hash): seq<Operation>
    requires forall i :: i in ids ==> i in d
    decreases |ids|
  {
    if ids == [] then []
    else
      MaterializeOps(w, d[ids[0]], faults, hash)
      + MaterializeAllOps(MaterializeStep(w, d[ids[0]], faults, hash), ids[1..], d, faults, hash)
  }

  function PassOps(disk: Disk, files: seq<DesiredFile>, faults: Faults, hash: Hash): seq<Operation> {
    var d := UniqueDesired(files);
    var ids := ObsoleteIds(SortedKeys(disk.manifest.Keys), disk.manifest, d);
    RemoveAllOps(Start(disk), ids, disk.manifest, faults, hash)
    + MaterializeAllOps(AfterRemoval(disk, d, faults, hash), SortedKeys(d.Keys), d, faults, hash)
  }

  function Actual(files: Files, path: Path, hash: Hash): Option<string> {
    if path in files then Some(hash(files[path])) else None
  }

  function EventOps(disk: Disk, event: ProjectionSafety.Event, hash: Hash): seq<Operation> {
    match event
    case UserWrite(_, _) => []
    case UserDelete(_) => []
    case Pass(desired, faults) => PassOps(disk, desired, faults, hash)
    case Watch(path, None) => [Event(path, Actual(disk.files, path, hash))]
    case Watch(path, Some(FileUnreadable)) => []
    case Watch(path, Some(TableUnwritable)) => [Forget(path)]
  }

  /** Everything a run of edits, watcher events and passes does to the table, in order. */
  function RunOps(disk: Disk, events: seq<ProjectionSafety.Event>, hash: Hash): seq<Operation>
    decreases |events|
  {
    if events == [] then []
    else EventOps(disk, events[0], hash) + RunOps(ProjectionSafety.After(disk, events[0], hash), events[1..], hash)
  }

  lemma FoldChange(table: Table, path: Path, h: string, faults: map<RecordId, Fault>, id: RecordId)
    ensures Fold(table, ChangeOps(path, h, faults, id))
         == if Hits(faults, id, ChangeFails) then table - {path} else table[path := h]
  {
    assert [Record(path, h), Forget(path)][1..] == [Forget(path)];
    assert [Record(path, h)][1..] == [] && [Forget(path)][1..] == [];
    assert Fold(table[path := h], []) == table[path := h];
    assert Fold(table - {path}, []) == table - {path};
    assert Fold(table[path := h], [Forget(path)]) == Fold(table[path := h] - {path}, []);
    assert table[path := h] - {path} == table - {path};
  }

  lemma {:induction false} RemoveAllTable(w: Work, ids: seq<RecordId>, manifest: Manifest, faults: Faults, hash: Hash)
    requires forall i :: i in ids ==> i in manifest
    ensures RemoveAll(w, ids, manifest, faults, hash).expected
            == Fold(w.expected, RemoveAllOps(w, ids, manifest, faults, hash))
    decreases |ids|
  {
    if ids != [] {
      var entry := manifest[ids[0]];
      var next := RemoveStep(w, ids[0], entry, faults, hash);
      FoldChange(w.expected, entry.path, DELETED_HASH, faults.removals, ids[0]);
      FoldAppend(w.expected, RemoveOps(w, ids[0], entry, faults, hash),
        RemoveAllOps(next, ids[1..], manifest, faults, hash));
      RemoveAllTable(next, ids[1..], manifest, faults, hash);
    }
  }

  lemma {:induction false} MaterializeAllTable(w: Work, ids: seq<RecordId>, d: Desired, faults: Faults, hash: Hash)
    requires forall i :: i in ids ==> i in d
    ensures MaterializeAll(w, ids, d, faults, hash).expected
            == Fold(w.expected, MaterializeAllOps(w, ids, d, faults, hash))
    decreases |ids|
  {
    if ids != [] {
      var file := d[ids[0]];
      var next := MaterializeStep(w, file, faults, hash);
      FoldChange(w.expected, file.path, hash(file.bytes), faults.writes, file.id);
      FoldAppend(w.expected, MaterializeOps(w, file, faults, hash), MaterializeAllOps(next, ids[1..], d, faults, hash));
      MaterializeAllTable(next, ids[1..], d, faults, hash);
    }
  }

  lemma PassTable(disk: Disk, files: seq<DesiredFile>, faults: Faults, hash: Hash)
    ensures Reconciled(disk, files, faults, hash).expected == Fold(disk.expected, PassOps(disk, files, faults, hash))
  {
    hide RemoveAll, MaterializeAll, RemoveAllOps, MaterializeAllOps, Fold, UniqueDesired, SortedKeys, Less, Obsolete;
    var d := UniqueDesired(files);
    var ids := ObsoleteIds(SortedKeys(disk.manifest.Keys), disk.manifest, d);
    var w := AfterRemoval(disk, d, faults, hash);
    RemoveAllTable(Start(disk), ids, disk.manifest, faults, hash);
    MaterializeAllTable(w, SortedKeys(d.Keys), d, faults, hash);
    FoldAppend(disk.expected, RemoveAllOps(Start(disk), ids, disk.manifest, faults, hash),
               MaterializeAllOps(w, SortedKeys(d.Keys), d, faults, hash));
  }

  lemma EventTable(disk: Disk, event: ProjectionSafety.Event, hash: Hash)
    ensures ProjectionSafety.After(disk, event, hash).expected == Fold(disk.expected, EventOps(disk, event, hash))
  {
    hide Reconciled, PassOps;
    match event {
      case UserWrite(_, _) =>
      case UserDelete(_) =>
      case Pass(desired, faults) => PassTable(disk, desired, faults, hash);
      case Watch(path, fault) =>
    }
  }

  lemma {:induction false} RunTable(disk: Disk, events: seq<ProjectionSafety.Event>, hash: Hash)
    ensures ProjectionSafety.AfterAll(disk, events, hash).expected == Fold(disk.expected, RunOps(disk, events, hash))
    decreases |events|
  {
    hide EventOps;
    if events != [] {
      var next := ProjectionSafety.After(disk, events[0], hash);
      EventTable(disk, events[0], hash);
      FoldAppend(disk.expected, EventOps(disk, events[0], hash), RunOps(next, events[1..], hash));
      RunTable(next, events[1..], hash);
    }
  }

  /** After any run of edits, watcher events and passes, faults included, the watcher's next event
      for a path is swallowed exactly when the file, or its absence, is what the projection last
      recorded there and no event has used that record up. */
  lemma RunSwallowsExactly(disk: Disk, events: seq<ProjectionSafety.Event>, hash: Hash, path: Path)
    requires disk.expected == map[]
    ensures var after, ops := ProjectionSafety.AfterAll(disk, events, hash), RunOps(disk, events, hash);
            Expects(after, path, hash) <==>
            exists j, h :: LastRecord(ops, j, |ops|, path, h) && Describes(Actual(after.files, path, hash), h)
  {
    hide RunOps, ProjectionSafety.AfterAll;
    var after, ops := ProjectionSafety.AfterAll(disk, events, hash), RunOps(disk, events, hash);
    RunTable(disk, events, hash);
    TableIsFold(ops, |ops|);
    assert ops[..|ops|] == ops;
    if path in after.expected {
      TableHoldsLastRecords(ops, |ops|, path, after.expected[path]);
    }
    if j, h :| LastRecord(ops, j, |ops|, path, h) && Describes(Actual(after.files, path, hash), h) {
      TableHoldsLastRecords(ops, |ops|, path, h);
    }
  }
}
