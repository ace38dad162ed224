/** A pass of the projection step by step, with the user and the watcher in between: what it looked
    at can have changed by the time it acts. */
module ProjectionSteps {
  import opened Results
  import opened Integers
  import opened Strings
  import opened Projection
  import opened ProjectionSafety

  datatype Task = Removal(id: RecordId, entry: Entry) | Writing(file: DesiredFile)

  /** Each task looks at the file, records the coming change and prepares it, and changes the file. */
  datatype Stage = Look | Prepare | Change

  /** A pass under way, at this stage of its first task. */
  datatype Progress = Progress(work: Manifest, todo: seq<Task>, stage: Stage)

  datatype Live = Live(disk: Disk, pass: Option<Progress>)

  datatype Step =
    | UserEdit(path: Path, content: Option<Bytes>)
    | Observe(path: Path, fault: Option<ConsumeFault>)
    | Begin(desired: seq<DesiredFile>)
    | Tick(fails: bool)
    | Stop

  function PathOf(task: Task): Path {
    match task
    case Removal(_, entry) => entry.path
    case Writing(file) => file.path
  }

  function Removals(ids: seq<RecordId>, manifest: Manifest): seq<Task>
    requires forall i :: i in ids ==> i in manifest
  {
    if ids == [] then [] else [Removal(ids[0], manifest[ids[0]])] + Removals(ids[1..], manifest)
  }

  function Writings(ids: seq<RecordId>, d: Desired): seq<Task>
    requires forall i :: i in ids ==> i in d
  {
    if ids == [] then [] else [Writing(d[ids[0]])] + Writings(ids[1..], d)
  }

  /** The obsolete entries are collected before the first of them is removed. */
  function Tasks(manifest: Manifest, d: Desired): seq<Task> {
    Removals(ObsoleteIds(SortedKeys(manifest.Keys), manifest, d), manifest) + Writings(SortedKeys(d.Keys), d)
  }

  function Done(s: Live, work: Manifest): Live
    requires s.pass.Some? && s.pass.value.todo != []
  {
    s.(pass := Some(Progress(work, s.pass.value.todo[1..], Look)))
  }

  function Looked(s: Live, p: Progress, hash: Hash): Live
    requires s.pass == Some(p) && p.todo != []
  {
    var files, go := s.disk.files, s.(pass := Some(p.(stage := Prepare)));
    match p.todo[0]
    case Removal(id, entry) =>
      if entry.path !in files then Done(s, p.work - {id})
      else if hash(files[entry.path]) == entry.hash then go
      else Done(s, p.work)
    case Writing(file) =>
      if !SafeToWrite(files, p.work, file, hash) then Done(s, p.work)
      else if file.path in files && hash(files[file.path]) == hash(file.bytes) then
        Done(s, p.work[file.id := Entry(file.path, hash(file.bytes))])
      else go
  }

  function Mark(task: Task, hash: Hash): string {
    if task.Removal? then DELETED_HASH else hash(task.file.bytes)
  }

  /** A file that is gone cannot be removed; a written file replaces whatever is there. */
  function Changed(s: Live, p: Progress, fails: bool, hash: Hash): Live
    requires s.pass == Some(p) && p.todo != []
  {
    var path, disk := PathOf(p.todo[0]), s.disk;
    if fails || (p.todo[0].Removal? && path !in disk.files) then
      Live(disk.(expected := disk.expected - {path}), None)
    else match p.todo[0]
      case Removal(id, entry) => Done(s.(disk := disk.(files := disk.files - {path})), p.work - {id})
      case Writing(file) =>
        Done(s.(disk := disk.(files := disk.files[path := file.bytes])),
             p.work[file.id := Entry(path, hash(file.bytes))])
  }

  function Next(s: Live, step: Step, hash: Hash): Live {
    match step
    case UserEdit(path, content) =>
      s.(disk := After(s.disk, if content.Some? then UserWrite(path, content.value) else UserDelete(path), hash))
    case Observe(path, fault) => s.(disk := After(s.disk, Watch(path, fault), hash))
    case Begin(desired) =>
      if s.pass.Some? then s
      else s.(pass := Some(Progress(s.disk.manifest, Tasks(s.disk.manifest, UniqueDesired(desired)), Look)))
    case Stop => s.(pass := None)
    case Tick(fails) =>
      match s.pass
      case None => s
      case Some(p) =>
        if p.todo == [] then Live(if fails then s.disk else s.disk.(manifest := p.work), None)
        else match p.stage
          case Look => if fails then s.(pass := None) else Looked(s, p, hash)
          case Prepare =>
            var disk := s.disk.(expected := s.disk.expected[PathOf(p.todo[0]) := Mark(p.todo[0], hash)]);
            Live(disk, if fails then None else Some(p.(stage := Change)))
          case Change => Changed(s, p, fails, hash)
  }

  function AfterSteps(s: Live, steps: seq<Step>, hash: Hash): Live
    decreases |steps|
  {
    if steps == [] then s else AfterSteps(Next(s, steps[0], hash), steps[1..], hash)
  }

  // ----- A pass with nothing in between -------------------------------------------------------------------

  lemma {:induction false} AfterBoth(s: Live, first: seq<Step>, second: seq<Step>, hash: Hash)
    ensures AfterSteps(s, first + second, hash) == AfterSteps(AfterSteps(s, first, hash), second, hash)
    decreases |first|
  {
    if first == [] {
      assert first + second == second;
    } else {
      assert (first + second)[1..] == first[1..] + second;
      AfterBoth(Next(s, first[0], hash), first[1..], second, hash);
    }
  }

  /** The pass as the work `w` describes it, with these tasks left. */
  ghost predicate At(s: Live, w: Work, manifest: Manifest, todo: seq<Task>) {
    && s.disk == Disk(w.files, manifest, w.expected)
    && s.pass == if w.error.Some? then None else Some(Progress(w.manifest, todo, Look))
  }

  lemma TwoSteps(s: Live, a: Step, b: Step, hash: Hash)
    ensures AfterSteps(s, [a], hash) == Next(s, a, hash)
    ensures AfterSteps(s, [a, b], hash) == Next(Next(s, a, hash), b, hash)
  {
    assert AfterSteps(Next(s, a, hash), [b], hash) == Next(Next(s, a, hash), b, hash);
  }

  lemma ThreeSteps(s: Live, a: Step, b: Step, c: Step, hash: Hash)
    ensures AfterSteps(s, [a, b, c], hash) == Next(Next(Next(s, a, hash), b, hash), c, hash)
  {
    TwoSteps(Next(s, a, hash), b, c, hash);
    assert [a, b, c][1..] == [b, c];
  }

  ghost predicate OnlyTicks(steps: seq<Step>) {
    forall k :: 0 <= k < |steps| ==> steps[k].Tick?
  }

  lemma RemovalSteps(s: Live, w: Work, manifest: Manifest, todo: seq<Task>, faults: Faults, hash: Hash)
      returns (steps: seq<Step>)
    requires w.error.None? && todo != [] && todo[0].Removal? && At(s, w, manifest, todo)
    ensures OnlyTicks(steps)
    ensures At(AfterSteps(s, steps, hash), RemoveStep(w, todo[0].id, todo[0].entry, faults, hash), manifest, todo[1..])
  {
    var id := todo[0].id;
    var a, b, c :=
      Tick(Hits(faults.removals, id, ReadFails)),
      Tick(Hits(faults.removals, id, PrepareFails)),
      Tick(Hits(faults.removals, id, ChangeFails));
    TwoSteps(s, a, b, hash);
    ThreeSteps(s, a, b, c, hash);
    hide AfterSteps;
    var looked := Next(s, a, hash);
    steps := if looked.pass.None? || looked.pass.value.stage.Look? then [a] else if b.fails then [a, b] else [a, b, c];
  }

  predicate Replaces(w: Work, file: DesiredFile, hash: Hash) {
    && SafeToWrite(w.files, w.manifest, file, hash)
    && (file.path in w.files ==> hash(w.files[file.path]) != hash(file.bytes))
  }

  lemma WritingLooks(s: Live, w: Work, manifest: Manifest, todo: seq<Task>, faults: Faults, hash: Hash)
    requires w.error.None? && todo != [] && todo[0].Writing? && At(s, w, manifest, todo)
    ensures var file, fails := todo[0].file, Hits(faults.writes, todo[0].file.id, ReadFails);
            var looked := Next(s, Tick(fails), hash);
            if !fails && Replaces(w, file, hash)
            then looked == s.(pass := Some(Progress(w.manifest, todo, Prepare)))
            else At(looked, MaterializeStep(w, file, faults, hash), manifest, todo[1..])
  {
  }

  lemma WritingActs(s: Live, w: Work, manifest: Manifest, todo: seq<Task>, faults: Faults, hash: Hash)
    requires w.error.None? && todo != [] && todo[0].Writing? && Replaces(w, todo[0].file, hash)
    requires s == Live(Disk(w.files, manifest, w.expected), Some(Progress(w.manifest, todo, Prepare)))
    requires !Hits(faults.writes, todo[0].file.id, ReadFails)
    ensures var id, after := todo[0].file.id, MaterializeStep(w, todo[0].file, faults, hash);
            var prepared := Next(s, Tick(Hits(faults.writes, id, PrepareFails)), hash);
            if Hits(faults.writes, id, PrepareFails) then At(prepared, after, manifest, todo[1..])
            else At(Next(prepared, Tick(Hits(faults.writes, id, ChangeFails)), hash), after, manifest, todo[1..])
  {
    hide SafeToWrite;
  }

  lemma WritingSteps(s: Live, w: Work, manifest: Manifest, todo: seq<Task>, faults: Faults, hash: Hash)
      returns (steps: seq<Step>)
    requires w.error.None? && todo != [] && todo[0].Writing? && At(s, w, manifest, todo)
    ensures OnlyTicks(steps)
    ensures At(AfterSteps(s, steps, hash), MaterializeStep(w, todo[0].file, faults, hash), manifest, todo[1..])
  {
    hide Next, AfterSteps, MaterializeStep, SafeToWrite;
    var id := todo[0].file.id;
    var a, b, c :=
      Tick(Hits(faults.writes, id, ReadFails)),
      Tick(Hits(faults.writes, id, PrepareFails)),
      Tick(Hits(faults.writes, id, ChangeFails));
    TwoSteps(s, a, b, hash);
    ThreeSteps(s, a, b, c, hash);
    WritingLooks(s, w, manifest, todo, faults, hash);
    if !a.fails && Replaces(w, todo[0].file, hash) {
      WritingActs(Next(s, a, hash), w, manifest, todo, faults, hash);
      steps := if b.fails then [a, b] else [a, b, c];
    } else {
      steps := [a];
    }
  }

  lemma {:induction false} RemovalHalf(s: Live, w: Work, ids: seq<RecordId>, manifest: Manifest, rest: seq<Task>,
      faults: Faults, hash: Hash) returns (steps: seq<Step>)
    requires w.error.None? && (forall i :: i in ids ==> i in manifest)
    requires At(s, w, manifest, Removals(ids, manifest) + rest)
    ensures OnlyTicks(steps)
    ensures At(AfterSteps(s, steps, hash), RemoveAll(w, ids, manifest, faults, hash), manifest, rest)
    decreases |ids|
  {
    hide RemoveStep, Next, Removals;
    if ids == [] {
      NothingToDo(manifest, map[], rest);
      steps := [];
    } else {
      var todo := Removals(ids, manifest) + rest;
      FirstRemoval(ids, manifest, rest);
      var first := RemovalSteps(s, w, manifest, todo, faults, hash);
      var next := RemoveStep(w, ids[0], manifest[ids[0]], faults, hash);
      steps := first;
      if next.error.Some? {
        FailedRemovalStops(next, ids[1..], manifest, faults, hash);
      } else {
        var others := RemovalHalf(AfterSteps(s, first, hash), next, ids[1..], manifest, rest, faults, hash);
        AfterBoth(s, first, others, hash);
        steps := first + others;
      }
    }
  }

  lemma NothingToDo(manifest: Manifest, d: Desired, rest: seq<Task>)
    ensures Removals([], manifest) + rest == rest && Writings([], d) == []
  {
  }

  lemma FirstRemoval(ids: seq<RecordId>, manifest: Manifest, rest: seq<Task>)
    requires ids != [] && forall i :: i in ids ==> i in manifest
    ensures var todo := Removals(ids, manifest) + rest;
            && todo != [] && todo[0] == Removal(ids[0], manifest[ids[0]])
            && todo[1..] == Removals(ids[1..], manifest) + rest
  {
    FirstOf(Removal(ids[0], manifest[ids[0]]), Removals(ids[1..], manifest), rest);
  }

  lemma FirstOf<T>(x: T, s: seq<T>, t: seq<T>)
    ensures var all := [x] + s + t; all[0] == x && all[1..] == s + t
  {
  }

  lemma {:induction false} WritingHalf(s: Live, w: Work, ids: seq<RecordId>, manifest: Manifest, d: Desired,
      faults: Faults, hash: Hash) returns (steps: seq<Step>)
    requires w.error.None? && (forall i :: i in ids ==> i in d)
    requires At(s, w, manifest, Writings(ids, d))
    ensures OnlyTicks(steps)
    ensures At(AfterSteps(s, steps, hash), MaterializeAll(w, ids, d, faults, hash), manifest, [])
    decreases |ids|
  {
    hide MaterializeStep, Next;
    if ids == [] {
      steps := [];
    } else {
      var todo := Writings(ids, d);
      assert todo[0] == Writing(d[ids[0]]) && todo[1..] == Writings(ids[1..], d);
      var first := WritingSteps(s, w, manifest, todo, faults, hash);
      var next := MaterializeStep(w, d[ids[0]], faults, hash);
      steps := first;
      if next.error.Some? {
        FailedMaterializationStops(next, ids[1..], d, faults, hash);
      } else {
        var others := WritingHalf(AfterSteps(s, first, hash), next, ids[1..], manifest, d, faults, hash);
        AfterBoth(s, first, others, hash);
        steps := first + others;
      }
    }
  }

  /** The pass as one step is a course of these steps with nothing in between, whatever fails. */
  lemma PassIsItsSteps(disk: Disk, desired: seq<DesiredFile>, faults: Faults, hash: Hash) returns (steps: seq<Step>)
    ensures OnlyTicks(steps)
    ensures AfterSteps(Live(disk, None), [Begin(desired)] + steps, hash)
         == Live(Reconciled(disk, desired, faults, hash), None)
  {
    hide SortedKeys, Less, RemoveAll, MaterializeAll, Removals, Writings, Obsolete, UniqueFrom;
    var d := UniqueDesired(desired);
    var s := Next(Live(disk, None), Begin(desired), hash);
    var ids := ObsoleteIds(SortedKeys(disk.manifest.Keys), disk.manifest, d);
    var half := AfterRemoval(disk, d, faults, hash);
    var whole := AfterPass(disk, d, faults, hash);
    steps := RemovalHalf(s, Start(disk), ids, disk.manifest, Writings(SortedKeys(d.Keys), d), faults, hash);
    if half.error.Some? {
      FailedMaterializationStops(half, SortedKeys(d.Keys), d, faults, hash);
    } else {
      var written := WritingHalf(AfterSteps(s, steps, hash), half, SortedKeys(d.Keys), disk.manifest, d, faults, hash);
      AfterBoth(s, steps, written, hash);
      steps := steps + written;
      if whole.error.None? {
        LastTick(s, steps, whole, disk.manifest, faults, hash);
        steps := steps + [Tick(faults.manifestLost)];
      }
    }
    assert ([Begin(desired)] + steps)[1..] == steps;
  }

  lemma LastTick(s: Live, steps: seq<Step>, w: Work, manifest: Manifest, faults: Faults, hash: Hash)
    requires At(AfterSteps(s, steps, hash), w, manifest, []) && w.error.None?
    ensures AfterSteps(s, steps + [Tick(faults.manifestLost)], hash)
         == Live(Disk(w.files, if faults.manifestLost then manifest else w.manifest, w.expected), None)
  {
    AfterBoth(s, steps, [Tick(faults.manifestLost)], hash);
    TwoSteps(AfterSteps(s, steps, hash), Tick(faults.manifestLost), Stop, hash);
  }

  // ----- Local edits ----------------------------------------------------------------------------------------

  predicate Records(task: Task, path: Path, bytes: Bytes, hash: Hash) {
    match task
    case Removal(_, entry) => entry == Entry(path, hash(bytes))
    case Writing(file) => file.path == path && file.bytes == bytes
  }

  /** Content that neither the manifest nor the pass under way knows or wants at its path. */
  ghost predicate Foreign(s: Live, path: Path, bytes: Bytes, hash: Hash) {
    && Unrecorded(path, bytes, s.disk.manifest, hash)
    && (s.pass.Some? ==>
          && Unrecorded(path, bytes, s.pass.value.work, hash)
          && forall t :: t in s.pass.value.todo ==> !Records(t, path, bytes, hash))
  }

  /** The pass has looked at the file and goes on to remove or replace it. */
  predicate Decided(s: Live, path: Path) {
    && s.pass.Some? && s.pass.value.todo != [] && !s.pass.value.stage.Look?
    && PathOf(s.pass.value.todo[0]) == path
  }

  predicate Disturbs(step: Step, path: Path, bytes: Bytes) {
    match step
    case UserEdit(p, _) => p == path
    case Begin(desired) => Wants(UniqueDesired(desired), path, bytes)
    case Observe(_, _) => false
    case Tick(_) => false
    case Stop => false
  }

  ghost predicate Undisturbed(steps: seq<Step>, path: Path, bytes: Bytes) {
    forall k :: 0 <= k < |steps| ==> !Disturbs(steps[k], path, bytes)
  }

  ghost predicate Safe(s: Live, path: Path, bytes: Bytes, hash: Hash) {
    Holds(s.disk.files, path, bytes) && Foreign(s, path, bytes, hash) && !Decided(s, path)
  }

  lemma {:induction false} RemovalsOf(ids: seq<RecordId>, manifest: Manifest, t: Task)
    requires (forall i :: i in ids ==> i in manifest) && t in Removals(ids, manifest)
    ensures t.Removal? && t.id in ids && t.entry == manifest[t.id]
  {
    if t != Removal(ids[0], manifest[ids[0]]) { RemovalsOf(ids[1..], manifest, t); }
  }

  lemma {:induction false} WritingsOf(ids: seq<RecordId>, d: Desired, t: Task)
    requires (forall i :: i in ids ==> i in d) && t in Writings(ids, d)
    ensures t.Writing? && exists i :: i in ids && t.file == d[i]
  {
    if t != Writing(d[ids[0]]) { WritingsOf(ids[1..], d, t); }
  }

  lemma BeginKeepsEdit(s: Live, desired: seq<DesiredFile>, hash: Hash, path: Path, bytes: Bytes)
    requires Safe(s, path, bytes, hash) && !Wants(UniqueDesired(desired), path, bytes)
    ensures Safe(Next(s, Begin(desired), hash), path, bytes, hash)
  {
    hide SortedKeys, Less, Obsolete, UniqueFrom;
    var d := UniqueDesired(desired);
    forall t | t in Tasks(s.disk.manifest, d) ensures !Records(t, path, bytes, hash) {
      var ids := ObsoleteIds(SortedKeys(s.disk.manifest.Keys), s.disk.manifest, d);
      if t in Removals(ids, s.disk.manifest) {
        RemovalsOf(ids, s.disk.manifest, t);
      } else {
        WritingsOf(SortedKeys(d.Keys), d, t);
      }
    }
  }

  lemma LookKeepsEdit(s: Live, p: Progress, hash: Hash, path: Path, bytes: Bytes)
    requires ContentHash(hash) && Safe(s, path, bytes, hash) && s.pass == Some(p) && p.todo != []
    ensures Safe(Looked(s, p, hash), path, bytes, hash)
  {
    assert p.todo[0] in p.todo;
    assert forall t :: t in p.todo[1..] ==> t in p.todo;
  }

  lemma ChangeKeepsEdit(s: Live, p: Progress, fails: bool, hash: Hash, path: Path, bytes: Bytes)
    requires Safe(s, path, bytes, hash) && s.pass == Some(p) && p.todo != [] && p.stage.Change?
    ensures Safe(Changed(s, p, fails, hash), path, bytes, hash)
  {
    assert forall t :: t in p.todo[1..] ==> t in p.todo;
  }

  lemma TickKeepsEdit(s: Live, fails: bool, hash: Hash, path: Path, bytes: Bytes)
    requires ContentHash(hash) && Safe(s, path, bytes, hash)
    ensures Safe(Next(s, Tick(fails), hash), path, bytes, hash)
  {
    hide ContentHash, Looked, Changed;
    if s.pass.Some? && s.pass.value.todo != [] {
      LookKeepsEdit(s, s.pass.value, hash, path, bytes);
      if s.pass.value.stage.Change? {
        ChangeKeepsEdit(s, s.pass.value, fails, hash, path, bytes);
      }
    }
  }

  lemma StepKeepsEdit(s: Live, step: Step, hash: Hash, path: Path, bytes: Bytes)
    requires ContentHash(hash) && Safe(s, path, bytes, hash) && !Disturbs(step, path, bytes)
    ensures Safe(Next(s, step, hash), path, bytes, hash)
  {
    match step
    case UserEdit(_, _) =>
    case Observe(_, _) =>
    case Stop =>
    case Begin(desired) => BeginKeepsEdit(s, desired, hash, path, bytes);
    case Tick(fails) => TickKeepsEdit(s, fails, hash, path, bytes);
  }

  lemma {:induction false} EditStays(s: Live, steps: seq<Step>, hash: Hash, path: Path, bytes: Bytes)
    requires ContentHash(hash) && Safe(s, path, bytes, hash) && Undisturbed(steps, path, bytes)
    ensures Safe(AfterSteps(s, steps, hash), path, bytes, hash)
    decreases |steps|
  {
    hide Safe, Disturbs, Next;
    if steps != [] {
      StepKeepsEdit(s, steps[0], hash, path, bytes);
      EditStays(Next(s, steps[0], hash), steps[1..], hash, path, bytes);
    }
  }

  /** An edit in the window between the look at the file and its change is lost when the pass goes on. */
  lemma DecidedEditIsLost(s: Live, hash: Hash, path: Path, bytes: Bytes) returns (steps: seq<Step>)
    requires Foreign(s, path, bytes, hash) && Decided(s, path)
    ensures Undisturbed(steps, path, bytes)
    ensures !Holds(AfterSteps(Next(s, UserEdit(path, Some(bytes)), hash), steps, hash).disk.files, path, bytes)
  {
    var edited := Next(s, UserEdit(path, Some(bytes)), hash);
    assert s.pass.value.todo[0] in s.pass.value.todo;
    TwoSteps(edited, Tick(false), Tick(false), hash);
    steps := if s.pass.value.stage.Change? then [Tick(false)] else [Tick(false), Tick(false)];
  }

  /** Content the projection does not know or want, written by the user at any point of any run: no
      course of steps that leaves the path alone takes it away, if and only if no pass has already
      decided to change that very file. */
  lemma EditSurvivesExactly(s: Live, hash: Hash, path: Path, bytes: Bytes)
    requires ContentHash(hash) && Foreign(s, path, bytes, hash)
    ensures (forall steps :: Undisturbed(steps, path, bytes) ==>
               Holds(AfterSteps(Next(s, UserEdit(path, Some(bytes)), hash), steps, hash).disk.files, path, bytes))
            <==> !Decided(s, path)
  {
    hide AfterSteps, Undisturbed;
    var edited := Next(s, UserEdit(path, Some(bytes)), hash);
    if Decided(s, path) {
      var steps := DecidedEditIsLost(s, hash, path, bytes);
    } else {
      forall steps | Undisturbed(steps, path, bytes)
        ensures Holds(AfterSteps(edited, steps, hash).disk.files, path, bytes)
      {
        EditStays(edited, steps, hash, path, bytes);
      }
    }
  }
}
