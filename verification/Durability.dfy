/** Durable before visible: the server's store, its snapshot file and what clients get to see,
    as a state machine that can lose power between any two steps of a flush. */
module Durability {
  import opened Results

  type Change = nat

  /** A file as the operating system shows it. Only when `whole` has its data reached the disk. */
  datatype File = Missing | File(changes: set<Change>, whole: bool)

  /** The snapshot's name has a meaning now and one that would survive a power loss. */
  datatype Disk = Disk(temporary: File, current: File, stable: File)

  datatype FlushStep = Create | Write | Sync | Rename | SyncDirectory

  datatype Phase = Down | Idle | Flushing(step: FlushStep, opening: bool)

  datatype State = State(
    memory: set<Change>,
    phase: Phase,
    disk: Disk,
    /** The last flush of this process failed. */
    failed: bool,
    /** Changes whose event is sent after the lock is released. */
    owed: set<Change>,
    /** Changes that some message or event has reflected. */
    visible: set<Change>)

  datatype Step =
    | Open
    | Put(change: Change)
    | Receive(changes: set<Change>)
    | Advance
    | Fail
    | Generate
    | Announce(changes: set<Change>)
    | Stop
    | Crash(renamed: bool)

  const EMPTY := Disk(Missing, Missing, Missing)
  const INITIAL := State({}, Down, EMPTY, false, {}, {})

  function Changes(file: File): set<Change> {
    if file.Missing? then {} else file.changes
  }

  /** What opening the snapshot finds after a power loss; nothing can load a torn file. */
  function Found(disk: Disk, renamed: bool): Option<set<Change>> {
    var file := if renamed then disk.current else disk.stable;
    match file
    case Missing => Some({})
    case File(changes, whole) => if whole then Some(changes) else None
  }

  function Following(step: FlushStep): FlushStep
    requires !step.SyncDirectory?
  {
    match step
    case Create => Write
    case Write => Sync
    case Sync => Rename
    case Rename => SyncDirectory
  }

  /** One step of `atomic_write`. */
  function Written(disk: Disk, step: FlushStep, memory: set<Change>): Disk {
    match step
    case Create => disk.(temporary := File({}, false))
    case Write => disk.(temporary := File(memory, false))
    case Sync => if disk.temporary.File? then disk.(temporary := disk.temporary.(whole := true)) else disk
    case Rename => disk.(temporary := Missing, current := disk.temporary)
    case SyncDirectory => disk.(stable := disk.current)
  }

  /** A step that is not enabled changes nothing. The lock keeps every other operation on the
      store out of a flush; only crashes and the sending of owed events come between its steps. */
  function Next(s: State, step: Step): State {
    match step
    case Open =>
      if !s.phase.Down? || Found(s.disk, true).None? then s
      else s.(memory := Found(s.disk, true).value, phase := Flushing(Create, true), failed := false)
    case Put(change) =>
      if !s.phase.Idle? || change in s.memory then s
      else s.(memory := s.memory + {change}, phase := Flushing(Create, false))
    case Receive(changes) =>
      if !s.phase.Idle? || changes <= s.memory then s
      else s.(memory := s.memory + changes, phase := Flushing(Create, false))
    case Advance =>
      if !s.phase.Flushing? then s
      else
        var disk := Written(s.disk, s.phase.step, s.memory);
        if s.phase.step.SyncDirectory? then
          var owed := if s.phase.opening then s.owed else s.owed + s.memory;
          s.(disk := disk, phase := Idle, failed := false, owed := owed)
        else s.(disk := disk, phase := Flushing(Following(s.phase.step), s.phase.opening))
    case Fail =>
      if !s.phase.Flushing? then s
      else if s.phase.opening then s.(phase := Down)
      else s.(phase := Idle, failed := true)
    case Generate =>
      if !s.phase.Idle? then s else s.(visible := s.visible + s.memory)
    case Announce(changes) =>
      if s.phase.Down? || !(changes <= s.owed) then s else s.(visible := s.visible + changes)
    // The process ends, and the disk stays as the operating system shows it.
    case Stop => s.(memory := {}, phase := Down, owed := {})
    // The power fails; a rename that was not synced may have reached the disk or not.
    case Crash(renamed) =>
      var file := if renamed then s.disk.current else s.disk.stable;
      s.(memory := {}, phase := Down, disk := Disk(Missing, file, file), owed := {})
  }

  function AfterSteps(s: State, steps: seq<Step>): State
    decreases |steps|
  {
    if steps == [] then s else AfterSteps(Next(s, steps[0]), steps[1..])
  }

  // ----- The replica ---------------------------------------------------------------------------------------

  function Remaining(step: FlushStep): nat {
    match step
    case Create => 4
    case Write => 3
    case Sync => 2
    case Rename => 1
    case SyncDirectory => 0
  }

  /** The steps of one flush, up to the one that fails. */
  function FlushSteps(from: FlushStep, fault: Option<FlushStep>): seq<Step>
    decreases Remaining(from)
  {
    if fault == Some(from) then [Fail]
    else if from.SyncDirectory? then [Advance]
    else [Advance] + FlushSteps(Following(from), fault)
  }

  /** A running server, its lock not held. */
  class Replica {
    var memory: set<Change>
    var disk: Disk
    var failed: bool
    var owed: set<Change>
    ghost var visible: set<Change>

    constructor (memory: set<Change>, disk: Disk)
      ensures Current() == State(memory, Idle, disk, false, {}, {})
    {
      this.memory := memory;
      this.disk := disk;
      this.failed := false;
      this.owed := {};
      this.visible := {};
    }

    ghost function Current(): State
      reads this
    {
      State(memory, Idle, disk, failed, owed, visible)
    }

    /** `flush`: each step of `atomic_write`, unless `fault` makes it the last. */
    method Flush(fault: Option<FlushStep>) returns (ok: bool)
      modifies `disk, `failed, `owed
      ensures ok <==> fault.None?
      ensures Current() == AfterSteps(old(Current()).(phase := Flushing(Create, false)), FlushSteps(Create, fault))
    {
      ghost var start := Current().(phase := Flushing(Create, false));
      var step := Create;
      while true
        invariant AfterSteps(start, FlushSteps(Create, fault))
               == AfterSteps(Current().(phase := Flushing(step, false)), FlushSteps(step, fault))
        invariant fault.Some? ==> Remaining(fault.value) <= Remaining(step)
        invariant failed == old(failed) && owed == old(owed)
        decreases Remaining(step)
      {
        if fault == Some(step) {
          failed := true;
          return false;
        }
        disk := Written(disk, step, memory);
        if step == SyncDirectory {
          failed, owed := false, owed + memory;
          return true;
        }
        assert FlushSteps(step, fault)[1..] == FlushSteps(Following(step), fault);
        step := Following(step);
      }
    }

    /** `put_record`: the change, then the flush, under the lock; the event is owed on success. */
    method PutRecord(change: Change, fault: Option<FlushStep>) returns (ok: bool)
      requires change !in memory
      modifies this
      ensures ok <==> fault.None?
      ensures Current() == AfterSteps(old(Current()), [Put(change)] + FlushSteps(Create, fault))
    {
      memory := memory + {change};
      ok := Flush(fault);
      assert ([Put(change)] + FlushSteps(Create, fault))[1..] == FlushSteps(Create, fault);
    }

    /** `receive_sync_message`: flushes only when the message brought something new. */
    method ReceiveSyncMessage(changes: set<Change>, fault: Option<FlushStep>) returns (r: Result<bool, ()>)
      modifies this
      ensures r == if changes <= old(memory) then Ok(false) else if fault.None? then Ok(true) else Err(())
      ensures Current() == AfterSteps(old(Current()),
                if changes <= old(memory) then [] else [Receive(changes)] + FlushSteps(Create, fault))
    {
      if changes <= memory {
        return Ok(false);
      }
      memory := memory + changes;
      var ok := Flush(fault);
      assert ([Receive(changes)] + FlushSteps(Create, fault))[1..] == FlushSteps(Create, fault);
      return if ok then Ok(true) else Err(());
    }

    /** `generate_sync_message`: whatever memory holds may be sent. */
    method GenerateSyncMessage() returns (message: set<Change>)
      modifies `visible
      ensures message == memory
      ensures Current() == AfterSteps(old(Current()), [Generate])
    {
      visible := visible + memory;
      message := memory;
    }

    /** The event sent after the lock is released. */
    method SendEvent() returns (changes: set<Change>)
      modifies `visible
      ensures changes == owed
      ensures Current() == AfterSteps(old(Current()), [Announce(owed)])
    {
      visible := visible + owed;
      changes := owed;
    }
  }

  // ----- What every run keeps ------------------------------------------------------------------------------

  predicate Loadable(file: File) {
    file.File? ==> file.whole
  }

  ghost predicate Invariant(s: State) {
    && Loadable(s.disk.current) && Loadable(s.disk.stable)
    && Changes(s.disk.stable) <= Changes(s.disk.current)
    && (!s.phase.Down? ==> Changes(s.disk.current) <= s.memory)
    && s.owed <= Changes(s.disk.stable)
    && (s.phase.Idle? ==> (s.failed <==> !(s.memory <= Changes(s.disk.stable))))
    && (s.phase.Flushing? ==>
          && (s.phase.step.Sync? ==> s.disk.temporary == File(s.memory, false))
          && (s.phase.step.Rename? ==> s.disk.temporary == File(s.memory, true))
          && (s.phase.step.SyncDirectory? ==> s.disk.current == File(s.memory, true))
          && (!s.phase.opening ==> !(s.memory <= Changes(s.disk.stable))))
  }

  lemma StepKeepsInvariant(s: State, step: Step)
    requires Invariant(s)
    ensures Invariant(Next(s, step))
  {
  }

  /** Whatever a power loss leaves, opening finds a complete snapshot holding everything that any
      message or event has reflected. */
  ghost predicate Durable(s: State) {
    forall renamed :: Found(s.disk, renamed).Some? && s.visible <= Found(s.disk, renamed).value
  }

  /** Also in runs with failed flushes, a power loss never leaves a snapshot that does not load. */
  lemma {:induction false} SnapshotAlwaysLoads(s: State, steps: seq<Step>)
    requires Invariant(s)
    ensures forall renamed :: Found(AfterSteps(s, steps).disk, renamed).Some?
    ensures Invariant(AfterSteps(s, steps))
    decreases |steps|
  {
    if steps != [] {
      StepKeepsInvariant(s, steps[0]);
      SnapshotAlwaysLoads(Next(s, steps[0]), steps[1..]);
    }
  }

  ghost predicate AlwaysDurable(s: State, steps: seq<Step>)
    decreases |steps|
  {
    Durable(s) && (steps != [] ==> AlwaysDurable(Next(s, steps[0]), steps[1..]))
  }

  /** No message is generated while the last flush of the running process has failed. */
  predicate NoMessageAfterFailure(s: State, steps: seq<Step>)
    decreases |steps|
  {
    steps != [] ==>
      && !(steps[0].Generate? && s.phase.Idle? && s.failed)
      && NoMessageAfterFailure(Next(s, steps[0]), steps[1..])
  }

  lemma DurableWhen(s: State)
    requires Invariant(s)
    ensures Durable(s) <==> s.visible <= Changes(s.disk.stable)
  {
    if Durable(s) {
      assert Found(s.disk, false).Some? && s.visible <= Found(s.disk, false).value;
    }
  }

  lemma StepStaysDurable(s: State, step: Step)
    requires Invariant(s) && Durable(s)
    ensures Durable(Next(s, step)) <==> !(step.Generate? && s.phase.Idle? && s.failed)
  {
    hide Durable;
    DurableWhen(s);
    StepKeepsInvariant(s, step);
    DurableWhen(Next(s, step));
  }

  /** Every message sent and event raised reflects only what a reopen would find on disk, at every
      point of the run, exactly when the process sends no message after a failed flush. */
  lemma {:induction false} DurableBeforeVisible(s: State, steps: seq<Step>)
    requires Invariant(s) && Durable(s)
    ensures AlwaysDurable(s, steps) <==> NoMessageAfterFailure(s, steps)
    decreases |steps|
  {
    hide Durable, Invariant;
    if steps != [] {
      StepStaysDurable(s, steps[0]);
      StepKeepsInvariant(s, steps[0]);
      if Durable(Next(s, steps[0])) {
        DurableBeforeVisible(Next(s, steps[0]), steps[1..]);
      }
    }
  }

  /** Whether a failed flush ends the process before anything else happens. */
  predicate FailureCrashes(steps: seq<Step>) {
    forall k :: 0 <= k < |steps| - 1 && steps[k].Fail? ==> steps[k + 1].Stop? || steps[k + 1].Crash?
  }

  lemma {:induction false} FailureCrashesSendsNothing(s: State, steps: seq<Step>)
    requires FailureCrashes(steps)
    requires s.phase.Idle? && s.failed ==> steps != [] ==> steps[0].Stop? || steps[0].Crash?
    ensures NoMessageAfterFailure(s, steps)
    decreases |steps|
  {
    if steps != [] {
      var rest := steps[1..];
      forall k | 0 <= k < |rest| - 1 && rest[k].Fail? ensures rest[k + 1].Stop? || rest[k + 1].Crash? {
        assert steps[k + 1].Fail?;
      }
      FailureCrashesSendsNothing(Next(s, steps[0]), rest);
    }
  }

  /** With a failed flush counted as a crash, the guarantee holds in every run of the server. */
  lemma CrashingRunsAreDurable(steps: seq<Step>)
    requires FailureCrashes(steps)
    ensures AlwaysDurable(INITIAL, steps)
  {
    FailureCrashesSendsNothing(INITIAL, steps);
    DurableBeforeVisible(INITIAL, steps);
  }

  /** However a process ends, the next one starts with everything any message or event has reflected,
      as long as the guarantee held until then. */
  lemma RestartKeepsVisible(s: State, end: Step)
    requires Invariant(s) && Durable(s) && (end.Stop? || end.Crash?)
    ensures var again := AfterSteps(s, [end, Open]);
            again.phase.Flushing? && again.visible == s.visible && s.visible <= again.memory
  {
    DurableWhen(s);
    StepKeepsInvariant(s, end);
    var down := Next(s, end);
    assert AfterSteps(down, [Open]) == Next(down, Open);
  }

  /** A server that carries on after a failed flush can send what a restart will not find. */
  lemma FailedFlushExposes(change: Change)
    ensures var steps := [Open, Advance, Advance, Advance, Advance, Advance, Put(change), Fail, Generate];
            !AlwaysDurable(INITIAL, steps)
  {
    var steps := [Open, Advance, Advance, Advance, Advance, Advance, Put(change), Fail, Generate];
    var s1 := Next(INITIAL, Open);
    var s2 := Next(s1, Advance);
    var s3 := Next(s2, Advance);
    var s4 := Next(s3, Advance);
    var s5 := Next(s4, Advance);
    var s6 := Next(s5, Advance);
    var s7 := Next(s6, Put(change));
    var s8 := Next(s7, Fail);
    assert s8.phase.Idle? && s8.failed;
    DurableBeforeVisible(INITIAL, steps);
    assert !NoMessageAfterFailure(s8, [Generate]);
    assert !NoMessageAfterFailure(s6, [Put(change), Fail, Generate]);
    assert !NoMessageAfterFailure(s4, [Advance, Advance, Put(change), Fail, Generate]);
    assert !NoMessageAfterFailure(s2, [Advance, Advance, Advance, Advance, Put(change), Fail, Generate]);
  }

  /** In any state it can do so: what was sent after the failure is gone when the process starts again. */
  lemma ExposedChangeIsLost(s: State, change: Change)
    requires Invariant(s) && s.phase.Idle? && change !in s.memory
    ensures var again := AfterSteps(s, [Put(change), Fail, Generate, Stop, Open]);
            change in again.visible && change !in again.memory
  {
    var sent := Next(Next(Next(s, Put(change)), Fail), Generate);
    var again := Next(Next(sent, Stop), Open);
    assert AfterSteps(sent, [Stop, Open]) == AfterSteps(Next(sent, Stop), [Open]) == again;
    assert AfterSteps(Next(Next(s, Put(change)), Fail), [Generate, Stop, Open]) == again;
    assert AfterSteps(Next(s, Put(change)), [Fail, Generate, Stop, Open]) == again;
  }

  /** After the change all of memory is on disk, its event is owed, and nothing else of the process is
      different; a message sent then reflects it. */
  ghost predicate Kept(after: State, memory: set<Change>, was: State) {
    && after.memory == memory && after.disk.stable == File(memory, true) && after.disk.current == File(memory, true)
    && after.phase.Idle? && !after.failed && after.owed == was.owed + memory && after.visible == was.visible
    && Next(after, Generate).visible == was.visible + memory
    && Next(after, Announce(memory)).visible == was.visible + memory
  }

  /** A flush that completes makes all of memory durable, earlier failures included, whether it follows a
      put or a message that brought something new. */
  lemma CompletedFlushRecovers(s: State, change: Change, changes: set<Change>)
    requires Invariant(s) && s.phase.Idle? && change !in s.memory && !(changes <= s.memory)
    ensures Kept(AfterSteps(s, [Put(change)] + FlushSteps(Create, None)), s.memory + {change}, s)
    ensures Kept(AfterSteps(s, [Receive(changes)] + FlushSteps(Create, None)), s.memory + changes, s)
  {
    hide Kept, FlushSteps;
    assert ([Put(change)] + FlushSteps(Create, None))[1..] == FlushSteps(Create, None);
    assert ([Receive(changes)] + FlushSteps(Create, None))[1..] == FlushSteps(Create, None);
    StepKeepsInvariant(s, Put(change));
    StepKeepsInvariant(s, Receive(changes));
    FlushCompletes(Next(s, Put(change)), Create);
    FlushCompletes(Next(s, Receive(changes)), Create);
    KeptAfterFlush(Next(s, Put(change)), s);
    KeptAfterFlush(Next(s, Receive(changes)), s);
  }

  lemma KeptAfterFlush(flushing: State, was: State)
    requires flushing.owed == was.owed && flushing.visible == was.visible
    requires FlushOutcome(flushing, AfterSteps(flushing, FlushSteps(Create, None)))
    ensures Kept(AfterSteps(flushing, FlushSteps(Create, None)), flushing.memory, was)
  {
    hide AfterSteps, FlushSteps;
  }

  ghost predicate FlushOutcome(s: State, after: State) {
    && after.memory == s.memory
    && after.disk.stable == File(s.memory, true) && after.disk.current == File(s.memory, true)
    && after.phase.Idle? && !after.failed && after.owed == s.owed + s.memory && after.visible == s.visible
  }

  lemma {:induction false} FlushCompletes(s: State, from: FlushStep)
    requires Invariant(s) && s.phase == Flushing(from, false)
    ensures FlushOutcome(s, AfterSteps(s, FlushSteps(from, None)))
    decreases Remaining(from)
  {
    StepKeepsInvariant(s, Advance);
    if !from.SyncDirectory? {
      assert FlushSteps(from, None)[1..] == FlushSteps(Following(from), None);
      FlushCompletes(Next(s, Advance), Following(from));
    }
  }
}
