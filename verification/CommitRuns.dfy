/** The commit paths as steps of whole runs: a commit of the native session, of the server or of the
    browser is a load, a put and a head of its author's replica. */
module CommitRuns {
  import opened Results
  import opened Integers
  import opened FrontmatterValues
  import opened Resolution
  import opened Commits
  import opened Records
  import opened Replication
  import BrowserMutations

  /** The records of a writer are what its author's replica shows. */
  ghost predicate Represents(notes: Notes, s: System, a: ActorId, id: Identity) {
    a in s.held && forall n :: GroupOf(notes, n) == Replica(s, a, n, id)
  }

  ghost predicate Ready(s: System, a: ActorId, id: Identity) {
    Inv(s, id) && a in s.held && s.progress[a] == Idle
  }

  ghost predicate Joins(rev: NoteRevision, g: Group)
    requires HeadsStored(g)
  {
    rev.predecessors == JoinPredecessors(Resolved(g))
  }

  /** The three steps of one commit with nothing in between. */
  datatype Course = Course(loaded: System, put: System, done: System)

  ghost predicate IsCommit(s: System, c: Course, a: ActorId, rev: NoteRevision, id: Identity) {
    && LoadStep(s, c.loaded, a, rev.noteId, id)
    && PutStep(c.loaded, c.put, a, rev, id)
    && HeadStep(c.put, c.done, a, id)
  }

  ghost predicate JoinsLoaded(rev: NoteRevision, s: System, a: ActorId, id: Identity) {
    && a in s.held && a in s.progress && s.progress[a].Loaded? && s.progress[a].note == rev.noteId
    && var g := View(s.log, s.progress[a].seen, rev.noteId, id);
       HeadsStored(g) && Joins(rev, g)
  }

  /** A commit that has loaded its note can go on, whatever arrived since. */
  lemma PutLoaded(s: System, a: ActorId, rev: NoteRevision, id: Identity) returns (put: System)
    requires CollisionFree(id) && Inv(s, id) && JoinsLoaded(rev, s, a, id) && rev.authorId == a && id(rev).Some?
    ensures PutStep(s, put, a, rev, id) && Inv(put, id)
    ensures a in put.held && put.held.Keys == put.progress.Keys && put.progress[a] == Stored(rev.noteId, id(rev).value)
    ensures var c := Change(a, PutRevision(rev), s.held[a]);
            forall n :: Replica(put, a, n, id) == Apply(Replica(s, a, n, id), c, n, id)
  {
    hide ViewUpTo, Apply;
    var c := Change(a, PutRevision(rev), s.held[a]);
    put := System(s.log + [c], s.held[a := s.held[a] + {|s.log|}],
                  s.progress[a := Stored(rev.noteId, id(rev).value)]);
    PutKeepsInv(s, put, a, rev, id);
    forall n ensures Replica(put, a, n, id) == Apply(Replica(s, a, n, id), c, n, id) {
      OwnChangeShows(s.log, c, s.held[a], n, id);
    }
  }

  lemma LoadAndPut(s: System, a: ActorId, rev: NoteRevision, id: Identity) returns (loaded: System, put: System)
    requires CollisionFree(id) && Ready(s, a, id) && rev.authorId == a && id(rev).Some?
    requires HeadsStored(Replica(s, a, rev.noteId, id)) && Joins(rev, Replica(s, a, rev.noteId, id))
    ensures LoadStep(s, loaded, a, rev.noteId, id) && PutStep(loaded, put, a, rev, id) && Inv(put, id)
    ensures a in put.held && put.held.Keys == put.progress.Keys && put.progress[a] == Stored(rev.noteId, id(rev).value)
    ensures var c := Change(a, PutRevision(rev), s.held[a]);
            forall n :: Replica(put, a, n, id) == Apply(Replica(s, a, n, id), c, n, id)
  {
    hide ViewUpTo, Apply, ValidGraph;
    ViewResolvable(s.log, s.held[a], rev.noteId, id);
    loaded := s.(progress := s.progress[a := Loaded(rev.noteId, s.held[a])]);
    LoadKeepsInv(s, loaded, a, rev.noteId, id);
    put := PutLoaded(loaded, a, rev, id);
  }

  lemma MoveHead(s: System, a: ActorId, note: NoteId, r: RevisionId, id: Identity) returns (done: System)
    requires CollisionFree(id) && Inv(s, id) && a in s.held && s.progress[a] == Stored(note, r)
    requires r in Replica(s, a, note, id).revisions
    ensures HeadStep(s, done, a, id) && Ready(done, a, id)
    ensures var c := Change(a, SetHead(note, r), s.held[a]);
            forall n :: Replica(done, a, n, id) == Apply(Replica(s, a, n, id), c, n, id)
  {
    hide ViewUpTo, Apply;
    var c := Change(a, SetHead(note, r), s.held[a]);
    done := System(s.log + [c], s.held[a := s.held[a] + {|s.log|}], s.progress[a := Idle]);
    HeadKeepsInv(s, done, a, id);
    forall n ensures Replica(done, a, n, id) == Apply(Replica(s, a, n, id), c, n, id) {
      OwnChangeShows(s.log, c, s.held[a], n, id);
    }
  }

  /** In every state in which its author is idle, a joining revision goes through the three steps,
      and afterwards the author's replica shows the note as committed and every other note as before. */
  lemma CommitGoesThrough(s: System, a: ActorId, rev: NoteRevision, id: Identity) returns (c: Course)
    requires CollisionFree(id) && Ready(s, a, id) && rev.authorId == a && id(rev).Some?
    requires HeadsStored(Replica(s, a, rev.noteId, id)) && Joins(rev, Replica(s, a, rev.noteId, id))
    ensures IsCommit(s, c, a, rev, id) && Ready(c.done, a, id)
    ensures Replica(c.done, a, rev.noteId, id) == Committed(Replica(s, a, rev.noteId, id), a, id(rev).value, rev)
    ensures forall n :: n != rev.noteId ==> Replica(c.done, a, n, id) == Replica(s, a, n, id)
  {
    hide Replica, LoadStep, PutStep, HeadStep, Inv;
    var loaded, put := LoadAndPut(s, a, rev, id);
    var done := MoveHead(put, a, rev.noteId, id(rev).value, id);
    c := Course(loaded, put, done);
  }

  /** What `Commit`, `CreateItem`, `CommitItem`, `DeleteItem` and `PatchItem` do to the records on
      success is such a commit of their author's replica. */
  lemma WriterCommitInRun(notes: Notes, s: System, a: ActorId, rev: NoteRevision, id: Identity) returns (c: Course)
    requires CollisionFree(id) && Ready(s, a, id) && Represents(notes, s, a, id) && rev.authorId == a && id(rev).Some?
    requires HeadsStored(GroupOf(notes, rev.noteId)) && Joins(rev, GroupOf(notes, rev.noteId))
    ensures IsCommit(s, c, a, rev, id) && Ready(c.done, a, id)
    ensures Represents(notes[rev.noteId := Committed(GroupOf(notes, rev.noteId), a, id(rev).value, rev)], c.done, a, id)
  {
    hide Replica, IsCommit, Inv;
    c := CommitGoesThrough(s, a, rev, id);
  }

  /** A commit that breaks off between its two writes: loaded, put, and back at the start. */
  ghost predicate BreaksOff(s: System, c: Course, a: ActorId, rev: NoteRevision, id: Identity) {
    && LoadStep(s, c.loaded, a, rev.noteId, id)
    && PutStep(c.loaded, c.put, a, rev, id)
    && CrashStep(c.put, c.done, a)
  }

  lemma StopAfterPut(s: System, put: System, a: ActorId, id: Identity) returns (done: System)
    requires Inv(put, id) && a in put.held && put.held.Keys == put.progress.Keys
    ensures CrashStep(put, done, a) && Ready(done, a, id)
    ensures forall n :: Replica(done, a, n, id) == Replica(put, a, n, id)
  {
    done := put.(progress := put.progress[a := Idle]);
    CrashKeepsInv(put, done, a, id);
  }

  /** A commit whose first write is made but not flushed, or whose second is refused, is a commit that
      breaks off: its author is idle again, and the note resolves as it did before. */
  lemma BrokenCommitInRun(notes: Notes, s: System, a: ActorId, rev: NoteRevision, id: Identity) returns (c: Course)
    requires CollisionFree(id) && Ready(s, a, id) && Represents(notes, s, a, id) && rev.authorId == a && id(rev).Some?
    requires HeadsStored(GroupOf(notes, rev.noteId)) && Joins(rev, GroupOf(notes, rev.noteId))
    ensures BreaksOff(s, c, a, rev, id) && Ready(c.done, a, id)
    ensures Represents(notes[rev.noteId := Pending(GroupOf(notes, rev.noteId), id(rev).value, rev)], c.done, a, id)
    ensures Resolved(Pending(GroupOf(notes, rev.noteId), id(rev).value, rev)) == Resolved(GroupOf(notes, rev.noteId))
  {
    hide Replica, LoadStep, PutStep, Inv, CrashStep, ValidGraph;
    var loaded, put := LoadAndPut(s, a, rev, id);
    var done := StopAfterPut(s, put, a, id);
    c := Course(loaded, put, done);
    var g := GroupOf(notes, rev.noteId);
    ReplicaResolvable(s, a, rev.noteId, id);
    StoredUnderIdentity(g, rev, id);
    GrowthKeepsResolution(g.heads.Values, g.revisions, g.revisions[id(rev).value := rev]);
  }

  lemma ReplicaResolvable(s: System, a: ActorId, note: NoteId, id: Identity)
    requires CollisionFree(id) && Ready(s, a, id)
    ensures var g := Replica(s, a, note, id);
            OneNote(g, note) && Resolvable(g, id) && PredecessorsStored(g.revisions)
  {
    hide ViewUpTo, ValidGraph;
    ViewResolvable(s.log, s.held[a], note, id);
  }

  lemma StoredUnderIdentity(g: Group, rev: NoteRevision, id: Identity)
    requires CollisionFree(id) && ValidGraph(g.revisions, id) && id(rev).Some?
    ensures Extends(g.revisions, g.revisions[id(rev).value := rev])
  {
    if id(rev).value in g.revisions {
      assert id(g.revisions[id(rev).value]) == id(rev);
    }
  }

  /** The native session inside a run, whatever storage does. A commit that cannot start leaves its
      replica where it was; one that loses its second write breaks off after the first; every other one
      takes the three steps, also when the last write is made but not flushed and an error is returned. */
  method CommitInRun(w: Writer, note: Note, deleted: bool, wall: U64, faults: Faults, ghost s: System)
      returns (r: Result<RevisionId, RecordError>, ghost c: Course)
    requires CollisionFree(w.records.id) && Ready(s, w.records.actor, w.records.id)
    requires Represents(w.records.notes, s, w.records.actor, w.records.id) && Keyed(w.records.notes)
    modifies w.records, w.clock
    ensures Represents(w.records.notes, c.done, w.records.actor, w.records.id)
    ensures Ready(c.done, w.records.actor, w.records.id)
    ensures var id := w.records.id;
            if old(Resolvable(GroupOf(w.records.notes, note.id), w.records.id))
               && id(old(w.Joining(note, deleted, wall))).Some? && faults.revision != Rejected
            then
              var rev := old(w.Joining(note, deleted, wall));
              && (r.Ok? <==> faults == CLEAN)
              && (if faults.revision == NoFault && faults.head != Rejected
                  then IsCommit(s, c, w.records.actor, rev, id)
                  else BreaksOff(s, c, w.records.actor, rev, id))
            else r.Err? && c.done == s
  {
    hide Replica, IsCommit, BreaksOff, Inv, ValidGraph, Committed, Pending, Resolved, CollisionFree;
    ghost var notes := w.records.notes;
    ghost var id := w.records.id;
    c := Course(s, s, s);
    r := w.Commit(note, deleted, wall, faults);
    if old(Resolvable(GroupOf(w.records.notes, note.id), w.records.id)) {
      ghost var rev := old(w.Joining(note, deleted, wall));
      if id(rev).Some? && faults.revision != Rejected {
        if faults.revision == NoFault && faults.head != Rejected {
          c := WriterCommitInRun(notes, s, w.records.actor, rev, id);
        } else {
          c := BrokenCommitInRun(notes, s, w.records.actor, rev, id);
        }
      }
    }
  }

  /** The two writes of a prepared browser mutation are such a commit too. */
  lemma BrowserCommitInRun(notes: Notes, s: System, a: ActorId, note: NoteId, op: BrowserMutations.Operation, wall: U64,
      id: Identity, pathOf: PathOf, p: BrowserMutations.Prepared) returns (c: Course)
    requires CollisionFree(id) && Ready(s, a, id) && Represents(notes, s, a, id)
    requires BrowserMutations.IsMutation(notes, a, note, op, wall, id, pathOf, p)
    ensures IsCommit(s, c, a, p.revision, id) && Ready(c.done, a, id)
    ensures Represents(BrowserMutations.Apply(notes, a, note, p), c.done, a, id)
  {
    hide ViewUpTo, IsCommit, ValidGraph;
    ViewResolvable(s.log, s.held[a], note, id);
    HeadListMatchesAll(GroupOf(notes, note), note);
    c := WriterCommitInRun(notes, s, a, p.revision, id);
  }

  /** A commit of any author in any reachable state: the run goes on through its three steps, and
      then the revision has won with no conflict left exactly if it outranks the heads of the other
      authors, and is reported as concurrent otherwise. */
  lemma CommitInAnyRun(run: seq<System>, id: Identity, a: ActorId, rev: NoteRevision) returns (c: Course)
    requires CollisionFree(id) && run != [] && IsRun(run, id)
    requires var s := run[|run| - 1]; a in s.held && a in s.progress && s.progress[a] == Idle
    requires rev.authorId == a && id(rev).Some?
    requires var g := Replica(run[|run| - 1], a, rev.noteId, id); HeadsStored(g) && Joins(rev, g)
    ensures IsRun(run + [c.loaded, c.put, c.done], id) && a in c.done.held
    ensures var g, after := Replica(run[|run| - 1], a, rev.noteId, id), Replica(c.done, a, rev.noteId, id);
            && HeadsStored(after) && Resolved(after).Some?
            && (if BeatsOtherHeads(g, a, id(rev).value, rev) then
                  Resolved(after).value == ResolvedNote(id(rev).value, if rev.deleted then None else Some(rev), None)
                else
                  && Resolved(after).value.conflict.Some?
                  && id(rev).value in Resolved(after).value.conflict.value.concurrentRevisions)
  {
    hide ViewUpTo, IsRun, Inv, BeatsOtherHeads, LoadStep, PutStep, HeadStep, ValidGraph, Joins;
    var k := |run| - 1;
    RunKeepsInv(run, id, k);
    c := CommitGoesThrough(run[k], a, rev, id);
    RunGoesOn(run, c, a, rev, id);
    var rank := EveryReplicaIsHealthy(run, id, k, a, rev.noteId);
    EveryReplicaResolves(run, id, k, a, rev.noteId);
    var g := Replica(run[k], a, rev.noteId, id);
    JoinsIsJoining(g, rev.noteId, rank, id(rev).value, rev, id);
    CommitOutcome(g, rev.noteId, rank, a, id(rev).value, rev);
  }

  lemma JoinsIsJoining(g: Group, note: NoteId, rank: map<RevisionId, nat>, r: RevisionId, rev: NoteRevision,
    id: Identity)
    requires CollisionFree(id) && ValidGraph(g.revisions, id) && Healthy(g, note, rank)
    requires rev.noteId == note && Joins(rev, g) && id(rev) == Some(r)
    ensures JoiningCommit(g, note, rank, r, rev)
  {
    ContentAddressedJoin(g, note, rank, r, rev, id);
  }

  lemma RunGoesOn(run: seq<System>, c: Course, a: ActorId, rev: NoteRevision, id: Identity)
    requires IsRun(run, id) && IsCommit(run[|run| - 1], c, a, rev, id)
    ensures IsRun(run + [c.loaded, c.put, c.done], id)
  {
    hide LoadStep, PutStep, HeadStep;
    var on := run + [c.loaded, c.put, c.done];
    forall i | 0 < i < |on| ensures Step(on[i - 1], on[i], id) {
      if i < |run| {
        assert on[i - 1] == run[i - 1] && on[i] == run[i];
      }
    }
  }

  /** Such runs exist: with nothing stored anywhere the first commit of any note goes through, and
      the note shows it. */
  lemma FirstCommit(a: ActorId, rev: NoteRevision, id: Identity) returns (run: seq<System>)
    requires CollisionFree(id) && rev.authorId == a && id(rev).Some? && rev.predecessors == {}
    ensures IsRun(run, id) && |run| == 4 && a in run[3].held
    ensures var g := Replica(run[3], a, rev.noteId, id);
            && HeadsStored(g)
            && Resolved(g) == Some(ResolvedNote(id(rev).value, if rev.deleted then None else Some(rev), None))
  {
    hide IsCommit, ValidGraph;
    var start := System([], map[a := {}], map[a := Idle]);
    var c := CommitInAnyRun([start], id, a, rev);
    run := [start] + [c.loaded, c.put, c.done];
  }
}
