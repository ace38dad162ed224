/** The record repository and the three commit paths that write to it. */
module Records {
  import opened Integers
  import opened Results
  import opened Strings
  import opened HybridClock
  import opened FrontmatterValues
  import opened Resolution
  import opened Commits

  datatype RecordError =
    | InvalidRevision
    | Graph(error: GraphError)
    | MissingRevision(revision: RevisionId)
    | AuthorMismatch
    | UnavailableNote
    | Storage

  // ----- Reading one note -----------------------------------------------------------------------

  /** The heads of a note as the listing returns them, in key order. */
  function HeadList(g: Group, note: NoteId): (heads: seq<Head>)
    ensures |heads| == |g.heads|
    ensures forall i :: 0 <= i < |heads| ==>
              heads[i].authorId in g.heads && heads[i] == Head(note, heads[i].authorId, g.heads[heads[i].authorId])
  {
    var authors := SortedKeys(g.heads.Keys);
    seq(|authors|, i requires 0 <= i < |authors| => Head(note, authors[i], g.heads[authors[i]]))
  }

  lemma HeadListComplete(g: Group, note: NoteId, a: ActorId)
    requires a in g.heads
    ensures Head(note, a, g.heads[a]) in HeadList(g, note)
  {
    var authors := SortedKeys(g.heads.Keys);
    var i :| 0 <= i < |authors| && authors[i] == a;
    assert HeadList(g, note)[i] == Head(note, a, g.heads[a]);
  }

  lemma HeadListMatchesAll(g: Group, note: NoteId)
    requires HeadsStored(g) && OneNote(g, note)
    ensures Matching(g.revisions, HeadList(g, note)) == g.heads.Values
  {
    forall h | h in g.heads.Values ensures h in Matching(g.revisions, HeadList(g, note)) {
      var a :| a in g.heads && g.heads[a] == h;
      HeadListComplete(g, note, a);
    }
  }

  ghost predicate Resolvable(g: Group, id: Identity) {
    ValidGraph(g.revisions, id) && HeadsStored(g)
  }

  /** The loop over the heads: the first one that is not stored fails. */
  method CheckHeads(g: Group, note: NoteId) returns (r: Result<(), RecordError>)
    ensures r.Ok? <==> HeadsStored(g)
    ensures r.Err? ==>
      r.error.MissingRevision? && r.error.revision in g.heads.Values && r.error.revision !in g.revisions
  {
    hide SortedKeys, Less;
    var heads := HeadList(g, note);
    for i := 0 to |heads|
      invariant forall k :: 0 <= k < i ==> heads[k].revisionId in g.revisions
    {
      if heads[i].revisionId !in g.revisions {
        return Err(MissingRevision(heads[i].revisionId));
      }
    }
    forall a | a in g.heads ensures g.heads[a] in g.revisions {
      HeadListComplete(g, note, a);
    }
    return Ok(());
  }

  /** Resolution succeeds exactly on a valid graph whose heads are all stored. */
  method ResolveGroup(g: Group, note: NoteId, id: Identity) returns (r: Result<Option<ResolvedNote>, RecordError>)
    requires OneNote(g, note)
    ensures r.Ok? <==> Resolvable(g, id)
    ensures r.Ok? ==> r.value == Resolved(g)
  {
    hide ValidGraph, Matching, Resolve, HeadList, OneNote, HeadsStored;
    var checked := ValidateRevisionGraph(g.revisions, id);
    if checked.Err? {
      return Err(Graph(checked.error));
    }
    var stored := CheckHeads(g, note);
    if stored.Err? {
      return Err(stored.error);
    }
    HeadListMatchesAll(g, note);
    var resolved := ResolveHeads(g.revisions, HeadList(g, note));
    return Ok(resolved);
  }

  // ----- The repository -------------------------------------------------------------------------

  type Notes = map<NoteId, Group>

  function GroupOf(notes: Notes, note: NoteId): Group {
    if note in notes then notes[note] else EMPTY_GROUP
  }

  ghost predicate Keyed(notes: Notes) {
    forall n :: n in notes ==> OneNote(notes[n], n)
  }

  /** What storage does to one write: it refuses it, or the change is made but not flushed. */
  datatype Fault = NoFault | Rejected | Unflushed

  /** What it does to the two writes of one commit. */
  datatype Faults = Faults(revision: Fault, head: Fault)

  const CLEAN := Faults(NoFault, NoFault)

  /** The two writes of a commit up to the first that fails, an unflushed one included. */
  function Attempted(notes: Notes, author: ActorId, r: RevisionId, rev: NoteRevision, faults: Faults): Notes {
    var g := GroupOf(notes, rev.noteId);
    if faults.revision == Rejected then notes
    else if faults.revision == Unflushed || faults.head == Rejected then notes[rev.noteId := Pending(g, r, rev)]
    else notes[rev.noteId := Committed(g, author, r, rev)]
  }

  function Written(notes: Notes, author: ActorId, id: Identity, rev: NoteRevision, faults: Faults): Notes {
    match id(rev)
    case None => notes
    case Some(r) => Attempted(notes, author, r, rev, faults)
  }

  class WorkspaceRecords {
    const actor: ActorId
    const id: Identity
    var notes: Notes

    constructor (actor: ActorId, id: Identity, notes: Notes)
      ensures this.actor == actor && this.id == id && this.notes == notes
    {
      this.actor, this.id, this.notes := actor, id, notes;
    }

    method LoadNote(note: NoteId) returns (r: Result<Option<ResolvedNote>, RecordError>)
      requires Keyed(notes)
      ensures r.Ok? <==> Resolvable(GroupOf(notes, note), id)
      ensures r.Ok? ==> r.value == Resolved(GroupOf(notes, note))
    {
      r := ResolveGroup(GroupOf(notes, note), note, id);
    }

    method PutRevision(rev: NoteRevision, fault: Fault) returns (r: Result<RevisionId, RecordError>)
      modifies this
      ensures r.Ok? <==> rev.authorId == actor && id(rev).Some? && fault == NoFault
      ensures r.Ok? ==> id(rev) == Some(r.value)
      ensures notes == if rev.authorId == actor && id(rev).Some? && fault != Rejected
                       then old(notes)[rev.noteId := Pending(GroupOf(old(notes), rev.noteId), id(rev).value, rev)]
                       else old(notes)
    {
      if rev.authorId != actor {
        return Err(AuthorMismatch);
      }
      match id(rev) {
        case None => return Err(InvalidRevision);
        case Some(rid) =>
          if fault == Rejected {
            return Err(Storage);
          }
          var g := GroupOf(notes, rev.noteId);
          notes := notes[rev.noteId := g.(revisions := g.revisions[rid := rev])];
          return if fault == NoFault then Ok(rid) else Err(Storage);
      }
    }

    method SetHead(head: Head, fault: Fault) returns (r: Result<(), RecordError>)
      modifies this
      ensures var g := GroupOf(old(notes), head.noteId);
              var allowed := head.authorId == actor && head.revisionId in g.revisions;
              && (r.Ok? <==> allowed && fault == NoFault)
              && notes == if allowed && fault != Rejected
                          then old(notes)[head.noteId := g.(heads := g.heads[head.authorId := head.revisionId])]
                          else old(notes)
    {
      if head.authorId != actor {
        return Err(AuthorMismatch);
      }
      var g := GroupOf(notes, head.noteId);
      if head.revisionId !in g.revisions {
        return Err(MissingRevision(head.revisionId));
      }
      if fault == Rejected {
        return Err(Storage);
      }
      notes := notes[head.noteId := g.(heads := g.heads[head.authorId := head.revisionId])];
      return if fault == NoFault then Ok(()) else Err(Storage);
    }

    method CommitRevision(rev: NoteRevision, faults: Faults) returns (r: Result<RevisionId, RecordError>)
      modifies this
      ensures r.Ok? <==> rev.authorId == actor && id(rev).Some? && faults == CLEAN
      ensures r.Ok? ==> id(rev) == Some(r.value)
      ensures notes == if rev.authorId == actor then Written(old(notes), actor, id, rev, faults) else old(notes)
    {
      var stored := PutRevision(rev, faults.revision);
      if stored.Err? {
        return stored;
      }
      var moved := SetHead(Head(rev.noteId, rev.authorId, stored.value), faults.head);
      if moved.Err? {
        return Err(moved.error);
      }
      return stored;
    }
  }

  // ----- The native session -----------------------------------------------------------------------

  /** `canonical_note_path`, a pure function of the identity and the frontmatter. */
  type PathOf = (NoteId, Frontmatter) -> string

  function Revision(note: Note, pathOf: PathOf, hlc: Hlc, author: ActorId, predecessors: set<RevisionId>,
      deleted: bool): NoteRevision {
    NoteRevision(note.id, note.frontmatter, note.body, pathOf(note.id, note.frontmatter), hlc, author, predecessors,
      deleted)
  }

  /** A writer with its own clock: the native session, and the server behind its mutation lock. */
  class Writer {
    const records: WorkspaceRecords
    const clock: HlcClock
    const pathOf: PathOf

    constructor (records: WorkspaceRecords, pathOf: PathOf)
      ensures this.records == records && this.pathOf == pathOf && fresh(clock)
      ensures clock.Timestamp() == NewClock(records.actor)
    {
      this.records, this.pathOf := records, pathOf;
      clock := new HlcClock(records.actor);
    }

    /** The session's clock is asked for a stamp only when there is something to commit. */
    static function Ticked(clock: Hlc, wall: U64, commits: bool): Hlc {
      if commits then Advanced(clock, wall) else clock
    }

    /** The revision a commit writes: the join of everything visible, stamped by the local clock. */
    ghost function Joining(note: Note, deleted: bool, wall: U64): NoteRevision
      reads records, clock
      requires Resolvable(GroupOf(records.notes, note.id), records.id)
    {
      Revision(note, pathOf, Advanced(clock.Timestamp(), wall), records.actor,
               JoinPredecessors(Resolved(GroupOf(records.notes, note.id))), deleted)
    }

    /** The stored revision that the author's own head names. */
    ghost function OwnHead(noteId: NoteId): Option<NoteRevision>
      reads records
    {
      var g := GroupOf(records.notes, noteId);
      if records.actor in g.heads && g.heads[records.actor] in g.revisions
      then Some(g.revisions[g.heads[records.actor]]) else None
    }

    /** `WorkspaceSession::commit`. */
    method Commit(note: Note, deleted: bool, wall: U64, faults: Faults) returns (r: Result<RevisionId, RecordError>)
      requires Keyed(records.notes)
      modifies records, clock
      ensures r.Ok? ==> old(Resolvable(GroupOf(records.notes, note.id), records.id))
      ensures old(Resolvable(GroupOf(records.notes, note.id), records.id)) ==>
                (r.Ok? <==> records.id(old(Joining(note, deleted, wall))).Some? && faults == CLEAN)
      ensures clock.Timestamp() == Ticked(old(clock.Timestamp()), wall,
                                          old(Resolvable(GroupOf(records.notes, note.id), records.id)))
      ensures r.Ok? ==> records.id(old(Joining(note, deleted, wall))) == Some(r.value)
      ensures records.notes
           == if old(Resolvable(GroupOf(records.notes, note.id), records.id))
              then Written(old(records.notes), records.actor, records.id, old(Joining(note, deleted, wall)), faults)
              else old(records.notes)
      ensures r.Ok? ==> clock.Timestamp() == Advanced(old(clock.Timestamp()), wall)
      ensures r.Ok? ==>
        OwnHead(note.id)
        == Some(NoteRevision(note.id, note.frontmatter, note.body, pathOf(note.id, note.frontmatter), clock.Timestamp(),
                             records.actor, old(JoinPredecessors(Resolved(GroupOf(records.notes, note.id)))), deleted))
    {
      var loaded := records.LoadNote(note.id);
      if loaded.Err? {
        return Err(loaded.error);
      }
      var predecessors: set<RevisionId> := {};
      if loaded.value.Some? {
        predecessors := predecessors + {loaded.value.value.winningRevision};
        if loaded.value.value.conflict.Some? {
          predecessors := predecessors + loaded.value.value.conflict.value.concurrentRevisions;
        }
      }
      assert predecessors == JoinPredecessors(loaded.value);
      var hlc := clock.Next(wall);
      r := records.CommitRevision(Revision(note, pathOf, hlc, records.actor, predecessors, deleted), faults);
    }

    /** `CentralWorkspace::create_item`: only a note that no head asserts can be created. */
    method CreateItem(note: Note, wall: U64, faults: Faults) returns (r: Result<bool, RecordError>)
      requires Keyed(records.notes)
      modifies records, clock
      ensures r.Ok? ==> old(Resolvable(GroupOf(records.notes, note.id), records.id))
      ensures r.Ok? ==> (r.value <==> old(Resolved(GroupOf(records.notes, note.id))) == None)
      ensures old(Resolvable(GroupOf(records.notes, note.id), records.id)) ==>
                (r.Ok? <==> (old(Resolved(GroupOf(records.notes, note.id))) == None ==>
                               records.id(old(Joining(note, false, wall))).Some? && faults == CLEAN))
      ensures clock.Timestamp() == Ticked(old(clock.Timestamp()), wall,
                old(Resolvable(GroupOf(records.notes, note.id), records.id)
                    && Resolved(GroupOf(records.notes, note.id)) == None))
      ensures records.notes
           == if old(Resolvable(GroupOf(records.notes, note.id), records.id)
                     && Resolved(GroupOf(records.notes, note.id)) == None)
              then Written(old(records.notes), records.actor, records.id, old(Joining(note, false, wall)), faults)
              else old(records.notes)
      ensures r.Ok? && r.value ==> clock.Timestamp() == Advanced(old(clock.Timestamp()), wall)
      ensures r.Ok? && r.value ==>
        OwnHead(note.id)
        == Some(NoteRevision(note.id, note.frontmatter, note.body, pathOf(note.id, note.frontmatter), clock.Timestamp(),
                             records.actor, {}, false))
    {
      var loaded := records.LoadNote(note.id);
      if loaded.Err? {
        return Err(loaded.error);
      }
      if loaded.value.Some? {
        return Ok(false);
      }
      var hlc := clock.Next(wall);
      var stored := records.CommitRevision(Revision(note, pathOf, hlc, records.actor, {}, false), faults);
      if stored.Err? {
        return Err(stored.error);
      }
      return Ok(true);
    }

    /** `CentralWorkspace::commit_item`, shared by patching and deleting. */
    method CommitItem(note: Note, deleted: bool, resolved: ResolvedNote, wall: U64, faults: Faults)
      returns (r: Result<RevisionId, RecordError>)
      requires Resolvable(GroupOf(records.notes, note.id), records.id)
      requires Resolved(GroupOf(records.notes, note.id)) == Some(resolved)
      modifies records, clock
      ensures clock.Timestamp() == Advanced(old(clock.Timestamp()), wall)
      ensures r.Ok? <==> records.id(old(Joining(note, deleted, wall))).Some? && faults == CLEAN
      ensures r.Ok? ==> records.id(old(Joining(note, deleted, wall))) == Some(r.value)
      ensures records.notes
           == Written(old(records.notes), records.actor, records.id, old(Joining(note, deleted, wall)), faults)
      ensures r.Ok? ==>
        OwnHead(note.id)
        == Some(NoteRevision(note.id, note.frontmatter, note.body, pathOf(note.id, note.frontmatter), clock.Timestamp(),
                             records.actor, JoinPredecessors(Some(resolved)), deleted))
    {
      var predecessors := {resolved.winningRevision};
      if resolved.conflict.Some? {
        predecessors := predecessors + resolved.conflict.value.concurrentRevisions;
      }
      assert predecessors == JoinPredecessors(Some(resolved));
      var hlc := clock.Next(wall);
      r := records.CommitRevision(Revision(note, pathOf, hlc, records.actor, predecessors, deleted), faults);
    }

    /** The revision a reader of the note sees, if any. */
    ghost function Visible(noteId: NoteId): Option<NoteRevision>
      reads records
      requires Resolvable(GroupOf(records.notes, noteId), records.id)
    {
      match Resolved(GroupOf(records.notes, noteId))
      case None => None
      case Some(resolved) => resolved.visible
    }

    static function NoteOf(noteId: NoteId, revision: NoteRevision): Note {
      Note(noteId, revision.frontmatter, revision.body, revision.materializedPath)
    }

    /** `CentralWorkspace::delete_item`: a visible note is deleted under the winner's content. */
    method DeleteItem(noteId: NoteId, wall: U64, faults: Faults) returns (r: Result<bool, RecordError>)
      requires Keyed(records.notes)
      modifies records, clock
      ensures r.Ok? ==> old(Resolvable(GroupOf(records.notes, noteId), records.id))
      ensures r.Ok? ==> (r.value <==> old(Visible(noteId)).Some?)
      ensures old(Resolvable(GroupOf(records.notes, noteId), records.id)) ==>
                (r.Ok? <==> (old(Visible(noteId)).Some? ==>
                               && records.id(old(Joining(NoteOf(noteId, Visible(noteId).value), true, wall))).Some?
                               && faults == CLEAN))
      ensures clock.Timestamp() == Ticked(old(clock.Timestamp()), wall,
                old(Resolvable(GroupOf(records.notes, noteId), records.id) && Visible(noteId).Some?))
      ensures records.notes
           == if old(Resolvable(GroupOf(records.notes, noteId), records.id) && Visible(noteId).Some?)
              then Written(old(records.notes), records.actor, records.id,
                           old(Joining(NoteOf(noteId, Visible(noteId).value), true, wall)), faults)
              else old(records.notes)
      ensures r.Ok? && r.value ==>
        var was := old(Visible(noteId)).value;
        && clock.Timestamp() == Advanced(old(clock.Timestamp()), wall)
        && OwnHead(noteId)
           == Some(NoteRevision(noteId, was.frontmatter, was.body, pathOf(noteId, was.frontmatter), clock.Timestamp(),
                                records.actor, old(JoinPredecessors(Resolved(GroupOf(records.notes, noteId)))), true))
    {
      var loaded := records.LoadNote(noteId);
      if loaded.Err? {
        return Err(loaded.error);
      }
      if loaded.value == None || loaded.value.value.visible == None {
        return Ok(false);
      }
      var existing := loaded.value.value.visible.value;
      var committed := CommitItem(NoteOf(noteId, existing), true, loaded.value.value, wall, faults);
      if committed.Err? {
        return Err(committed.error);
      }
      return Ok(true);
    }

    /** The note `patch_item` writes: each part that is not given keeps what was visible. */
    static function Patched(noteId: NoteId, was: NoteRevision, frontmatter: Option<Frontmatter>,
        body: Option<string>): Note {
      Note(noteId,
           if frontmatter.Some? then frontmatter.value else was.frontmatter,
           if body.Some? then body.value else was.body,
           was.materializedPath)
    }

    static predicate ClaimsOtherId(note: Note) {
      "id" in note.frontmatter && note.frontmatter["id"] != Str(note.id)
    }

    /** Only an `id` in the frontmatter that is not this note's is refused. */
    static lemma ClaimsExactly(note: Note)
      ensures !ClaimsOtherId(note) <==> ("id" in note.frontmatter ==> note.frontmatter["id"] == Str(note.id))
    {
    }

    /** `CentralWorkspace::patch_item`. */
    method PatchItem(noteId: NoteId, frontmatter: Option<Frontmatter>, body: Option<string>, wall: U64, faults: Faults)
      returns (r: Result<Option<Note>, RecordError>)
      requires Keyed(records.notes)
      modifies records, clock
      ensures r.Ok? ==> old(Resolvable(GroupOf(records.notes, noteId), records.id))
      ensures r.Ok? ==> (r.value.Some? <==> old(Visible(noteId)).Some?)
      ensures old(Resolvable(GroupOf(records.notes, noteId), records.id)) ==>
                (r.Ok? <==> (old(Visible(noteId)).Some? ==>
                               && !ClaimsOtherId(Patched(noteId, old(Visible(noteId)).value, frontmatter, body))
                               && records.id(old(Joining(Patched(noteId, Visible(noteId).value, frontmatter, body),
                                                         false, wall))).Some?
                               && faults == CLEAN))
      ensures clock.Timestamp() == Ticked(old(clock.Timestamp()), wall,
                old(Resolvable(GroupOf(records.notes, noteId), records.id) && Visible(noteId).Some?
                    && !ClaimsOtherId(Patched(noteId, Visible(noteId).value, frontmatter, body))))
      ensures records.notes
           == if old(Resolvable(GroupOf(records.notes, noteId), records.id) && Visible(noteId).Some?
                     && !ClaimsOtherId(Patched(noteId, Visible(noteId).value, frontmatter, body)))
              then Written(old(records.notes), records.actor, records.id,
                           old(Joining(Patched(noteId, Visible(noteId).value, frontmatter, body), false, wall)), faults)
              else old(records.notes)
      ensures r.Ok? && r.value.Some? ==>
        var was, note := old(Visible(noteId)).value, r.value.value;
        && clock.Timestamp() == Advanced(old(clock.Timestamp()), wall)
        && note.id == noteId && note.path == was.materializedPath
        && ("id" in note.frontmatter ==> note.frontmatter["id"] == Str(noteId))
        && note.frontmatter == (if frontmatter == None then was.frontmatter else frontmatter.value)
        && note.body == (if body == None then was.body else body.value)
        && OwnHead(noteId)
           == Some(NoteRevision(noteId, note.frontmatter, note.body, pathOf(noteId, note.frontmatter),
                                clock.Timestamp(), records.actor,
                                old(JoinPredecessors(Resolved(GroupOf(records.notes, noteId)))), false))
    {
      var loaded := records.LoadNote(noteId);
      if loaded.Err? {
        return Err(loaded.error);
      }
      if loaded.value == None || loaded.value.value.visible == None {
        return Ok(None);
      }
      var note := Patched(noteId, loaded.value.value.visible.value, frontmatter, body);
      if ClaimsOtherId(note) {
        return Err(InvalidRevision);
      }
      var committed := CommitItem(note, false, loaded.value.value, wall, faults);
      if committed.Err? {
        return Err(committed.error);
      }
      return Ok(Some(note));
    }
  }
}
