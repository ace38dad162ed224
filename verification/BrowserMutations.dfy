/** The browser's commit path: a mutation is prepared from the decoded records alone. */
module BrowserMutations {
  import opened Integers
  import opened Results
  import opened Strings
  import opened Sorting
  import opened HybridClock
  import opened FrontmatterValues
  import opened Resolution
  import opened Commits
  import opened Records

  datatype Operation =
    | Create(frontmatter: Frontmatter, body: string)
    | Save(frontmatter: Frontmatter, body: string)
    | Delete
    | Restore

  /** The two writes of a prepared mutation. */
  datatype Prepared = Prepared(revisionId: RevisionId, revision: NoteRevision, head: Head)

  // ----- The stored timestamps --------------------------------------------------------------------

  function GroupStamps(g: Group): (stamps: seq<Hlc>)
  {
    var ids := SortedKeys(g.revisions.Keys);
    seq(|ids|, i requires 0 <= i < |ids| => g.revisions[ids[i]].hlc)
  }

  function StampsOf(notes: Notes, ids: seq<NoteId>): seq<Hlc>
    requires forall n :: n in ids ==> n in notes
  {
    if ids == [] then [] else GroupStamps(notes[ids[0]]) + StampsOf(notes, ids[1..])
  }

  /** Every stored timestamp, sorted, as `prepare_mutation_json` feeds them to its clock. */
  function StoredStamps(notes: Notes): seq<Hlc> {
    SortBy(StampsOf(notes, SortedKeys(notes.Keys)), AtMost)
  }

  lemma {:induction false} StampsOfContains(notes: Notes, ids: seq<NoteId>, n: NoteId, r: RevisionId)
    requires forall n :: n in ids ==> n in notes
    requires n in ids && r in notes[n].revisions
    ensures notes[n].revisions[r].hlc in StampsOf(notes, ids)
  {
    if n == ids[0] {
      var keys := SortedKeys(notes[n].revisions.Keys);
      var i :| 0 <= i < |keys| && keys[i] == r;
      assert GroupStamps(notes[n])[i] == notes[n].revisions[r].hlc;
    } else {
      StampsOfContains(notes, ids[1..], n, r);
    }
  }

  lemma StoredStampsContain(notes: Notes, n: NoteId, r: RevisionId)
    requires n in notes && r in notes[n].revisions
    ensures notes[n].revisions[r].hlc in StoredStamps(notes)
  {
    var stamps := StampsOf(notes, SortedKeys(notes.Keys));
    StampsOfContains(notes, SortedKeys(notes.Keys), n, r);
    SameElements(stamps, SortBy(stamps, AtMost));
  }

  // ----- Preparing a mutation ---------------------------------------------------------------------

  /** The browser resolves whatever heads match, without insisting that every head is stored. */
  method ResolveNote(notes: Notes, note: NoteId, id: Identity) returns (r: Result<Option<ResolvedNote>, RecordError>)
    requires Keyed(notes)
    ensures r.Ok? <==> ValidGraph(GroupOf(notes, note).revisions, id)
    ensures r.Ok? ==>
      var g := GroupOf(notes, note);
      && r.value == Resolve(Matching(g.revisions, HeadList(g, note)), g.revisions)
      && (r.value.Some? ==> r.value.value.winningRevision in g.revisions)
  {
    var g := GroupOf(notes, note);
    var checked := ValidateRevisionGraph(g.revisions, id);
    if checked.Err? {
      return Err(Graph(checked.error));
    }
    var resolved := ResolveHeads(g.revisions, HeadList(g, note));
    return Ok(resolved);
  }

  ghost function ResolvedIn(notes: Notes, note: NoteId): Option<ResolvedNote> {
    var g := GroupOf(notes, note);
    Resolve(Matching(g.revisions, HeadList(g, note)), g.revisions)
  }

  /** The content an operation writes, given the note's winner. Creating takes the identifier it
      generated without looking for a note there; should there be one, the revision joins it. */
  function Contents(op: Operation, winner: Option<NoteRevision>): Option<(Frontmatter, string, bool)> {
    match (op, winner)
    case (Create(f, b), _) => Some((f, b, false))
    case (Save(f, b), Some(_)) => Some((f, b, false))
    case (Delete, Some(w)) => Some((w.frontmatter, w.body, true))
    case (Restore, Some(w)) => Some((w.frontmatter, w.body, false))
    case _ => None
  }

  ghost function WinnerOf(notes: Notes, note: NoteId): Option<NoteRevision> {
    match ResolvedIn(notes, note)
    case None => None
    case Some(r) =>
      assert r.winningRevision in GroupOf(notes, note).revisions;
      Some(GroupOf(notes, note).revisions[r.winningRevision])
  }

  /** The revision a mutation writes: the join of everything visible, with the operation's content,
      stamped after every stored timestamp. */
  ghost function MutationRevision(notes: Notes, author: ActorId, note: NoteId, op: Operation, wall: U64, pathOf: PathOf)
    : NoteRevision
    requires Contents(op, WinnerOf(notes, note)).Some?
  {
    var c := Contents(op, WinnerOf(notes, note)).value;
    NoteRevision(note, c.0, c.1, pathOf(note, c.0), BrowserStamp(author, StoredStamps(notes), wall), author,
                 JoinPredecessors(ResolvedIn(notes, note)), c.2)
  }

  lemma MutationCarries(notes: Notes, author: ActorId, note: NoteId, op: Operation, wall: U64, pathOf: PathOf)
    requires Contents(op, WinnerOf(notes, note)).Some?
    ensures var rev := MutationRevision(notes, author, note, op, wall, pathOf);
            && Carries(rev, op, WinnerOf(notes, note)) && rev.noteId == note && rev.authorId == author
            && rev.materializedPath == pathOf(note, rev.frontmatter)
            && rev.predecessors == JoinPredecessors(ResolvedIn(notes, note))
  {
    hide WinnerOf, ResolvedIn, BrowserStamp, StoredStamps;
  }

  /** `prepare_mutation_json`: the revision joins everything visible, carries the operation's
      content and is stamped after every stored timestamp. `loaded` is what `Repository::load` made of
      the other records: it refuses the whole store for a configuration that is not text
      (`ConfigWinners.LoadConfigs`) and for a record of any note that has no identity. */
  method PrepareMutation(loaded: Result<(), RecordError>, notes: Notes, author: ActorId, note: NoteId, op: Operation,
      wall: U64, id: Identity, pathOf: PathOf)
    returns (r: Result<Prepared, RecordError>)
    requires Keyed(notes)
    ensures loaded.Err? ==> r == Err(loaded.error)
    ensures r.Ok? ==>
      && (op.Create? || WinnerOf(notes, note).Some?)
      && Carries(r.value.revision, op, WinnerOf(notes, note))
      && r.value.revision.noteId == note && r.value.revision.authorId == author
      && r.value.revision.materializedPath == pathOf(note, r.value.revision.frontmatter)
      && r.value.revision.predecessors == JoinPredecessors(ResolvedIn(notes, note))
    ensures loaded.Ok? && ValidGraph(GroupOf(notes, note).revisions, id) ==>
      (!op.Create? && WinnerOf(notes, note) == None ==> r == Err(UnavailableNote))
    ensures r.Ok? <==>
      && loaded.Ok?
      && ValidGraph(GroupOf(notes, note).revisions, id)
      && Contents(op, WinnerOf(notes, note)).Some?
      && id(MutationRevision(notes, author, note, op, wall, pathOf)).Some?
    ensures r.Ok? ==>
      var revision := MutationRevision(notes, author, note, op, wall, pathOf);
      r.value == Prepared(id(revision).value, revision, Head(note, author, id(revision).value))
    ensures loaded.Ok? && ValidGraph(GroupOf(notes, note).revisions, id) && Contents(op, WinnerOf(notes, note)) == None
      ==> r == Err(UnavailableNote)
  {
    hide ValidGraph, BrowserStamp, Resolve, Keyed, StoredStamps, Carries;
    if loaded.Err? {
      return Err(loaded.error);
    }
    var resolved := ResolveNote(notes, note, id);
    if resolved.Err? {
      return Err(resolved.error);
    }
    var winner := None;
    var predecessors: set<RevisionId> := {};
    if resolved.value.Some? {
      var current := resolved.value.value;
      winner := Some(GroupOf(notes, note).revisions[current.winningRevision]);
      predecessors := {current.winningRevision};
      if current.conflict.Some? {
        predecessors := predecessors + current.conflict.value.concurrentRevisions;
      }
    }
    var contents := Contents(op, winner);
    if contents == None {
      return Err(UnavailableNote);
    }
    var stamp := StampMutation(author, StoredStamps(notes), wall);
    var (frontmatter, body, deleted) := contents.value;
    var revision := NoteRevision(note, frontmatter, body, pathOf(note, frontmatter), stamp, author, predecessors,
      deleted);
    MutationCarries(notes, author, note, op, wall, pathOf);
    match id(revision) {
      case None => return Err(InvalidRevision);
      case Some(rid) => return Ok(Prepared(rid, revision, Head(note, author, rid)));
    }
  }

  /** What a revision carries for an operation on a note with this winner: a created or saved note what the
      user wrote, a deleted or restored one what the winner had. */
  predicate Carries(rev: NoteRevision, op: Operation, winner: Option<NoteRevision>) {
    match op
    case Create(f, b) => rev.frontmatter == f && rev.body == b && !rev.deleted
    case Save(f, b) => winner.Some? && rev.frontmatter == f && rev.body == b && !rev.deleted
    case Delete =>
      winner.Some? && rev.frontmatter == winner.value.frontmatter && rev.body == winner.value.body && rev.deleted
    case Restore =>
      winner.Some? && rev.frontmatter == winner.value.frontmatter && rev.body == winner.value.body && !rev.deleted
  }

  /** Only creating a note does without a winner. */
  lemma RefusedExactly(op: Operation, winner: Option<NoteRevision>)
    ensures Contents(op, winner) == None <==> !op.Create? && winner == None
  {
  }

  lemma WinnerIsResolved(notes: Notes, note: NoteId)
    ensures WinnerOf(notes, note) == match ResolvedIn(notes, note)
                                     case None => None
                                     case Some(r) =>
                                       var revs := GroupOf(notes, note).revisions;
                                       if r.winningRevision in revs then Some(revs[r.winningRevision]) else None
  {
  }

  // ----- What the mutation achieves ---------------------------------------------------------------

  predicate BelowCeiling(notes: Notes) {
    forall n :: n in notes ==> forall r :: r in notes[n].revisions ==> notes[n].revisions[r].hlc.logical < U32_MAX
  }

  lemma {:induction false} StampsOfBelowCeiling(notes: Notes, ids: seq<NoteId>)
    requires BelowCeiling(notes) && forall n :: n in ids ==> n in notes
    ensures forall t :: t in StampsOf(notes, ids) ==> t.logical < U32_MAX
  {
    if ids != [] {
      StampsOfBelowCeiling(notes, ids[1..]);
      var keys := SortedKeys(notes[ids[0]].revisions.Keys);
      forall t | t in GroupStamps(notes[ids[0]]) ensures t.logical < U32_MAX {
        var i :| 0 <= i < |keys| && GroupStamps(notes[ids[0]])[i] == t;
        assert keys[i] in notes[ids[0]].revisions;
      }
    }
  }

  lemma BrowserStampPassesStore(notes: Notes, author: ActorId, note: NoteId, wall: U64)
    requires BelowCeiling(notes)
    ensures StampsBelow(GroupOf(notes, note), BrowserStamp(author, StoredStamps(notes), wall))
  {
    var stamps := StoredStamps(notes);
    StampsOfBelowCeiling(notes, SortedKeys(notes.Keys));
    SameElements(StampsOf(notes, SortedKeys(notes.Keys)), stamps);
    forall i | 0 <= i < |stamps| ensures stamps[i].logical < U32_MAX {
      assert stamps[i] in stamps;
    }
    BrowserStampAboveAll(author, stamps, wall);
    var g := GroupOf(notes, note);
    forall r | r in g.revisions ensures Before(g.revisions[r].hlc, BrowserStamp(author, stamps, wall)) {
      StoredStampsContain(notes, note, r);
      var i :| 0 <= i < |stamps| && stamps[i] == g.revisions[r].hlc;
    }
  }

  ghost predicate IsMutation(notes: Notes, author: ActorId, note: NoteId, op: Operation, wall: U64, id: Identity,
      pathOf: PathOf, p: Prepared) {
    && Contents(op, WinnerOf(notes, note)).Some?
    && p.revision == MutationRevision(notes, author, note, op, wall, pathOf)
    && id(p.revision) == Some(p.revisionId)
  }

  ghost predicate HealthyStore(notes: Notes, note: NoteId, id: Identity, rank: map<RevisionId, nat>) {
    Keyed(notes) && ValidGraph(GroupOf(notes, note).revisions, id) && Healthy(GroupOf(notes, note), note, rank)
  }

  function Apply(notes: Notes, author: ActorId, note: NoteId, p: Prepared): Notes {
    notes[note := Committed(GroupOf(notes, note), author, p.revisionId, p.revision)]
  }

  lemma MutationIsJoiningCommit(notes: Notes, author: ActorId, note: NoteId, op: Operation, wall: U64, id: Identity,
      pathOf: PathOf, rank: map<RevisionId, nat>, p: Prepared)
    requires CollisionFree(id) && HealthyStore(notes, note, id, rank)
    requires IsMutation(notes, author, note, op, wall, id, pathOf, p)
    ensures JoiningCommit(GroupOf(notes, note), note, rank, p.revisionId, p.revision)
    ensures ResolvedIn(notes, note) == Resolved(GroupOf(notes, note))
  {
    var g := GroupOf(notes, note);
    HeadListMatchesAll(g, note);
    ContentAddressedJoin(g, note, rank, p.revisionId, p.revision, id);
  }

  /** A browser mutation always resolves every conflict: once stored, the note is exactly the
      new revision. Only a stored logical counter at its ceiling can prevent this. */
  lemma MutationSettlesNote(notes: Notes, author: ActorId, note: NoteId, op: Operation, wall: U64, id: Identity,
      pathOf: PathOf, rank: map<RevisionId, nat>, p: Prepared)
    requires CollisionFree(id) && HealthyStore(notes, note, id, rank) && BelowCeiling(notes)
    requires IsMutation(notes, author, note, op, wall, id, pathOf, p)
    ensures var g := GroupOf(Apply(notes, author, note, p), note);
            && HeadsStored(g)
            && Resolved(g) == Some(ResolvedNote(p.revisionId, if op.Delete? then None else Some(p.revision), None))
  {
    hide BrowserStamp, StoredStamps, WinnerOf, ResolvedIn, JoiningCommit, Before;
    MutationIsJoiningCommit(notes, author, note, op, wall, id, pathOf, rank, p);
    BrowserStampPassesStore(notes, author, note, wall);
    LateCommitWins(GroupOf(notes, note), note, rank, author, p.revisionId, p.revision);
  }

  /** What the user wrote is what the note then shows, as it was written. */
  lemma EditShows(notes: Notes, author: ActorId, note: NoteId, op: Operation, wall: U64, id: Identity,
      pathOf: PathOf, rank: map<RevisionId, nat>, p: Prepared)
    requires CollisionFree(id) && HealthyStore(notes, note, id, rank) && BelowCeiling(notes)
    requires (op.Create? || op.Save?) && IsMutation(notes, author, note, op, wall, id, pathOf, p)
    ensures var g := GroupOf(Apply(notes, author, note, p), note);
            && HeadsStored(g) && Resolved(g).Some?
            && Resolved(g).value.visible.Some? && Resolved(g).value.conflict == None
            && var shown := Resolved(g).value.visible.value;
               shown.frontmatter == op.frontmatter && shown.body == op.body && !shown.deleted
  {
    hide BrowserStamp, StoredStamps, WinnerOf, ResolvedIn, HealthyStore, BelowCeiling, Resolve;
    MutationSettlesNote(notes, author, note, op, wall, id, pathOf, rank, p);
  }

  lemma JoiningKeepsValid(g: Group, note: NoteId, id: Identity, rank: map<RevisionId, nat>, author: ActorId,
      r: RevisionId, rev: NoteRevision)
    returns (rank': map<RevisionId, nat>)
    requires JoiningCommit(g, note, rank, r, rev) && ValidGraph(g.revisions, id) && id(rev) == Some(r)
    ensures ValidGraph(Committed(g, author, r, rev).revisions, id)
    ensures Healthy(Committed(g, author, r, rev), note, rank')
  {
    JoinIsStored(g);
    rank' := CommitKeepsHealthy(g, note, rank, author, r, rev);
    var revs := g.revisions[r := rev];
    forall s | s in revs ensures id(revs[s]) == Some(s) && GoodPredecessors(s, revs) {
      if s != r {
        assert GoodPredecessors(s, g.revisions);
        forall p | p in revs[s].predecessors ensures GoodPredecessor(p, s, revs) {
          assert GoodPredecessor(p, s, g.revisions);
        }
      }
    }
  }

  lemma MutationKeepsHealthy(notes: Notes, author: ActorId, note: NoteId, op: Operation, wall: U64, id: Identity,
      pathOf: PathOf, rank: map<RevisionId, nat>, p: Prepared)
    returns (rank': map<RevisionId, nat>)
    requires CollisionFree(id) && HealthyStore(notes, note, id, rank)
    requires IsMutation(notes, author, note, op, wall, id, pathOf, p)
    ensures HealthyStore(Apply(notes, author, note, p), note, id, rank')
  {
    hide JoiningCommit, ValidGraph, Healthy, BrowserStamp, StoredStamps, WinnerOf, ResolvedIn, Contents, OneNote;
    MutationIsJoiningCommit(notes, author, note, op, wall, id, pathOf, rank, p);
    rank' := JoiningKeepsValid(GroupOf(notes, note), note, id, rank, author, p.revisionId, p.revision);
  }

  lemma SettledWinner(notes: Notes, note: NoteId, r: RevisionId, visible: Option<NoteRevision>)
    requires HeadsStored(GroupOf(notes, note)) && OneNote(GroupOf(notes, note), note)
    requires Resolved(GroupOf(notes, note)) == Some(ResolvedNote(r, visible, None))
    ensures r in GroupOf(notes, note).revisions && WinnerOf(notes, note) == Some(GroupOf(notes, note).revisions[r])
  {
    HeadListMatchesAll(GroupOf(notes, note), note);
  }

  lemma ApplyStaysBelowCeiling(notes: Notes, author: ActorId, note: NoteId, p: Prepared)
    requires BelowCeiling(notes) && p.revision.hlc.logical < U32_MAX
    ensures BelowCeiling(Apply(notes, author, note, p))
  {
  }

  lemma CopiedContents(notes: Notes, author: ActorId, note: NoteId, op: Operation, wall: U64, id: Identity,
      pathOf: PathOf, p: Prepared, w: NoteRevision)
    requires IsMutation(notes, author, note, op, wall, id, pathOf, p)
    requires (op.Delete? || op.Restore?) && WinnerOf(notes, note) == Some(w)
    ensures p.revision.frontmatter == w.frontmatter && p.revision.body == w.body
  {
    hide WinnerOf, ResolvedIn, BrowserStamp, StoredStamps;
  }

  /** Delete, then restore, in the browser: the restored note shows the content that won before
      the deletion, even when other heads were in conflict with it. */
  lemma RestoreUndoesDelete(notes: Notes, author: ActorId, note: NoteId, wall: U64, later: U64, id: Identity,
      pathOf: PathOf, rank: map<RevisionId, nat>, w: NoteRevision,
                            d: Prepared, deleted: Notes, r: Prepared, restored: Notes)
    requires CollisionFree(id) && HealthyStore(notes, note, id, rank) && BelowCeiling(notes)
    requires WinnerOf(notes, note) == Some(w)
    requires IsMutation(notes, author, note, Delete, wall, id, pathOf, d) && d.revision.hlc.logical < U32_MAX
    requires deleted == Apply(notes, author, note, d)
    requires IsMutation(deleted, author, note, Restore, later, id, pathOf, r)
    requires restored == Apply(deleted, author, note, r)
    ensures HeadsStored(GroupOf(deleted, note))
    ensures Resolved(GroupOf(deleted, note)) == Some(ResolvedNote(d.revisionId, None, None))
    ensures HeadsStored(GroupOf(restored, note))
    ensures Resolved(GroupOf(restored, note)) == Some(ResolvedNote(r.revisionId, Some(r.revision), None))
    ensures r.revision.frontmatter == w.frontmatter && r.revision.body == w.body
  {
    MutationSettlesNote(notes, author, note, Delete, wall, id, pathOf, rank, d);
    var rank1 := MutationKeepsHealthy(notes, author, note, Delete, wall, id, pathOf, rank, d);
    SettledWinner(deleted, note, d.revisionId, None);
    CopiedContents(notes, author, note, Delete, wall, id, pathOf, d, w);
    CopiedContents(deleted, author, note, Restore, later, id, pathOf, r, d.revision);
    ApplyStaysBelowCeiling(notes, author, note, d);
    MutationSettlesNote(deleted, author, note, Restore, later, id, pathOf, rank1, r);
  }
}
