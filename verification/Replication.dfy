/** Whole runs of replication: any number of single-writer authors, each with its own replica,
    that load a note, put a revision, move a head, crash in between and receive each other's
    changes in causally closed portions, in any interleaving. */
module Replication {
  import opened Results
  import opened Resolution
  import opened Commits
  import opened Records

  datatype Write = PutRevision(rev: NoteRevision) | SetHead(note: NoteId, revision: RevisionId)

  /** A write, its author and everything the author's replica held when making it. */
  datatype Change = Change(author: ActorId, write: Write, deps: set<nat>)

  /** How far the commit in progress has come. */
  datatype Progress = Idle | Loaded(note: NoteId, seen: set<nat>) | Stored(note: NoteId, revision: RevisionId)

  /** `log` lists every change ever made; a replica holds a set of them. */
  datatype System = System(log: seq<Change>, held: map<ActorId, set<nat>>, progress: map<ActorId, Progress>)

  // ----- The records a replica shows --------------------------------------------------------------

  function Apply(g: Group, c: Change, note: NoteId, id: Identity): Group {
    match c.write
    case PutRevision(rev) =>
      if rev.noteId == note && id(rev).Some? then g.(revisions := g.revisions[id(rev).value := rev]) else g
    case SetHead(n, r) =>
      if n == note then g.(heads := g.heads[c.author := r]) else g
  }

  /** The records of one note after the held changes among the first `n`. */
  function ViewUpTo(log: seq<Change>, n: nat, held: set<nat>, note: NoteId, id: Identity): Group
    requires n <= |log|
  {
    if n == 0 then EMPTY_GROUP
    else
      var g := ViewUpTo(log, n - 1, held, note, id);
      if n - 1 in held then Apply(g, log[n - 1], note, id) else g
  }

  function View(log: seq<Change>, held: set<nat>, note: NoteId, id: Identity): Group {
    ViewUpTo(log, |log|, held, note, id)
  }

  function Replica(s: System, a: ActorId, note: NoteId, id: Identity): Group
    requires a in s.held
  {
    View(s.log, s.held[a], note, id)
  }

  ghost predicate IsPut(log: seq<Change>, i: nat, note: NoteId, r: RevisionId, rev: NoteRevision, id: Identity) {
    i < |log| && log[i].write == PutRevision(rev) && rev.noteId == note && id(rev) == Some(r)
  }

  ghost predicate IsHead(log: seq<Change>, i: nat, a: ActorId, note: NoteId, r: RevisionId) {
    i < |log| && log[i].author == a && log[i].write == SetHead(note, r)
  }

  // ----- Steps --------------------------------------------------------------------------------------

  /** A commit begins: the note is loaded. What arrives later is not in what was loaded. */
  ghost predicate LoadStep(s: System, s': System, a: ActorId, note: NoteId, id: Identity) {
    && a in s.held && a in s.progress && s.progress[a] == Idle
    && Resolvable(Replica(s, a, note, id), id)
    && s' == s.(progress := s.progress[a := Loaded(note, s.held[a])])
  }

  /** The revision that joins what was loaded is stored. */
  ghost predicate PutStep(s: System, s': System, a: ActorId, rev: NoteRevision, id: Identity) {
    && a in s.held && a in s.progress && s.progress[a].Loaded?
    && rev.authorId == a && rev.noteId == s.progress[a].note && id(rev).Some?
    && HeadsStored(View(s.log, s.progress[a].seen, rev.noteId, id))
    && rev.predecessors == JoinPredecessors(Resolved(View(s.log, s.progress[a].seen, rev.noteId, id)))
    && s' == System(s.log + [Change(a, PutRevision(rev), s.held[a])],
                    s.held[a := s.held[a] + {|s.log|}],
                    s.progress[a := Stored(rev.noteId, id(rev).value)])
  }

  /** The commit ends: the stored revision becomes the author's head. */
  ghost predicate HeadStep(s: System, s': System, a: ActorId, id: Identity) {
    && a in s.held && a in s.progress && s.progress[a].Stored?
    && var note, r := s.progress[a].note, s.progress[a].revision;
       && r in Replica(s, a, note, id).revisions
       && s' == System(s.log + [Change(a, SetHead(note, r), s.held[a])],
                       s.held[a := s.held[a] + {|s.log|}],
                       s.progress[a := Idle])
  }

  /** The process stops: a commit whose revision is stored but whose head is not stays that way. */
  ghost predicate CrashStep(s: System, s': System, a: ActorId) {
    a in s.progress && s' == s.(progress := s.progress[a := Idle])
  }

  /** A replica receives some changes of another one, never without what they depend on. */
  ghost predicate DeliverStep(s: System, s': System, a: ActorId, b: ActorId, portion: set<nat>) {
    && a in s.held && b in s.held && portion <= s.held[b]
    && (forall i :: i in portion && i < |s.log| ==> s.log[i].deps <= s.held[a] + portion)
    && s' == s.(held := s.held[a := s.held[a] + portion])
  }

  ghost predicate Step(s: System, s': System, id: Identity) {
    || (exists a, note :: LoadStep(s, s', a, note, id))
    || (exists a, rev :: PutStep(s, s', a, rev, id))
    || (exists a :: HeadStep(s, s', a, id))
    || (exists a :: CrashStep(s, s', a))
    || (exists a, b, portion :: DeliverStep(s, s', a, b, portion))
  }

  ghost predicate Initial(s: System) {
    && s.log == [] && s.held.Keys == s.progress.Keys
    && (forall a :: a in s.held ==> s.held[a] == {} && s.progress[a] == Idle)
  }

  ghost predicate IsRun(run: seq<System>, id: Identity) {
    run != [] && Initial(run[0]) && forall i :: 0 < i < |run| ==> Step(run[i - 1], run[i], id)
  }

  // ----- What every change satisfies ----------------------------------------------------------------

  ghost predicate Closed(log: seq<Change>, held: set<nat>) {
    forall i :: i in held ==> i < |log| && log[i].deps <= held
  }

  ghost predicate HeadIn(log: seq<Change>, held: set<nat>, note: NoteId, r: RevisionId) {
    exists j, a :: j in held && IsHead(log, j, a, note, r)
  }

  ghost predicate PutIn(log: seq<Change>, held: set<nat>, note: NoteId, r: RevisionId, a: ActorId, id: Identity) {
    exists j, rev :: j in held && IsPut(log, j, note, r, rev, id) && rev.authorId == a
  }

  /** A revision joins revisions that were heads; a head names a revision its author stored. */
  ghost predicate Justified(log: seq<Change>, i: nat, id: Identity)
    requires i < |log|
  {
    match log[i].write
    case PutRevision(rev) =>
      id(rev).Some? && rev.authorId == log[i].author
      && forall p :: p in rev.predecessors ==> HeadIn(log, log[i].deps, rev.noteId, p)
    case SetHead(note, r) => PutIn(log, log[i].deps, note, r, log[i].author, id)
  }

  ghost predicate LogOk(log: seq<Change>, id: Identity) {
    forall i :: 0 <= i < |log| ==>
      Closed(log, log[i].deps) && (forall j :: j in log[i].deps ==> j < i) && Justified(log, i, id)
  }

  ghost predicate OwnChangesHeld(s: System) {
    forall i :: 0 <= i < |s.log| ==> s.log[i].author in s.held && i in s.held[s.log[i].author]
  }

  predicate IsIndex(log: seq<Change>, i: nat) {
    i < |log|
  }

  function All(log: seq<Change>): set<nat> {
    set i: nat | i < |log| && IsIndex(log, i)
  }

  function Graph(log: seq<Change>, note: NoteId, id: Identity): Revisions {
    View(log, All(log), note, id).revisions
  }

  /** An author's heads on a note form a chain, each an ancestor of the next. */
  ghost predicate HeadsInLine(log: seq<Change>, id: Identity) {
    forall i, j, a, note, q, r :: i < j && IsHead(log, i, a, note, q) && IsHead(log, j, a, note, r) ==>
      ProperAncestor(q, r, Graph(log, note, id))
  }

  ghost predicate PendingAbove(log: seq<Change>, a: ActorId, note: NoteId, r: RevisionId, id: Identity) {
    forall i, q :: IsHead(log, i, a, note, q) ==> ProperAncestor(q, r, Graph(log, note, id))
  }

  /** A replica never lacks its author's own changes. */
  ghost predicate HasOwn(log: seq<Change>, a: ActorId, seen: set<nat>) {
    forall i :: 0 <= i < |log| && log[i].author == a ==> i in seen
  }

  ghost predicate PendingOk(s: System, a: ActorId, id: Identity)
    requires a in s.held && a in s.progress
  {
    match s.progress[a]
    case Idle => true
    case Loaded(_, seen) => seen <= s.held[a] && Closed(s.log, seen) && HasOwn(s.log, a, seen)
    case Stored(note, r) => PutIn(s.log, s.held[a], note, r, a, id) && PendingAbove(s.log, a, note, r, id)
  }

  ghost predicate Inv(s: System, id: Identity) {
    && s.held.Keys == s.progress.Keys
    && LogOk(s.log, id)
    && (forall a :: a in s.held ==> Closed(s.log, s.held[a]))
    && OwnChangesHeld(s)
    && HeadsInLine(s.log, id)
    && (forall a :: a in s.held ==> PendingOk(s, a, id))
  }

  // ----- Views ----------------------------------------------------------------------------------------

  lemma {:induction false} ViewHoldsPuts(log: seq<Change>, n: nat, held: set<nat>, note: NoteId, id: Identity, i: nat,
      r: RevisionId, rev: NoteRevision)
    requires CollisionFree(id) && n <= |log| && i < n && i in held && IsPut(log, i, note, r, rev, id)
    ensures var revs := ViewUpTo(log, n, held, note, id).revisions; r in revs && revs[r] == rev
  {
    if i < n - 1 {
      ViewHoldsPuts(log, n - 1, held, note, id, i, r, rev);
    }
  }

  lemma {:induction false} ViewHasOnlyPuts(log: seq<Change>, n: nat, held: set<nat>, note: NoteId, id: Identity,
      r: RevisionId)
    requires n <= |log| && r in ViewUpTo(log, n, held, note, id).revisions
    ensures exists i :: i in held && i < n
                        && IsPut(log, i, note, r, ViewUpTo(log, n, held, note, id).revisions[r], id)
  {
    var g := ViewUpTo(log, n - 1, held, note, id);
    if n - 1 in held && log[n - 1].write.PutRevision? && id(log[n - 1].write.rev) == Some(r)
      && log[n - 1].write.rev.noteId == note {
      assert IsPut(log, n - 1, note, r, ViewUpTo(log, n, held, note, id).revisions[r], id);
    } else {
      ViewHasOnlyPuts(log, n - 1, held, note, id, r);
      var i :| i in held && i < n - 1 && IsPut(log, i, note, r, g.revisions[r], id);
      assert IsPut(log, i, note, r, ViewUpTo(log, n, held, note, id).revisions[r], id);
    }
  }

  ghost predicate IsLatestHead(log: seq<Change>, n: nat, held: set<nat>, a: ActorId, note: NoteId, i: nat,
      r: RevisionId) {
    i in held && i < n && IsHead(log, i, a, note, r)
    && forall j, q :: i < j < n && j in held ==> !IsHead(log, j, a, note, q)
  }

  lemma {:induction false} ViewHeadIsLatest(log: seq<Change>, n: nat, held: set<nat>, note: NoteId, id: Identity,
      a: ActorId)
    requires n <= |log| && a in ViewUpTo(log, n, held, note, id).heads
    ensures exists i :: IsLatestHead(log, n, held, a, note, i, ViewUpTo(log, n, held, note, id).heads[a])
  {
    var r := ViewUpTo(log, n, held, note, id).heads[a];
    if n - 1 in held && log[n - 1].author == a && log[n - 1].write.SetHead? && log[n - 1].write.note == note {
      assert IsLatestHead(log, n, held, a, note, n - 1, r);
    } else {
      ViewHeadIsLatest(log, n - 1, held, note, id, a);
      var i :| IsLatestHead(log, n - 1, held, a, note, i, r);
      assert IsLatestHead(log, n, held, a, note, i, r);
    }
  }

  lemma {:induction false} ViewHasHeads(log: seq<Change>, n: nat, held: set<nat>, note: NoteId, id: Identity, i: nat,
      a: ActorId, r: RevisionId)
    requires n <= |log| && i < n && i in held && IsHead(log, i, a, note, r)
    ensures a in ViewUpTo(log, n, held, note, id).heads
  {
    if i < n - 1 {
      ViewHasHeads(log, n - 1, held, note, id, i, a, r);
    }
  }

  lemma {:induction false} ViewIgnoresLater(log: seq<Change>, c: Change, n: nat, held: set<nat>, note: NoteId,
      id: Identity)
    requires n <= |log|
    ensures ViewUpTo(log + [c], n, held, note, id) == ViewUpTo(log, n, held, note, id)
  {
    if n > 0 {
      ViewIgnoresLater(log, c, n - 1, held, note, id);
    }
  }

  lemma {:induction false} ViewIgnoresUnheld(log: seq<Change>, n: nat, held: set<nat>, more: set<nat>, note: NoteId,
      id: Identity)
    requires n <= |log| && forall i :: i < n ==> (i in held <==> i in more)
    ensures ViewUpTo(log, n, held, note, id) == ViewUpTo(log, n, more, note, id)
  {
    if n > 0 {
      ViewIgnoresUnheld(log, n - 1, held, more, note, id);
    }
  }

  // ----- Every view is resolvable -----------------------------------------------------------------------

  lemma HeadWasPut(log: seq<Change>, held: set<nat>, note: NoteId, r: RevisionId, id: Identity)
    returns (k: nat, rev: NoteRevision)
    requires LogOk(log, id) && Closed(log, held) && HeadIn(log, held, note, r)
    ensures k in held && IsPut(log, k, note, r, rev, id)
  {
    var j, a :| j in held && IsHead(log, j, a, note, r);
    assert Justified(log, j, id);
    k, rev :| k in log[j].deps && IsPut(log, k, note, r, rev, id) && rev.authorId == a;
  }

  /** On every causally closed replica the graph is valid and every head names a stored revision,
      so resolution never reports a missing revision, a missing predecessor or a mismatch. */
  lemma ViewResolvable(log: seq<Change>, held: set<nat>, note: NoteId, id: Identity)
    requires CollisionFree(id) && LogOk(log, id) && Closed(log, held)
    ensures var g := View(log, held, note, id);
            OneNote(g, note) && Resolvable(g, id) && PredecessorsStored(g.revisions)
  {
    var g := View(log, held, note, id);
    forall r | r in g.revisions
      ensures id(g.revisions[r]) == Some(r) && g.revisions[r].noteId == note && GoodPredecessors(r, g.revisions)
    {
      ViewHasOnlyPuts(log, |log|, held, note, id, r);
      var i :| i in held && IsPut(log, i, note, r, g.revisions[r], id);
      assert Justified(log, i, id);
      forall p | p in g.revisions[r].predecessors ensures GoodPredecessor(p, r, g.revisions) {
        var k, rev := HeadWasPut(log, log[i].deps, note, p, id);
        ViewHoldsPuts(log, |log|, held, note, id, k, p, rev);
      }
    }
    forall r, p | r in g.revisions && p in g.revisions[r].predecessors ensures p in g.revisions {
      assert GoodPredecessors(r, g.revisions);
      assert GoodPredecessor(p, r, g.revisions);
    }
    forall a | a in g.heads ensures g.heads[a] in g.revisions {
      ViewHeadIsLatest(log, |log|, held, note, id, a);
      assert HeadIn(log, held, note, g.heads[a]);
      var k, rev := HeadWasPut(log, held, note, g.heads[a], id);
      ViewHoldsPuts(log, |log|, held, note, id, k, g.heads[a], rev);
    }
  }

  // ----- The graph of all revisions -----------------------------------------------------------------------

  lemma ViewWithinGraph(log: seq<Change>, held: set<nat>, note: NoteId, id: Identity)
    requires CollisionFree(id) && Closed(log, held)
    ensures Extends(View(log, held, note, id).revisions, Graph(log, note, id))
  {
    var revs := View(log, held, note, id).revisions;
    forall r | r in revs ensures r in Graph(log, note, id) && Graph(log, note, id)[r] == revs[r] {
      ViewHasOnlyPuts(log, |log|, held, note, id, r);
      var i :| i in held && IsPut(log, i, note, r, revs[r], id);
      ViewHoldsPuts(log, |log|, All(log), note, id, i, r, revs[r]);
    }
  }

  /** What its author's own change does to what a replica shows. */
  lemma OwnChangeShows(log: seq<Change>, c: Change, held: set<nat>, note: NoteId, id: Identity)
    requires Closed(log, held)
    ensures View(log + [c], held + {|log|}, note, id) == Apply(View(log, held, note, id), c, note, id)
  {
    ViewIgnoresLater(log, c, |log|, held + {|log|}, note, id);
    ViewIgnoresUnheld(log, |log|, held, held + {|log|}, note, id);
  }

  lemma GraphStep(log: seq<Change>, c: Change, note: NoteId, id: Identity)
    ensures Graph(log + [c], note, id) == Apply(View(log, All(log), note, id), c, note, id).revisions
  {
    ViewIgnoresLater(log, c, |log|, All(log + [c]), note, id);
    ViewIgnoresUnheld(log, |log|, All(log), All(log + [c]), note, id);
  }

  lemma GraphGrows(log: seq<Change>, c: Change, note: NoteId, id: Identity)
    requires CollisionFree(id)
    ensures Extends(Graph(log, note, id), Graph(log + [c], note, id))
    ensures c.write.SetHead? ==> Graph(log + [c], note, id) == Graph(log, note, id)
  {
    GraphStep(log, c, note, id);
    var revs := Graph(log, note, id);
    if c.write.PutRevision? && id(c.write.rev).Some? && id(c.write.rev).value in revs {
      ViewHasOnlyPuts(log, |log|, All(log), note, id, id(c.write.rev).value);
    }
  }

  ghost predicate RankedBelow(revs: Revisions, rank: map<RevisionId, nat>, n: nat) {
    Ranked(revs, rank) && PredecessorsStored(revs) && rank.Keys == revs.Keys && forall r :: r in rank ==> rank[r] < n
  }

  lemma RankOneMore(revs: Revisions, rank: map<RevisionId, nat>, n: nat, r: RevisionId, rev: NoteRevision)
    requires RankedBelow(revs, rank, n) && r !in revs && rev.predecessors <= revs.Keys
    ensures RankedBelow(revs[r := rev], rank[r := n], n + 1)
  {
  }

  lemma PutPredecessorsStored(log: seq<Change>, n: nat, note: NoteId, id: Identity)
    requires CollisionFree(id) && LogOk(log, id)
    requires n < |log| && log[n].write.PutRevision? && log[n].write.rev.noteId == note
    ensures log[n].write.rev.predecessors <= ViewUpTo(log, n, All(log), note, id).revisions.Keys
  {
    assert Justified(log, n, id);
    forall p | p in log[n].write.rev.predecessors ensures p in ViewUpTo(log, n, All(log), note, id).revisions {
      var k, q := HeadWasPut(log, log[n].deps, note, p, id);
      ViewHoldsPuts(log, n, All(log), note, id, k, p, q);
    }
  }

  lemma StoredAgain(log: seq<Change>, n: nat, note: NoteId, id: Identity, r: RevisionId, rev: NoteRevision)
    requires CollisionFree(id) && n <= |log| && id(rev) == Some(r)
             && r in ViewUpTo(log, n, All(log), note, id).revisions
    ensures var revs := ViewUpTo(log, n, All(log), note, id).revisions; revs[r := rev] == revs
  {
    ViewHasOnlyPuts(log, n, All(log), note, id, r);
  }

  lemma GraphUpToStep(log: seq<Change>, n: nat, note: NoteId, id: Identity)
    requires n < |log|
    ensures var revs, w := ViewUpTo(log, n, All(log), note, id).revisions, log[n].write;
            ViewUpTo(log, n + 1, All(log), note, id).revisions
            == if w.PutRevision? && w.rev.noteId == note && id(w.rev).Some? then revs[id(w.rev).value := w.rev]
               else revs
  {
  }

  function GraphUpTo(log: seq<Change>, n: nat, note: NoteId, id: Identity): Revisions
    requires n <= |log|
  {
    ViewUpTo(log, n, All(log), note, id).revisions
  }

  lemma NewlyRanked(log: seq<Change>, n: nat, note: NoteId, id: Identity, rank: map<RevisionId, nat>, rev: NoteRevision)
    requires CollisionFree(id) && LogOk(log, id) && n < |log|
    requires log[n].write == PutRevision(rev) && rev.noteId == note && id(rev).Some?
    requires RankedBelow(GraphUpTo(log, n, note, id), rank, n) && id(rev).value !in GraphUpTo(log, n, note, id)
    ensures RankedBelow(GraphUpTo(log, n + 1, note, id), rank[id(rev).value := n], n + 1)
  {
    hide RankedBelow, LogOk, CollisionFree, ViewUpTo, All;
    GraphUpToStep(log, n, note, id);
    PutPredecessorsStored(log, n, note, id);
    RankOneMore(GraphUpTo(log, n, note, id), rank, n, id(rev).value, rev);
  }

  lemma StillRanked(log: seq<Change>, n: nat, note: NoteId, id: Identity, rank: map<RevisionId, nat>)
    requires CollisionFree(id) && n < |log| && RankedBelow(GraphUpTo(log, n, note, id), rank, n)
    requires var w := log[n].write;
             w.PutRevision? && w.rev.noteId == note && id(w.rev).Some? ==>
               id(w.rev).value in GraphUpTo(log, n, note, id)
    ensures RankedBelow(GraphUpTo(log, n + 1, note, id), rank, n + 1)
  {
    hide RankedBelow, CollisionFree, ViewUpTo, All;
    var w := log[n].write;
    GraphUpToStep(log, n, note, id);
    RankLoosens(GraphUpTo(log, n, note, id), rank, n);
    if w.PutRevision? && w.rev.noteId == note && id(w.rev).Some? {
      StoredAgain(log, n, note, id, id(w.rev).value, w.rev);
    }
  }

  lemma NothingRanked(log: seq<Change>, note: NoteId, id: Identity)
    ensures RankedBelow(GraphUpTo(log, 0, note, id), map[], 0)
  {
  }

  /** Ranking revisions by when they were first stored: predecessors come earlier. */
  lemma {:induction false} PrefixRanked(log: seq<Change>, n: nat, note: NoteId, id: Identity)
    returns (rank: map<RevisionId, nat>)
    requires CollisionFree(id) && LogOk(log, id) && n <= |log|
    ensures RankedBelow(GraphUpTo(log, n, note, id), rank, n)
  {
    hide RankedBelow, LogOk, CollisionFree, GraphUpTo;
    if n == 0 {
      NothingRanked(log, note, id);
      rank := map[];
    } else {
      rank := PrefixRanked(log, n - 1, note, id);
      var w := log[n - 1].write;
      if w.PutRevision? && w.rev.noteId == note && id(w.rev).Some?
         && id(w.rev).value !in GraphUpTo(log, n - 1, note, id) {
        NewlyRanked(log, n - 1, note, id, rank, w.rev);
        rank := rank[id(w.rev).value := n - 1];
      } else {
        StillRanked(log, n - 1, note, id, rank);
      }
    }
  }

  lemma RankLoosens(revs: Revisions, rank: map<RevisionId, nat>, n: nat)
    requires RankedBelow(revs, rank, n)
    ensures RankedBelow(revs, rank, n + 1)
  {
  }

  lemma NotOwnAncestor(log: seq<Change>, note: NoteId, id: Identity, r: RevisionId)
    requires CollisionFree(id) && LogOk(log, id) && r in Graph(log, note, id)
    ensures !ProperAncestor(r, r, Graph(log, note, id))
  {
    var rank := PrefixRanked(log, |log|, note, id);
    if ProperAncestor(r, r, Graph(log, note, id)) {
      AncestorsAreOlder(r, r, Graph(log, note, id), rank);
    }
  }

  lemma PendingNotYetHead(s: System, a: ActorId, id: Identity, j: nat, c: ActorId)
    requires CollisionFree(id) && Inv(s, id) && a in s.held && s.progress[a].Stored?
    ensures !IsHead(s.log, j, c, s.progress[a].note, s.progress[a].revision)
  {
    hide ProperAncestor;
    var log, note, r := s.log, s.progress[a].note, s.progress[a].revision;
    if IsHead(log, j, c, note, r) {
      assert Justified(log, j, id);
      var k, rev :| k in log[j].deps && IsPut(log, k, note, r, rev, id) && rev.authorId == c;
      assert PendingOk(s, a, id);
      var k', rev' :| k' in s.held[a] && IsPut(log, k', note, r, rev', id) && rev'.authorId == a;
      assert rev == rev' && c == a;
      ViewHoldsPuts(log, |log|, All(log), note, id, k, r, rev);
      assert ProperAncestor(r, r, Graph(log, note, id));
      NotOwnAncestor(log, note, id, r);
    }
  }

  /** Nothing anywhere joins a revision that is stored but not yet a head, even if the same
      revision was stored before by an interrupted commit. */
  lemma PendingNeverJoined(s: System, a: ActorId, id: Identity, x: RevisionId)
    requires CollisionFree(id) && Inv(s, id) && a in s.held && s.progress[a].Stored?
    requires x in Graph(s.log, s.progress[a].note, id)
    ensures s.progress[a].revision !in Graph(s.log, s.progress[a].note, id)[x].predecessors
  {
    var log, note, r := s.log, s.progress[a].note, s.progress[a].revision;
    if r in Graph(log, note, id)[x].predecessors {
      ViewHasOnlyPuts(log, |log|, All(log), note, id, x);
      var i :| i in All(log) && IsPut(log, i, note, x, Graph(log, note, id)[x], id);
      assert Justified(log, i, id);
      var j, c :| j in log[i].deps && IsHead(log, j, c, note, r);
      PendingNotYetHead(s, a, id, j, c);
    }
  }

  // ----- Steps keep the invariant --------------------------------------------------------------------------

  lemma InitialInv(s: System, id: Identity)
    requires Initial(s)
    ensures Inv(s, id)
  {
  }

  lemma CrashKeepsInv(s: System, s': System, a: ActorId, id: Identity)
    requires Inv(s, id) && CrashStep(s, s', a)
    ensures Inv(s', id)
  {
    forall b | b in s'.held ensures PendingOk(s', b, id) {
      assert PendingOk(s, b, id);
    }
  }

  lemma DeliverKeepsInv(s: System, s': System, a: ActorId, b: ActorId, portion: set<nat>, id: Identity)
    requires Inv(s, id) && DeliverStep(s, s', a, b, portion)
    ensures Inv(s', id)
  {
    assert Closed(s.log, s.held[a]) && Closed(s.log, s.held[b]);
    forall c | c in s'.held ensures PendingOk(s', c, id) && Closed(s'.log, s'.held[c]) {
      assert PendingOk(s, c, id) && Closed(s.log, s.held[c]);
    }
  }

  lemma LoadKeepsInv(s: System, s': System, a: ActorId, note: NoteId, id: Identity)
    requires Inv(s, id) && LoadStep(s, s', a, note, id)
    ensures Inv(s', id)
  {
    forall b | b in s'.held ensures PendingOk(s', b, id) {
      assert PendingOk(s, b, id) && Closed(s.log, s.held[b]);
    }
  }

  lemma AppendKeepsJustified(log: seq<Change>, c: Change, i: nat, id: Identity)
    requires i < |log| && Justified(log, i, id)
    ensures Justified(log + [c], i, id)
  {
    match log[i].write {
      case PutRevision(rev) =>
        forall p | p in rev.predecessors ensures HeadIn(log + [c], log[i].deps, rev.noteId, p) {
          var j, a :| j in log[i].deps && IsHead(log, j, a, rev.noteId, p);
          assert IsHead(log + [c], j, a, rev.noteId, p);
        }
      case SetHead(note, r) =>
        var j, rev :| j in log[i].deps && IsPut(log, j, note, r, rev, id) && rev.authorId == log[i].author;
        assert IsPut(log + [c], j, note, r, rev, id);
    }
  }

  lemma AppendKeepsLog(log: seq<Change>, c: Change, id: Identity)
    requires LogOk(log, id) && Closed(log, c.deps) && Justified(log + [c], |log|, id)
    ensures LogOk(log + [c], id)
  {
    forall i | 0 <= i < |log + [c]|
      ensures Closed(log + [c], (log + [c])[i].deps) && (forall j :: j in (log + [c])[i].deps ==> j < i)
              && Justified(log + [c], i, id)
    {
      if i < |log| {
        AppendKeepsJustified(log, c, i, id);
      }
    }
  }

  lemma AppendKeepsAncestor(log: seq<Change>, c: Change, note: NoteId, id: Identity, q: RevisionId, r: RevisionId)
    requires CollisionFree(id) && ProperAncestor(q, r, Graph(log, note, id))
    ensures ProperAncestor(q, r, Graph(log + [c], note, id))
  {
    GraphGrows(log, c, note, id);
    AncestorSurvives(q, r, Graph(log, note, id), Graph(log + [c], note, id));
  }

  lemma AppendKeepsLoaded(s: System, c: Change, b: ActorId, held: set<nat>, id: Identity)
    requires b in s.held && b in s.progress && PendingOk(s, b, id) && s.progress[b].Loaded?
    requires s.held[b] <= held && c.author != b
    ensures var seen := s.progress[b].seen; seen <= held && Closed(s.log + [c], seen) && HasOwn(s.log + [c], b, seen)
  {
  }

  lemma AppendKeepsPending(s: System, c: Change, b: ActorId, held: set<nat>, id: Identity)
    requires CollisionFree(id) && b in s.held && b in s.progress && PendingOk(s, b, id)
    requires s.held[b] <= held && (c.author == b ==> c.write.PutRevision?)
    requires s.progress[b].Stored?
    ensures PutIn(s.log + [c], held, s.progress[b].note, s.progress[b].revision, b, id)
    ensures PendingAbove(s.log + [c], b, s.progress[b].note, s.progress[b].revision, id)
  {
    var note, r := s.progress[b].note, s.progress[b].revision;
    var j, rev :| j in s.held[b] && IsPut(s.log, j, note, r, rev, id) && rev.authorId == b;
    assert IsPut(s.log + [c], j, note, r, rev, id);
    forall i, q | IsHead(s.log + [c], i, b, note, q) ensures ProperAncestor(q, r, Graph(s.log + [c], note, id)) {
      assert IsHead(s.log, i, b, note, q);
      AppendKeepsAncestor(s.log, c, note, id, q, r);
    }
  }

  /** What the author of a change does leaves every other replica and every commit in progress fit. */
  lemma AppendKeepsReplicas(s: System, s': System, c: Change, id: Identity)
    requires CollisionFree(id) && Inv(s, id) && c.author in s.held && c.deps == s.held[c.author]
    requires s'.log == s.log + [c] && s'.held == s.held[c.author := s.held[c.author] + {|s.log|}]
    requires c.author in s'.progress && s'.progress == s.progress[c.author := s'.progress[c.author]]
    ensures forall b :: b in s'.held ==> Closed(s'.log, s'.held[b])
    ensures forall b :: b in s'.held && b != c.author ==> PendingOk(s', b, id)
  {
    hide View, Graph, Justified;
    forall b | b in s'.held ensures Closed(s'.log, s'.held[b]) && (b != c.author ==> PendingOk(s', b, id)) {
      assert Closed(s.log, s.held[b]) && PendingOk(s, b, id);
      if b != c.author && s.progress[b].Stored? {
        AppendKeepsPending(s, c, b, s'.held[b], id);
      } else if b != c.author && s.progress[b].Loaded? {
        AppendKeepsLoaded(s, c, b, s'.held[b], id);
      }
    }
  }

  lemma HeadIsJustified(s: System, a: ActorId, id: Identity)
    requires a in s.held && a in s.progress && s.progress[a].Stored? && PendingOk(s, a, id)
    ensures Justified(s.log + [Change(a, SetHead(s.progress[a].note, s.progress[a].revision), s.held[a])], |s.log|, id)
  {
    var note, r := s.progress[a].note, s.progress[a].revision;
    var j, rev :| j in s.held[a] && IsPut(s.log, j, note, r, rev, id) && rev.authorId == a;
    assert IsPut(s.log + [Change(a, SetHead(note, r), s.held[a])], j, note, r, rev, id);
  }

  lemma AppendKeepsLine(log: seq<Change>, c: Change, id: Identity)
    requires CollisionFree(id) && HeadsInLine(log, id)
    requires c.write.SetHead? ==> PendingAbove(log, c.author, c.write.note, c.write.revision, id)
    ensures HeadsInLine(log + [c], id)
  {
    forall i: nat, j: nat, a, note, q, r | i < j && IsHead(log + [c], i, a, note, q) && IsHead(log + [c], j, a, note, r)
      ensures ProperAncestor(q, r, Graph(log + [c], note, id))
    {
      assert IsHead(log, i, a, note, q);
      if j < |log| {
        assert IsHead(log, j, a, note, r);
      }
      AppendKeepsAncestor(log, c, note, id, q, r);
    }
  }

  /** A revision that joins what its author loaded descends from every head the author ever had. */
  lemma JoinAboveOwnHeads(s: System, a: ActorId, seen: set<nat>, rev: NoteRevision, id: Identity, i: nat, q: RevisionId)
    requires CollisionFree(id) && Inv(s, id) && a in s.held && Closed(s.log, seen) && HasOwn(s.log, a, seen)
    requires HeadsStored(View(s.log, seen, rev.noteId, id))
    requires id(rev).Some? && rev.predecessors == JoinPredecessors(Resolved(View(s.log, seen, rev.noteId, id)))
    requires IsHead(s.log, i, a, rev.noteId, q)
    ensures var log := s.log + [Change(a, PutRevision(rev), s.held[a])];
            ProperAncestor(q, id(rev).value, Graph(log, rev.noteId, id))
  {
    var note, r, c := rev.noteId, id(rev).value, Change(a, PutRevision(rev), s.held[a]);
    var g := View(s.log, seen, note, id);
    var before, after := Graph(s.log, note, id), Graph(s.log + [c], note, id);
    ViewWithinGraph(s.log, seen, note, id);
    GraphGrows(s.log, c, note, id);
    GraphStep(s.log, c, note, id);
    ViewHasHeads(s.log, |s.log|, seen, note, id, i, a, q);
    var h := g.heads[a];
    JoinDescendsFromHeads(g, r, after, h);
    ViewHeadIsLatest(s.log, |s.log|, seen, note, id, a);
    var j :| IsLatestHead(s.log, |s.log|, seen, a, note, j, h);
    assert IsHead(s.log, j, a, note, h);
    if i < j {
      assert ProperAncestor(q, h, before);
      AncestorSurvives(q, h, before, after);
      AncestorTransitive(q, h, r, after);
    } else {
      assert i == j;
    }
  }

  lemma PutIsJustified(s: System, a: ActorId, rev: NoteRevision, id: Identity)
    requires a in s.held && a in s.progress && s.progress[a].Loaded? && PendingOk(s, a, id) && rev.authorId == a
             && id(rev).Some?
    requires HeadsStored(View(s.log, s.progress[a].seen, rev.noteId, id))
    requires rev.predecessors == JoinPredecessors(Resolved(View(s.log, s.progress[a].seen, rev.noteId, id)))
    ensures Justified(s.log + [Change(a, PutRevision(rev), s.held[a])], |s.log|, id)
  {
    var c := Change(a, PutRevision(rev), s.held[a]);
    var seen := s.progress[a].seen;
    var g := View(s.log, seen, rev.noteId, id);
    forall p | p in rev.predecessors ensures HeadIn(s.log + [c], c.deps, rev.noteId, p) {
      var b :| b in g.heads && g.heads[b] == p;
      ViewHeadIsLatest(s.log, |s.log|, seen, rev.noteId, id, b);
      var j :| IsLatestHead(s.log, |s.log|, seen, b, rev.noteId, j, p);
      assert IsHead(s.log + [c], j, b, rev.noteId, p);
    }
  }

  lemma PutIsPending(s: System, s': System, a: ActorId, rev: NoteRevision, id: Identity)
    requires CollisionFree(id) && Inv(s, id) && PutStep(s, s', a, rev, id)
    ensures PendingOk(s', a, id)
  {
    hide View, Justified;
    assert PendingOk(s, a, id);
    var r := id(rev).value;
    assert IsPut(s'.log, |s.log|, rev.noteId, r, rev, id);
    forall i, q | IsHead(s'.log, i, a, rev.noteId, q) ensures ProperAncestor(q, r, Graph(s'.log, rev.noteId, id)) {
      assert IsHead(s.log, i, a, rev.noteId, q);
      JoinAboveOwnHeads(s, a, s.progress[a].seen, rev, id, i, q);
    }
  }

  lemma PutKeepsInv(s: System, s': System, a: ActorId, rev: NoteRevision, id: Identity)
    requires CollisionFree(id) && Inv(s, id) && PutStep(s, s', a, rev, id)
    ensures Inv(s', id)
  {
    hide View, Graph, Justified, IsPut, IsHead;
    var c := Change(a, PutRevision(rev), s.held[a]);
    assert PendingOk(s, a, id);
    PutIsJustified(s, a, rev, id);
    AppendKeepsLog(s.log, c, id);
    AppendKeepsLine(s.log, c, id);
    PutIsPending(s, s', a, rev, id);
    AppendKeepsReplicas(s, s', c, id);
  }

  lemma HeadKeepsInv(s: System, s': System, a: ActorId, id: Identity)
    requires CollisionFree(id) && Inv(s, id) && HeadStep(s, s', a, id)
    ensures Inv(s', id)
  {
    hide View, Graph;
    var note, r := s.progress[a].note, s.progress[a].revision;
    var c := Change(a, SetHead(note, r), s.held[a]);
    assert PendingOk(s, a, id);
    HeadIsJustified(s, a, id);
    AppendKeepsLog(s.log, c, id);
    AppendKeepsLine(s.log, c, id);
    AppendKeepsReplicas(s, s', c, id);
  }

  lemma StepKeepsInv(s: System, s': System, id: Identity)
    requires CollisionFree(id) && Inv(s, id) && Step(s, s', id)
    ensures Inv(s', id)
  {
    hide PutStep, HeadStep, CrashStep, DeliverStep, LoadStep, Inv;
    if a, note :| LoadStep(s, s', a, note, id) {
      LoadKeepsInv(s, s', a, note, id);
    } else if a, rev :| PutStep(s, s', a, rev, id) {
      PutKeepsInv(s, s', a, rev, id);
    } else if a :| HeadStep(s, s', a, id) {
      HeadKeepsInv(s, s', a, id);
    } else if a :| CrashStep(s, s', a) {
      CrashKeepsInv(s, s', a, id);
    } else {
      var a, b, portion :| DeliverStep(s, s', a, b, portion);
      DeliverKeepsInv(s, s', a, b, portion, id);
    }
  }

  lemma {:induction false} RunKeepsInv(run: seq<System>, id: Identity, i: nat)
    requires CollisionFree(id) && IsRun(run, id) && i < |run|
    ensures Inv(run[i], id)
  {
    if i == 0 {
      InitialInv(run[0], id);
    } else {
      RunKeepsInv(run, id, i - 1);
      StepKeepsInv(run[i - 1], run[i], id);
    }
  }

  // ----- Theorems about every run --------------------------------------------------------------------------

  /** In every state of every run, every replica resolves every note without an error. */
  lemma EveryReplicaResolves(run: seq<System>, id: Identity, i: nat, a: ActorId, note: NoteId)
    requires CollisionFree(id) && IsRun(run, id) && i < |run| && a in run[i].held
    ensures var g := Replica(run[i], a, note, id); OneNote(g, note) && Resolvable(g, id)
  {
    RunKeepsInv(run, id, i);
    ViewResolvable(run[i].log, run[i].held[a], note, id);
  }

  /** In every state of every run, each replica's graph has a ranking, so it is acyclic. */
  lemma EveryReplicaIsHealthy(run: seq<System>, id: Identity, i: nat, a: ActorId, note: NoteId)
    returns (rank: map<RevisionId, nat>)
    requires CollisionFree(id) && IsRun(run, id) && i < |run| && a in run[i].held
    ensures Healthy(Replica(run[i], a, note, id), note, rank)
  {
    RunKeepsInv(run, id, i);
    var s := run[i];
    ViewResolvable(s.log, s.held[a], note, id);
    ViewWithinGraph(s.log, s.held[a], note, id);
    rank := PrefixRanked(s.log, |s.log|, note, id);
  }

  lemma LastEdge(a: RevisionId, d: RevisionId, revs: Revisions) returns (x: RevisionId)
    requires ProperAncestor(a, d, revs)
    ensures x in revs && a in revs[x].predecessors
  {
    var path :| ChainBetween(path, d, a, revs);
    x := path[|path| - 2];
  }

  lemma HeadStepShowsHead(s: System, s': System, a: ActorId, id: Identity)
    requires HeadStep(s, s', a, id)
    ensures a in s'.held && var g := Replica(s', a, s.progress[a].note, id);
            a in g.heads && g.heads[a] == s.progress[a].revision
  {
  }

  lemma NewHeadHasNoDescendants(s: System, s': System, a: ActorId, id: Identity, w: RevisionId)
    requires CollisionFree(id) && Inv(s, id) && Inv(s', id) && HeadStep(s, s', a, id)
    ensures !ProperAncestor(s.progress[a].revision, w, Replica(s', a, s.progress[a].note, id).revisions)
  {
    var note, r := s.progress[a].note, s.progress[a].revision;
    var revs := Replica(s', a, note, id).revisions;
    if ProperAncestor(r, w, revs) {
      var x := LastEdge(r, w, revs);
      assert Closed(s'.log, s'.held[a]);
      ViewWithinGraph(s'.log, s'.held[a], note, id);
      GraphGrows(s.log, Change(a, SetHead(note, r), s.held[a]), note, id);
      PendingNeverJoined(s, a, id, x);
    }
  }

  ghost predicate Shown(r: RevisionId, g: Group)
    requires HeadsStored(g)
  {
    && Resolved(g).Some?
    && var resolved := Resolved(g).value;
       || resolved.winningRevision == r
       || (resolved.conflict.Some? && r in resolved.conflict.value.concurrentRevisions)
  }

  lemma ShownUnlessAncestor(r: RevisionId, g: Group, a: ActorId)
    requires HeadsStored(g) && a in g.heads && g.heads[a] == r
    requires forall w :: !ProperAncestor(r, w, g.revisions)
    ensures Shown(r, g)
  {
    assert r in g.heads.Values;
    var w := Winner(g.heads.Values, g.revisions);
    assert !ProperAncestor(r, w, g.revisions);
    if w != r {
      assert r in Concurrent(w, g.heads.Values, g.revisions);
    }
  }

  lemma {:induction false} ChainStaysInside(path: seq<RevisionId>, inner: Revisions, outer: Revisions)
    requires Extends(inner, outer) && PredecessorsStored(inner) && |path| >= 2 && path[0] in inner && Chain(path, outer)
    ensures Chain(path, inner) && path[|path| - 1] in inner
  {
    assert path[1] in outer[path[0]].predecessors;
    if |path| > 2 {
      var tail := path[1..];
      forall i | 0 <= i < |tail| - 1 ensures tail[i] in outer && tail[i + 1] in outer[tail[i]].predecessors {
        assert path[i + 1] in outer && path[i + 2] in outer[path[i + 1]].predecessors;
      }
      ChainStaysInside(tail, inner, outer);
      forall i | 0 <= i < |path| - 1 ensures path[i] in inner && path[i + 1] in inner[path[i]].predecessors {
        if i > 0 {
          assert tail[i - 1] in inner && tail[i] in inner[tail[i - 1]].predecessors;
        }
      }
    }
  }

  /** A replica sees all the ancestry of what it holds. */
  lemma AncestryIsHeld(a: RevisionId, d: RevisionId, inner: Revisions, outer: Revisions)
    requires Extends(inner, outer) && PredecessorsStored(inner) && d in inner && ProperAncestor(a, d, outer)
    ensures ProperAncestor(a, d, inner)
  {
    var path :| ChainBetween(path, d, a, outer);
    ChainStaysInside(path, inner, outer);
    assert ChainBetween(path, d, a, inner);
  }

  /** What a reader of the note is told about, or the history of it. */
  ghost predicate Accounted(q: RevisionId, g: Group)
    requires HeadsStored(g)
  {
    Shown(q, g) || exists s :: Shown(s, g) && ProperAncestor(q, s, g.revisions)
  }

  lemma HeadIsAccounted(h: RevisionId, g: Group)
    requires HeadsStored(g) && h in g.heads.Values
    ensures Shown(h, g) || (Shown(Winner(g.heads.Values, g.revisions), g)
                            && ProperAncestor(h, Winner(g.heads.Values, g.revisions), g.revisions))
  {
    var w := Winner(g.heads.Values, g.revisions);
    if h != w && !ProperAncestor(h, w, g.revisions) {
      assert h in Concurrent(w, g.heads.Values, g.revisions);
    }
  }

  lemma AncestorOfHeadIsAccounted(q: RevisionId, h: RevisionId, g: Group)
    requires HeadsStored(g) && h in g.heads.Values && (q == h || ProperAncestor(q, h, g.revisions))
    ensures Accounted(q, g)
  {
    hide Shown;
    HeadIsAccounted(h, g);
    var w := Winner(g.heads.Values, g.revisions);
    if !Shown(h, g) && q != h {
      AncestorTransitive(q, h, w, g.revisions);
    }
  }

  lemma HeldHeadReached(s: System, b: ActorId, id: Identity, note: NoteId, i: nat, a: ActorId, q: RevisionId)
    requires CollisionFree(id) && Inv(s, id) && b in s.held && i in s.held[b] && IsHead(s.log, i, a, note, q)
    ensures var g := Replica(s, b, note, id);
            && HeadsStored(g) && a in g.heads
            && (q == g.heads[a] || ProperAncestor(q, g.heads[a], g.revisions))
  {
    hide ProperAncestor;
    var g := Replica(s, b, note, id);
    ViewResolvable(s.log, s.held[b], note, id);
    ViewHasHeads(s.log, |s.log|, s.held[b], note, id, i, a, q);
    ViewHeadIsLatest(s.log, |s.log|, s.held[b], note, id, a);
    var h := g.heads[a];
    var j :| IsLatestHead(s.log, |s.log|, s.held[b], a, note, j, h);
    assert i <= j;
    if i < j {
      assert ProperAncestor(q, h, Graph(s.log, note, id));
      ViewWithinGraph(s.log, s.held[b], note, id);
      AncestryIsHeld(q, h, g.revisions, Graph(s.log, note, id));
    }
  }

  /** Nothing a replica holds is ever lost. In every state of every run, every revision that was
      made a head by a change the replica holds, however long ago and by whomever, is shown there
      as winner or concurrent, or is in the history of a revision that is. */
  lemma NoHeadIsLost(run: seq<System>, id: Identity, k: nat, b: ActorId, note: NoteId, i: nat, a: ActorId,
    q: RevisionId)
    requires CollisionFree(id) && IsRun(run, id) && k < |run| && b in run[k].held
    requires i in run[k].held[b] && IsHead(run[k].log, i, a, note, q)
    ensures HeadsStored(Replica(run[k], b, note, id))
    ensures Accounted(q, Replica(run[k], b, note, id))
  {
    hide Inv, IsRun, IsHead, View, Accounted, ProperAncestor;
    RunKeepsInv(run, id, k);
    HeldHeadReached(run[k], b, id, note, i, a, q);
    var g := Replica(run[k], b, note, id);
    AncestorOfHeadIsAccounted(q, g.heads[a], g);
  }

  /** No commit is ever hidden. Whatever was delivered between the two halves of the commit,
      whatever crashed before and however far any clock lags, the revision is the winner or is
      reported as concurrent in its author's replica as soon as its head is set. */
  lemma NoCommitHidden(run: seq<System>, id: Identity, i: nat, a: ActorId)
    requires CollisionFree(id) && IsRun(run, id) && 0 < i < |run| && HeadStep(run[i - 1], run[i], a, id)
    ensures a in run[i].held && HeadsStored(Replica(run[i], a, run[i - 1].progress[a].note, id))
    ensures Shown(run[i - 1].progress[a].revision, Replica(run[i], a, run[i - 1].progress[a].note, id))
  {
    hide ViewUpTo, Inv, IsRun, Shown, ProperAncestor, ValidGraph;
    var s, s' := run[i - 1], run[i];
    var note, r := s.progress[a].note, s.progress[a].revision;
    RunKeepsInv(run, id, i - 1);
    RunKeepsInv(run, id, i);
    HeadStepShowsHead(s, s', a, id);
    ViewResolvable(s'.log, s'.held[a], note, id);
    forall w ensures !ProperAncestor(r, w, Replica(s', a, note, id).revisions) {
      NewHeadHasNoDescendants(s, s', a, id, w);
    }
    ShownUnlessAncestor(r, Replica(s', a, note, id), a);
  }
}
