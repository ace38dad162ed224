/** What replicas receive: every closed portion arrives, both sides end up with the same records, and
    every run can go on until all replicas agree. */
module Deliveries {
  import opened Results
  import opened Strings
  import opened HybridClock
  import opened Resolution
  import opened Commits
  import opened Records
  import opened Replication
  import opened CommitRuns

  // ----- A delivery arrives --------------------------------------------------------------------------

  ghost function Last(run: seq<System>): System
    requires run != []
  {
    run[|run| - 1]
  }

  lemma StepExtends(run: seq<System>, s': System, id: Identity)
    requires IsRun(run, id) && Step(Last(run), s', id)
    ensures IsRun(run + [s'], id) && Last(run + [s']) == s'
  {
    hide Step;
    var on := run + [s'];
    forall i | 0 < i < |on| ensures Step(on[i - 1], on[i], id) {
      if i < |run| {
        assert on[i - 1] == run[i - 1] && on[i] == run[i];
      }
    }
  }

  /** Whatever portion of what one replica holds is sent to another one, if the receiver then lacks
      nothing the portion depends on: the run goes on to the state in which the receiver holds it
      too and nothing else is different. */
  lemma PortionArrives(run: seq<System>, id: Identity, a: ActorId, b: ActorId, portion: set<nat>) returns (s': System)
    requires run != [] && IsRun(run, id) && a in Last(run).held && b in Last(run).held && portion <= Last(run).held[b]
    requires forall i :: i in portion && i < |Last(run).log| ==> Last(run).log[i].deps <= Last(run).held[a] + portion
    ensures IsRun(run + [s'], id)
    ensures s'.log == Last(run).log && s'.progress == Last(run).progress && s'.held.Keys == Last(run).held.Keys
    ensures s'.held[a] == Last(run).held[a] + portion
    ensures forall c :: c in s'.held && c != a ==> s'.held[c] == Last(run).held[c]
  {
    hide IsRun;
    var s := Last(run);
    s' := System(s.log, s.held[a := s.held[a] + portion], s.progress);
    assert DeliverStep(s, s', a, b, portion);
    StepExtends(run, s', id);
  }

  /** Everything one replica holds can reach another one. */
  lemma AllArrives(run: seq<System>, id: Identity, a: ActorId, b: ActorId) returns (s': System)
    requires CollisionFree(id) && run != [] && IsRun(run, id) && a in Last(run).held && b in Last(run).held
    ensures IsRun(run + [s'], id)
    ensures s'.log == Last(run).log && s'.progress == Last(run).progress && s'.held.Keys == Last(run).held.Keys
    ensures s'.held[a] == Last(run).held[a] + Last(run).held[b]
    ensures forall c :: c in s'.held && c != a ==> s'.held[c] == Last(run).held[c]
  {
    hide IsRun;
    RunKeepsInv(run, id, |run| - 1);
    assert Closed(Last(run).log, Last(run).held[b]);
    s' := PortionArrives(run, id, a, b, Last(run).held[b]);
  }

  // ----- What the receiver shows -----------------------------------------------------------------------

  ghost predicate SameOrNewer(q: RevisionId, r: RevisionId, revs: Revisions) {
    q == r || ProperAncestor(q, r, revs)
  }

  /** The receiver shows the revisions of both sides and no others. */
  lemma BothShowRevisions(log: seq<Change>, x: set<nat>, y: set<nat>, note: NoteId, id: Identity, r: RevisionId)
    requires CollisionFree(id) && Closed(log, x) && Closed(log, y)
    ensures var u, v, w := View(log, x, note, id).revisions, View(log, y, note, id).revisions,
                           View(log, x + y, note, id).revisions;
            && (r in w <==> r in u || r in v)
            && (r in u ==> w[r] == u[r])
            && (r in v ==> w[r] == v[r])
  {
    hide IsPut;
    if r in View(log, x, note, id).revisions {
      PutShowsIn(log, x, x + y, note, id, r);
    }
    if r in View(log, y, note, id).revisions {
      PutShowsIn(log, y, x + y, note, id, r);
    }
    if r in View(log, x + y, note, id).revisions {
      ViewHasOnlyPuts(log, |log|, x + y, note, id, r);
      var rev := View(log, x + y, note, id).revisions[r];
      var i :| i in x + y && i < |log| && IsPut(log, i, note, r, rev, id);
      ViewHoldsPuts(log, |log|, if i in x then x else y, note, id, i, r, rev);
    }
  }

  lemma PutShowsIn(log: seq<Change>, x: set<nat>, more: set<nat>, note: NoteId, id: Identity, r: RevisionId)
    requires CollisionFree(id) && x <= more && r in View(log, x, note, id).revisions
    ensures var w := View(log, more, note, id).revisions; r in w && w[r] == View(log, x, note, id).revisions[r]
  {
    hide IsPut;
    ViewHasOnlyPuts(log, |log|, x, note, id, r);
    var rev := View(log, x, note, id).revisions[r];
    var i :| i in x && i < |log| && IsPut(log, i, note, r, rev, id);
    ViewHoldsPuts(log, |log|, more, note, id, i, r, rev);
  }

  /** Heads only move forward: wherever one of the sides had a head of an author, the receiver has that
      head or one that descends from it. */
  lemma HeadsMoveForward(s: System, s': System, id: Identity, a: ActorId, b: ActorId, note: NoteId, c: ActorId)
    requires CollisionFree(id) && Inv(s', id) && a in s'.held && b in s.held
    requires s'.log == s.log && s.held[b] <= s'.held[a] && c in Replica(s, b, note, id).heads
    ensures var g, after := Replica(s, b, note, id), Replica(s', a, note, id);
            c in after.heads && SameOrNewer(g.heads[c], after.heads[c], after.revisions)
  {
    hide Inv;
    ViewHeadIsLatest(s.log, |s.log|, s.held[b], note, id, c);
    var i :| IsLatestHead(s.log, |s.log|, s.held[b], c, note, i, Replica(s, b, note, id).heads[c]);
    HeldHeadReached(s', a, id, note, i, c, Replica(s, b, note, id).heads[c]);
  }

  /** Two replicas after one has sent the other all it has. In every run the receiver then shows
      exactly the revisions of both, resolves the note, and has every head of both or a later one. */
  lemma DeliveryShows(run: seq<System>, id: Identity, a: ActorId, b: ActorId, note: NoteId) returns (s': System)
    requires CollisionFree(id) && run != [] && IsRun(run, id) && a in Last(run).held && b in Last(run).held
    ensures IsRun(run + [s'], id) && s'.log == Last(run).log && s'.held.Keys == Last(run).held.Keys
    ensures s'.held[a] == Last(run).held[a] + Last(run).held[b]
    ensures forall c :: c in s'.held && c != a ==> s'.held[c] == Last(run).held[c]
    ensures var mine, theirs, after := Replica(Last(run), a, note, id), Replica(Last(run), b, note, id),
                                       Replica(s', a, note, id);
            && after.revisions == mine.revisions + theirs.revisions
            && Resolvable(after, id)
            && (forall c :: c in mine.heads ==>
                  c in after.heads && SameOrNewer(mine.heads[c], after.heads[c], after.revisions))
            && (forall c :: c in theirs.heads ==>
                  c in after.heads && SameOrNewer(theirs.heads[c], after.heads[c], after.revisions))
            && (forall c :: c in after.heads ==>
                  || (c in mine.heads && after.heads[c] == mine.heads[c])
                  || (c in theirs.heads && after.heads[c] == theirs.heads[c]))
  {
    hide IsRun, Inv, ViewUpTo, SameOrNewer, ValidGraph, Closed;
    var s := Last(run);
    s' := AllArrives(run, id, a, b);
    RunKeepsInv(run, id, |run| - 1);
    RunKeepsInv(run + [s'], id, |run|);
    RunHoldsClosed(s, a, id);
    RunHoldsClosed(s, b, id);
    forall r
      ensures var u, v, w := Replica(s, a, note, id).revisions, Replica(s, b, note, id).revisions,
                             Replica(s', a, note, id).revisions;
              (r in w <==> r in u || r in v) && (r in u ==> w[r] == u[r]) && (r in v ==> w[r] == v[r])
    {
      BothShowRevisions(s.log, s.held[a], s.held[b], note, id, r);
    }
    EveryReplicaResolves(run + [s'], id, |run|, a, note);
    forall c | c in Replica(s, a, note, id).heads
      ensures c in Replica(s', a, note, id).heads
      ensures SameOrNewer(Replica(s, a, note, id).heads[c], Replica(s', a, note, id).heads[c],
                          Replica(s', a, note, id).revisions)
    {
      HeadsMoveForward(s, s', id, a, a, note, c);
    }
    forall c | c in Replica(s, b, note, id).heads
      ensures c in Replica(s', a, note, id).heads
      ensures SameOrNewer(Replica(s, b, note, id).heads[c], Replica(s', a, note, id).heads[c],
                          Replica(s', a, note, id).revisions)
    {
      HeadsMoveForward(s, s', id, a, b, note, c);
    }
    forall c | c in Replica(s', a, note, id).heads
      ensures (c in Replica(s, a, note, id).heads
               && Replica(s', a, note, id).heads[c] == Replica(s, a, note, id).heads[c])
              || (c in Replica(s, b, note, id).heads
                  && Replica(s', a, note, id).heads[c] == Replica(s, b, note, id).heads[c])
    {
      HeadOfOneSide(s.log, s.held[a], s.held[b], note, id, c);
    }
  }

  lemma RunHoldsClosed(s: System, a: ActorId, id: Identity)
    requires Inv(s, id) && a in s.held
    ensures Closed(s.log, s.held[a])
  {
  }

  lemma HeadOfOneSide(log: seq<Change>, x: set<nat>, y: set<nat>, note: NoteId, id: Identity, c: ActorId)
    requires c in View(log, x + y, note, id).heads
    ensures var h := View(log, x + y, note, id).heads[c];
            || (c in View(log, x, note, id).heads && h == View(log, x, note, id).heads[c])
            || (c in View(log, y, note, id).heads && h == View(log, y, note, id).heads[c])
  {
    hide ViewUpTo, IsHead;
    ViewHeadIsLatest(log, |log|, x + y, note, id, c);
    var h := View(log, x + y, note, id).heads[c];
    var i :| IsLatestHead(log, |log|, x + y, c, note, i, h);
    LatestHeadShows(log, if i in x then x else y, note, id, c, i, h);
  }

  lemma LatestHeadShows(log: seq<Change>, held: set<nat>, note: NoteId, id: Identity, c: ActorId, i: nat,
      h: RevisionId)
    requires IsLatestHead(log, |log|, held, c, note, i, h)
    ensures c in View(log, held, note, id).heads && View(log, held, note, id).heads[c] == h
  {
    hide ViewUpTo;
    ViewHasHeads(log, |log|, held, note, id, i, c, h);
    ViewHeadIsLatest(log, |log|, held, note, id, c);
    var r := View(log, held, note, id).heads[c];
    var j :| IsLatestHead(log, |log|, held, c, note, j, r);
    assert i == j;
  }

  // ----- Every run can come to agreement ---------------------------------------------------------------

  ghost predicate OnlyDeliveries(s: System, t: System) {
    && t.log == s.log && t.progress == s.progress && t.held.Keys == s.held.Keys
    && (forall c :: c in s.held ==> s.held[c] <= t.held[c])
  }

  ghost predicate Extended(run: seq<System>, on: seq<System>, id: Identity) {
    && run != [] && |run| <= |on| && on[..|run|] == run && IsRun(on, id)
    && OnlyDeliveries(Last(run), Last(on))
  }

  lemma ExtendedTwice(run: seq<System>, mid: seq<System>, on: seq<System>, id: Identity)
    requires Extended(run, mid, id) && Extended(mid, on, id)
    ensures Extended(run, on, id)
  {
    hide IsRun;
    assert on[..|run|] == on[..|mid|][..|run|];
  }

  /** One replica collects what a set of others hold. */
  lemma {:induction false} Collect(run: seq<System>, id: Identity, a: ActorId, others: set<ActorId>)
      returns (on: seq<System>)
    requires CollisionFree(id) && run != [] && IsRun(run, id) && a in Last(run).held && others <= Last(run).held.Keys
    ensures Extended(run, on, id)
    ensures forall b :: b in others ==> Last(run).held[b] <= Last(on).held[a]
    decreases |others|
  {
    hide IsRun;
    on := run;
    if others != {} {
      var b :| b in others;
      var s' := AllArrives(run, id, a, b);
      var next := run + [s'];
      on := Collect(next, id, a, others - {b});
      ExtendedTwice(run, next, on, id);
    }
  }

  /** Then it holds every change there is, since each author holds its own. */
  lemma CollectsAll(run: seq<System>, id: Identity, a: ActorId) returns (on: seq<System>)
    requires CollisionFree(id) && run != [] && IsRun(run, id) && a in Last(run).held
    ensures Extended(run, on, id) && Last(on).held[a] == All(Last(on).log)
  {
    hide IsRun, LogOk, HeadsInLine, PendingOk;
    on := Collect(run, id, a, Last(run).held.Keys);
    RunKeepsInv(run, id, |run| - 1);
    RunKeepsInv(on, id, |on| - 1);
    var log := Last(on).log;
    forall i: nat ensures i in Last(on).held[a] <==> i in All(log) {
      if i < |log| {
        assert i in Last(run).held[log[i].author];
        assert IsIndex(log, i);
      }
    }
  }

  lemma {:induction false} AllCollect(run: seq<System>, id: Identity, authors: set<ActorId>) returns (on: seq<System>)
    requires CollisionFree(id) && run != [] && IsRun(run, id) && authors <= Last(run).held.Keys
    ensures Extended(run, on, id)
    ensures forall a :: a in authors ==> Last(on).held[a] == All(Last(on).log)
    decreases |authors|
  {
    hide IsRun, Inv;
    on := run;
    if authors != {} {
      var a :| a in authors;
      var next := CollectsAll(run, id, a);
      on := AllCollect(next, id, authors - {a});
      ExtendedTwice(run, next, on, id);
      RunKeepsInv(on, id, |on| - 1);
      AtMostAll(Last(on), id, a);
    }
  }

  lemma AtMostAll(s: System, id: Identity, a: ActorId)
    requires Inv(s, id) && a in s.held
    ensures s.held[a] <= All(s.log)
  {
    assert Closed(s.log, s.held[a]);
    forall i | i in s.held[a] ensures i in All(s.log) {
      assert IsIndex(s.log, i);
    }
  }

  /** From every state of every run, deliveries alone lead to a state in which all replicas show the
      same records, resolve every note to the same result, and nothing that was ever made a head is
      lost on any of them. */
  lemma EveryRunCanAgree(run: seq<System>, id: Identity) returns (on: seq<System>)
    requires CollisionFree(id) && run != [] && IsRun(run, id)
    ensures Extended(run, on, id)
    ensures forall a, b, note :: a in Last(on).held && b in Last(on).held ==>
              Replica(Last(on), a, note, id) == Replica(Last(on), b, note, id)
    ensures forall a, note :: a in Last(on).held ==> Resolvable(Replica(Last(on), a, note, id), id)
    ensures forall i, c, note, q, b :: IsHead(Last(run).log, i, c, note, q) && b in Last(on).held ==>
              var g := Replica(Last(on), b, note, id); HeadsStored(g) && Accounted(q, g)
  {
    hide IsRun, ViewUpTo, IsHead, Accounted, ValidGraph;
    on := AllCollect(run, id, Last(run).held.Keys);
    var t := Last(on);
    forall a, note | a in t.held ensures Resolvable(Replica(t, a, note, id), id) {
      EveryReplicaResolves(on, id, |on| - 1, a, note);
    }
    forall i, c, note, q, b | IsHead(Last(run).log, i, c, note, q) && b in t.held
      ensures var g := Replica(t, b, note, id); HeadsStored(g) && Accounted(q, g)
    {
      HeadIsIndexed(t.log, i, c, note, q);
      NoHeadIsLost(on, id, |on| - 1, b, note, i, c, q);
    }
  }

  lemma HeadIsIndexed(log: seq<Change>, i: nat, c: ActorId, note: NoteId, q: RevisionId)
    requires IsHead(log, i, c, note, q)
    ensures i in All(log)
  {
    assert IsIndex(log, i);
  }

  // ----- Several authors ------------------------------------------------------------------------------

  /** A change of one author shows on no other replica before it is delivered. */
  lemma OthersUnaffected(s: System, s': System, c: Change, b: ActorId, note: NoteId, id: Identity)
    requires Inv(s, id) && b in s.held && b in s'.held
    requires s'.log == s.log + [c] && s'.held[b] == s.held[b]
    ensures Replica(s', b, note, id) == Replica(s, b, note, id)
  {
    assert Closed(s.log, s.held[b]);
    ViewIgnoresLater(s.log, c, |s.log|, s.held[b], note, id);
  }

  lemma CommitIsLocal(s: System, c: Course, a: ActorId, rev: NoteRevision, id: Identity, b: ActorId, note: NoteId)
    requires CollisionFree(id) && Ready(s, a, id) && IsCommit(s, c, a, rev, id) && b in s.held && b != a
    ensures b in c.done.held && c.done.progress[a] == Idle && c.done.held[b] == s.held[b]
    ensures c.done.held.Keys == s.held.Keys && c.done.progress.Keys == s.progress.Keys
    ensures b in s.progress ==> c.done.progress[b] == s.progress[b]
    ensures Replica(c.done, b, note, id) == Replica(s, b, note, id)
  {
    hide Inv, Resolvable, ViewUpTo;
    LoadKeepsInv(s, c.loaded, a, rev.noteId, id);
    PutKeepsInv(c.loaded, c.put, a, rev, id);
    OthersUnaffected(c.loaded, c.put, Change(a, PutRevision(rev), c.loaded.held[a]), b, note, id);
    var set' := SetHead(c.put.progress[a].note, c.put.progress[a].revision);
    OthersUnaffected(c.put, c.done, Change(a, set', c.put.held[a]), b, note, id);
  }

  ghost function Started(authors: set<ActorId>): System {
    System([], map a | a in authors :: {}, map a | a in authors :: Idle)
  }

  /** One author commits, and the other one, which had nothing, shows the revision once it arrives. */
  lemma OtherAuthorShows(a: ActorId, b: ActorId, rev: NoteRevision, id: Identity) returns (run: seq<System>)
    requires CollisionFree(id) && a != b && rev.authorId == a && id(rev).Some? && rev.predecessors == {}
    ensures IsRun(run, id) && |run| == 5 && a in run[4].held && b in run[3].held && b in run[4].held
    ensures Replica(run[3], b, rev.noteId, id) == EMPTY_GROUP
    ensures Replica(run[4], b, rev.noteId, id) == Committed(EMPTY_GROUP, a, id(rev).value, rev)
    ensures Resolved(Replica(run[4], b, rev.noteId, id))
         == Some(ResolvedNote(id(rev).value, if rev.deleted then None else Some(rev), None))
  {
    hide IsRun, Inv, IsCommit, Committed, Resolvable;
    var start := Started({a, b});
    NothingShown(start, a, rev.noteId, id);
    NothingShown(start, b, rev.noteId, id);
    var c := FirstCommitOf(start, a, rev, id);
    CommitIsLocal(start, c, a, rev, id, b, rev.noteId);
    run := [start, c.loaded, c.put, c.done];
    var s' := AllArrives(run, id, b, a);
    assert s'.held[b] == c.done.held[a];
    run := run + [s'];
    OnlyHeadShows(a, id(rev).value, rev);
  }

  lemma NothingShown(s: System, a: ActorId, note: NoteId, id: Identity)
    requires s.log == [] && a in s.held
    ensures Replica(s, a, note, id) == EMPTY_GROUP
  {
  }

  lemma OnlyHeadShows(a: ActorId, r: RevisionId, rev: NoteRevision)
    ensures HeadsStored(Committed(EMPTY_GROUP, a, r, rev))
    ensures Resolved(Committed(EMPTY_GROUP, a, r, rev))
         == Some(ResolvedNote(r, if rev.deleted then None else Some(rev), None))
  {
    var g := Committed(EMPTY_GROUP, a, r, rev);
    assert g.heads[a] == r && r in g.heads.Values;
    assert Concurrent(r, {r}, g.revisions) == {};
  }

  lemma FirstCommitOf(start: System, a: ActorId, rev: NoteRevision, id: Identity) returns (c: Course)
    requires CollisionFree(id) && Initial(start) && a in start.held
    requires rev.authorId == a && id(rev).Some? && rev.predecessors == {}
    ensures Ready(start, a, id) && IsCommit(start, c, a, rev, id) && Ready(c.done, a, id)
    ensures IsRun([start, c.loaded, c.put, c.done], id)
    ensures Replica(c.done, a, rev.noteId, id) == Committed(EMPTY_GROUP, a, id(rev).value, rev)
  {
    hide IsCommit, IsRun, Inv, ValidGraph;
    NothingShown(start, a, rev.noteId, id);
    InitialInv(start, id);
    c := CommitGoesThrough(start, a, rev, id);
    InitialIsRun(start, id);
    RunGoesOn([start], c, a, rev, id);
    assert [start] + [c.loaded, c.put, c.done] == [start, c.loaded, c.put, c.done];
  }

  lemma InitialIsRun(start: System, id: Identity)
    requires Initial(start)
    ensures IsRun([start], id)
  {
  }

  /** The records of a note that two authors have each committed to on their own. */
  function Twice(a: ActorId, r: RevisionId, left: NoteRevision, b: ActorId, q: RevisionId, right: NoteRevision): Group {
    Group(map[r := left, q := right], map[a := r, b := q])
  }

  lemma TwoSides(mine: Group, theirs: Group, after: Group, a: ActorId, r: RevisionId, left: NoteRevision, b: ActorId,
      q: RevisionId, right: NoteRevision)
    requires a != b && r != q
    requires mine == Committed(EMPTY_GROUP, a, r, left) && theirs == Committed(EMPTY_GROUP, b, q, right)
    requires after.revisions == mine.revisions + theirs.revisions && a in after.heads && b in after.heads
    requires forall c :: c in after.heads ==>
               || (c in mine.heads && after.heads[c] == mine.heads[c])
               || (c in theirs.heads && after.heads[c] == theirs.heads[c])
    ensures after == Twice(a, r, left, b, q, right)
  {
    assert after.heads == map[a := r, b := q];
    assert after.revisions == map[r := left, q := right];
  }

  /** The later revision wins, at equal timestamps the one with the greater identity, and the other
      one is reported. */
  ghost predicate ShowsBoth(g: Group, note: NoteId, r: RevisionId, left: NoteRevision, q: RevisionId,
      right: NoteRevision) {
    var leftWins := Before(right.hlc, left.hlc) || (left.hlc == right.hlc && Less(q, r));
    HeadsStored(g)
    && Resolved(g) == Some(if leftWins
                           then ResolvedNote(r, if left.deleted then None else Some(left), Some(Conflict(note, r, {q})))
                           else ResolvedNote(q, if right.deleted then None else Some(right),
                                             Some(Conflict(note, q, {r}))))
  }

  lemma TwoHeadsShow(a: ActorId, r: RevisionId, left: NoteRevision, b: ActorId, q: RevisionId, right: NoteRevision)
    requires a != b && r != q && left.noteId == right.noteId && left.predecessors == {} && right.predecessors == {}
    ensures ShowsBoth(Twice(a, r, left, b, q, right), left.noteId, r, left, q, right)
  {
    hide Before, Less;
    var g := Twice(a, r, left, b, q, right);
    assert g.heads[a] == r && g.heads[b] == q && g.heads.Values == {r, q};
    var revs := g.revisions;
    var w := Winner({r, q}, revs);
    OutranksIsStrictTotalOrder(r, q, r, revs);
    OutranksIsStrictTotalOrder(q, r, q, revs);
    RootHasNoAncestors(q, r, revs);
    RootHasNoAncestors(r, q, revs);
    assert Concurrent(w, {r, q}, revs) == if w == r then {q} else {r};
  }

  /** Two authors commit to the same note without knowing of each other, and then each receives what
      the other one has: both replicas show the same two revisions, the later one wins, and the other
      one is reported as concurrent. */
  lemma ConcurrentCommits(a: ActorId, left: NoteRevision, b: ActorId, right: NoteRevision, id: Identity)
      returns (run: seq<System>)
    requires CollisionFree(id) && a != b && left.authorId == a && right.authorId == b && left.noteId == right.noteId
    requires id(left).Some? && id(right).Some? && left.predecessors == {} && right.predecessors == {}
    ensures IsRun(run, id) && |run| == 9 && a in run[8].held && b in run[8].held
    ensures var g := Twice(a, id(left).value, left, b, id(right).value, right);
            && Replica(run[8], a, left.noteId, id) == g && Replica(run[8], b, left.noteId, id) == g
    ensures ShowsBoth(Twice(a, id(left).value, left, b, id(right).value, right), left.noteId,
                      id(left).value, left, id(right).value, right)
  {
    hide IsRun, Inv, IsCommit, Resolvable, ShowsBoth;
    var start, note := Started({a, b}), left.noteId;
    NothingShown(start, a, note, id);
    NothingShown(start, b, note, id);
    var c := FirstCommitOf(start, a, left, id);
    CommitIsLocal(start, c, a, left, id, b, note);
    var d := CommitGoesThrough(c.done, b, right, id);
    CommitIsLocal(c.done, d, b, right, id, a, note);
    run := [start, c.loaded, c.put, c.done];
    RunGoesOn(run, d, b, right, id);
    run := run + [d.loaded, d.put, d.done];
    assert Last(run) == d.done;
    var s' := DeliveryShows(run, id, a, b, note);
    run := run + [s'];
    var s'' := AllArrives(run, id, b, a);
    run := run + [s''];
    assert s''.held[a] == s''.held[b];
    TwoSides(Replica(d.done, a, note, id), Replica(d.done, b, note, id), Replica(s', a, note, id),
             a, id(left).value, left, b, id(right).value, right);
    TwoHeadsShow(a, id(left).value, left, b, id(right).value, right);
  }

  // ----- What arrives during a commit ------------------------------------------------------------------

  /** A commit that has loaded its note goes on whatever was delivered in the meantime: the revision joins
      what was loaded, it is stored on top of all that has arrived, and it is shown as winner or concurrent. */
  lemma LoadedCommitGoesOn(run: seq<System>, id: Identity, a: ActorId, rev: NoteRevision)
      returns (put: System, done: System)
    requires CollisionFree(id) && run != [] && IsRun(run, id)
    requires JoinsLoaded(rev, Last(run), a, id) && rev.authorId == a && id(rev).Some?
    ensures IsRun(run + [put, done], id) && a in done.held
    ensures var g := Replica(done, a, rev.noteId, id);
            && g == Committed(Replica(Last(run), a, rev.noteId, id), a, id(rev).value, rev)
            && HeadsStored(g) && Shown(id(rev).value, g)
  {
    hide IsRun, Inv, Replica, PutStep, HeadStep, Shown;
    RunKeepsInv(run, id, |run| - 1);
    put := PutLoaded(Last(run), a, rev, id);
    StepExtends(run, put, id);
    done := MoveHead(put, a, rev.noteId, id(rev).value, id);
    StepExtends(run + [put], done, id);
    assert run + [put] + [done] == run + [put, done];
    NoCommitHidden(run + [put, done], id, |run| + 1, a);
  }
}
