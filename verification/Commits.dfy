/** What one commit does to one note: the join of every visible head under a new revision. */
module Commits {
  import opened Results
  import opened HybridClock
  import opened Resolution

  /** The records of one note: immutable revisions and one head per author. */
  datatype Group = Group(revisions: Revisions, heads: map<ActorId, RevisionId>)

  const EMPTY_GROUP := Group(map[], map[])

  predicate HeadsStored(g: Group) {
    forall a :: a in g.heads ==> g.heads[a] in g.revisions
  }

  predicate OneNote(g: Group, note: NoteId) {
    forall r :: r in g.revisions ==> g.revisions[r].noteId == note
  }

  ghost predicate Healthy(g: Group, note: NoteId, rank: map<RevisionId, nat>) {
    HeadsStored(g) && OneNote(g, note) && PredecessorsStored(g.revisions) && Ranked(g.revisions, rank)
  }

  ghost function Resolved(g: Group): Option<ResolvedNote>
    requires HeadsStored(g)
  {
    assert g.heads.Values <= g.revisions.Keys;
    Resolve(g.heads.Values, g.revisions)
  }

  /** The predecessors every commit path gives a new revision. */
  function JoinPredecessors(resolved: Option<ResolvedNote>): set<RevisionId> {
    match resolved
    case None => {}
    case Some(r) =>
      {r.winningRevision} + if r.conflict.Some? then r.conflict.value.concurrentRevisions else {}
  }

  function Committed(g: Group, author: ActorId, r: RevisionId, rev: NoteRevision): Group {
    Group(g.revisions[r := rev], g.heads[author := r])
  }

  /** The revision is stored and its author's head is not moved: a commit that broke off there. */
  function Pending(g: Group, r: RevisionId, rev: NoteRevision): Group {
    g.(revisions := g.revisions[r := rev])
  }

  // ----- Growth -----------------------------------------------------------------------------

  ghost predicate Extends(old': Revisions, new': Revisions) {
    forall r :: r in old' ==> r in new' && new'[r] == old'[r]
  }

  lemma AncestorSurvives(a: RevisionId, d: RevisionId, old': Revisions, new': Revisions)
    requires Extends(old', new') && ProperAncestor(a, d, old')
    ensures ProperAncestor(a, d, new')
  {
    var path :| ChainBetween(path, d, a, old');
    assert ChainBetween(path, d, a, new');
  }

  lemma NoNewAncestors(a: RevisionId, d: RevisionId, old': Revisions, new': Revisions)
    requires Extends(old', new') && PredecessorsStored(old') && d in old' && ProperAncestor(a, d, new')
    ensures ProperAncestor(a, d, old')
  {
    var path :| ChainBetween(path, d, a, new');
    for i := 0 to |path|
      invariant forall k :: 0 <= k <= i && k < |path| ==> path[k] in old'
    {
      if i + 1 < |path| {
        assert path[i + 1] in old'[path[i]].predecessors;
      }
    }
    assert ChainBetween(path, d, a, old');
  }

  /** What resolution shows does not change when revisions are stored that no head asserts. */
  lemma GrowthKeepsResolution(heads: set<RevisionId>, old': Revisions, new': Revisions)
    requires heads <= old'.Keys && Extends(old', new') && PredecessorsStored(old')
    ensures Resolve(heads, new') == Resolve(heads, old')
  {
    hide PredecessorsStored, ProperAncestor;
    if heads != {} {
      var w := Winner(heads, old');
      WinnerUnique(w, Winner(heads, new'), heads, old');
      forall c | c in heads ensures ProperAncestor(c, w, new') <==> ProperAncestor(c, w, old') {
        if ProperAncestor(c, w, old') { AncestorSurvives(c, w, old', new'); }
        if ProperAncestor(c, w, new') { NoNewAncestors(c, w, old', new'); }
      }
      assert Concurrent(w, heads, new') == Concurrent(w, heads, old');
    }
  }

  lemma {:induction false} RankBound(ranks: set<nat>) returns (bound: nat)
    ensures forall n :: n in ranks ==> n < bound
    decreases |ranks|
  {
    bound := 0;
    if ranks != {} {
      var n :| n in ranks;
      var b := RankBound(ranks - {n});
      bound := if n < b then b else n + 1;
      forall m | m in ranks ensures m < bound {
        assert m == n || m in ranks - {n};
      }
    }
  }

  lemma CommitKeepsHealthy(g: Group, note: NoteId, rank: map<RevisionId, nat>, author: ActorId, r: RevisionId,
      rev: NoteRevision)
    returns (rank': map<RevisionId, nat>)
    requires Healthy(g, note, rank) && rev.noteId == note && rev.predecessors <= g.revisions.Keys
    requires r in g.revisions ==> g.revisions[r] == rev
    ensures Healthy(Committed(g, author, r, rev), note, rank')
  {
    if r in g.revisions {
      rank' := rank;
      assert g.revisions[r := rev] == g.revisions;
    } else {
      var bound := RankBound(rank.Values);
      rank' := rank[r := bound];
      forall p | p in rev.predecessors ensures p != r && rank[p] < bound {
        assert rank[p] in rank.Values;
      }
    }
  }

  // ----- The outcome of a commit ----------------------------------------------------------------

  lemma JoinIsStored(g: Group)
    requires HeadsStored(g)
    ensures JoinPredecessors(Resolved(g)) <= g.revisions.Keys
  {
  }

  /** A revision that joins a note descends from every head the note had. */
  lemma JoinDescendsFromHeads(g: Group, r: RevisionId, revs: Revisions, h: RevisionId)
    requires HeadsStored(g) && Extends(g.revisions, revs)
    requires r in revs && revs[r].predecessors == JoinPredecessors(Resolved(g))
    requires h in g.heads.Values
    ensures ProperAncestor(h, r, revs)
  {
    var w := Winner(g.heads.Values, g.revisions);
    assert ChainBetween([r, w], r, w, revs);
    if h != w {
      if ProperAncestor(h, w, g.revisions) {
        AncestorSurvives(h, w, g.revisions, revs);
        AncestorTransitive(h, w, r, revs);
      } else {
        assert h in Concurrent(w, g.heads.Values, g.revisions);
        assert ChainBetween([r, h], r, h, revs);
      }
    }
  }

  ghost predicate BeatsOtherHeads(g: Group, author: ActorId, r: RevisionId, rev: NoteRevision)
    requires HeadsStored(g)
  {
    forall b :: b in g.heads && b != author && g.heads[b] != r ==> Outranks(r, g.heads[b], g.revisions[r := rev])
  }

  /** The conditions of one commit: a join of everything visible, content addressed. */
  ghost predicate JoiningCommit(g: Group, note: NoteId, rank: map<RevisionId, nat>, r: RevisionId, rev: NoteRevision) {
    && Healthy(g, note, rank)
    && rev.noteId == note
    && rev.predecessors == JoinPredecessors(Resolved(g))
    && (r in g.revisions ==> g.revisions[r] == rev)
  }

  /** Every commit path is of this kind: the revision joins what was resolved, and is stored under
      its content address. */
  lemma ContentAddressedJoin(g: Group, note: NoteId, rank: map<RevisionId, nat>, r: RevisionId, rev: NoteRevision,
      id: Identity)
    requires CollisionFree(id) && ValidGraph(g.revisions, id) && Healthy(g, note, rank)
    requires rev.noteId == note && rev.predecessors == JoinPredecessors(Resolved(g)) && id(rev) == Some(r)
    ensures JoiningCommit(g, note, rank, r, rev)
  {
    if r in g.revisions {
      assert id(g.revisions[r]) == id(rev);
    }
  }

  lemma OtherHeadsAreAncestors(g: Group, note: NoteId, rank: map<RevisionId, nat>, author: ActorId, r: RevisionId,
      rev: NoteRevision)
    requires JoiningCommit(g, note, rank, r, rev)
    ensures var g' := Committed(g, author, r, rev);
            forall h :: h in g'.heads.Values && h != r ==> ProperAncestor(h, r, g'.revisions)
  {
    var g' := Committed(g, author, r, rev);
    forall h | h in g'.heads.Values && h != r ensures ProperAncestor(h, r, g'.revisions) {
      JoinDescendsFromHeads(g, r, g'.revisions, h);
    }
  }

  lemma HeadsDoNotDescend(g: Group, note: NoteId, rank: map<RevisionId, nat>, author: ActorId, r: RevisionId,
      rev: NoteRevision, h: RevisionId)
    requires JoiningCommit(g, note, rank, r, rev)
    requires ProperAncestor(h, r, Committed(g, author, r, rev).revisions)
    ensures !ProperAncestor(r, h, Committed(g, author, r, rev).revisions)
  {
    var revs := Committed(g, author, r, rev).revisions;
    JoinIsStored(g);
    var rank' := CommitKeepsHealthy(g, note, rank, author, r, rev);
    if ProperAncestor(r, h, revs) {
      AncestorTransitive(r, h, r, revs);
      AncestorsAreOlder(r, r, revs, rank');
    }
  }

  lemma WinsExactlyWhenBest(g: Group, note: NoteId, rank: map<RevisionId, nat>, author: ActorId, r: RevisionId,
      rev: NoteRevision)
    requires JoiningCommit(g, note, rank, r, rev)
    ensures var g' := Committed(g, author, r, rev);
            && HeadsStored(g') && g'.heads.Values <= g'.revisions.Keys && r in g'.heads.Values
            && (IsWinner(r, g'.heads.Values, g'.revisions) <==> BeatsOtherHeads(g, author, r, rev))
  {
    var g' := Committed(g, author, r, rev);
    assert g'.heads[author] == r;
    if BeatsOtherHeads(g, author, r, rev) {
      forall c | c in g'.heads.Values && c != r ensures Outranks(r, c, g'.revisions) {
        var b :| b in g'.heads && g'.heads[b] == c;
        assert b in g.heads && g.heads[b] == c;
      }
    }
    if IsWinner(r, g'.heads.Values, g'.revisions) {
      forall b | b in g.heads && b != author && g.heads[b] != r ensures Outranks(r, g.heads[b], g'.revisions) {
        assert g'.heads[b] in g'.heads.Values;
      }
    }
  }

  /** The outcome of any commit on any healthy note, with no assumption about clocks. If the new
      revision outranks the heads of the other authors it wins with nothing left in conflict;
      otherwise, however far the author's clock lags, it is reported as concurrent. It is
      never hidden behind the winner. */
  lemma CommitOutcome(g: Group, note: NoteId, rank: map<RevisionId, nat>, author: ActorId, r: RevisionId,
      rev: NoteRevision)
    requires JoiningCommit(g, note, rank, r, rev)
    ensures HeadsStored(Committed(g, author, r, rev))
    ensures var after := Resolved(Committed(g, author, r, rev));
            && after.Some?
            && (after.value.winningRevision == r <==> BeatsOtherHeads(g, author, r, rev))
            && (after.value.winningRevision == r ==>
                  after.value.conflict == None && after.value.visible == if rev.deleted then None else Some(rev))
            && (after.value.winningRevision != r ==>
                  after.value.conflict.Some? && r in after.value.conflict.value.concurrentRevisions)
  {
    var g' := Committed(g, author, r, rev);
    WinsExactlyWhenBest(g, note, rank, author, r, rev);
    OtherHeadsAreAncestors(g, note, rank, author, r, rev);
    var heads, revs := g'.heads.Values, g'.revisions;
    var w := Winner(heads, revs);
    if IsWinner(r, heads, revs) {
      WinnerUnique(r, w, heads, revs);
      assert Concurrent(r, heads, revs) == {};
    } else {
      HeadsDoNotDescend(g, note, rank, author, r, rev, w);
      assert r in Concurrent(w, heads, revs);
    }
  }

  // ----- Commits that break off ---------------------------------------------------------------------

  /** A commit that breaks off between its two writes keeps the records in order and shows nothing: the
      note resolves as before, so the next commit joins the same revisions. */
  lemma PendingShowsNothing(g: Group, note: NoteId, rank: map<RevisionId, nat>, r: RevisionId, rev: NoteRevision)
      returns (rank': map<RevisionId, nat>)
    requires JoiningCommit(g, note, rank, r, rev)
    ensures Healthy(Pending(g, r, rev), note, rank')
    ensures Resolved(Pending(g, r, rev)) == Resolved(g)
  {
    JoinIsStored(g);
    rank' := CommitKeepsHealthy(g, note, rank, rev.authorId, r, rev);
    GrowthKeepsResolution(g.heads.Values, g.revisions, Pending(g, r, rev).revisions);
  }

  // ----- Commits stamped after everything stored ------------------------------------------------

  ghost predicate StampsBelow(g: Group, stamp: Hlc) {
    forall r :: r in g.revisions ==> Before(g.revisions[r].hlc, stamp)
  }

  lemma LateCommitWins(g: Group, note: NoteId, rank: map<RevisionId, nat>, author: ActorId, r: RevisionId,
      rev: NoteRevision)
    requires JoiningCommit(g, note, rank, r, rev) && StampsBelow(g, rev.hlc)
    ensures HeadsStored(Committed(g, author, r, rev))
    ensures Resolved(Committed(g, author, r, rev))
         == Some(ResolvedNote(r, if rev.deleted then None else Some(rev), None))
  {
    BeforeIsStrictTotalOrder(rev.hlc, rev.hlc, rev.hlc);
    CommitOutcome(g, note, rank, author, r, rev);
  }
}
