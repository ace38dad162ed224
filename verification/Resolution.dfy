/** Revision graphs: validation, ancestry search and conflict resolution. */
module Resolution {
  import opened Results
  import opened Strings
  import opened HybridClock
  import opened Sorting
  import opened FrontmatterValues

  type RevisionId = string
  type NoteId = string
  type ActorId = string

  datatype NoteRevision = NoteRevision(
    noteId: NoteId,
    frontmatter: Frontmatter,
    body: string,
    materializedPath: string,
    hlc: Hlc,
    authorId: ActorId,
    predecessors: set<RevisionId>,
    deleted: bool)

  datatype Head = Head(noteId: NoteId, authorId: ActorId, revisionId: RevisionId)

  datatype Conflict = Conflict(noteId: NoteId, winningRevision: RevisionId, concurrentRevisions: set<RevisionId>)

  datatype ResolvedNote = ResolvedNote(
    winningRevision: RevisionId,
    visible: Option<NoteRevision>,
    conflict: Option<Conflict>)

  type Revisions = map<RevisionId, NoteRevision>

  /** Content addressing: `None` for a revision that fails `validate`, otherwise the hash of
      its canonical bytes. */
  type Identity = NoteRevision -> Option<RevisionId>

  /** The hash never gives two revisions the same identity. */
  ghost predicate CollisionFree(id: Identity) {
    forall a, b :: id(a).Some? && id(a) == id(b) ==> a == b
  }

  // ----- Validation -------------------------------------------------------------------------

  datatype GraphError =
    | IdentityMismatch(revision: RevisionId)
    | MissingPredecessor(revision: RevisionId, predecessor: RevisionId)
    | CrossNotePredecessor(revision: RevisionId)

  predicate PredecessorsStored(revs: Revisions) {
    forall r, p :: r in revs && p in revs[r].predecessors ==> p in revs
  }

  ghost predicate GoodPredecessor(p: RevisionId, r: RevisionId, revs: Revisions) {
    r in revs && p in revs && revs[p].noteId == revs[r].noteId
  }

  ghost predicate GoodPredecessors(r: RevisionId, revs: Revisions) {
    r in revs && forall p :: p in revs[r].predecessors ==> GoodPredecessor(p, r, revs)
  }

  ghost predicate ValidGraph(revs: Revisions, id: Identity) {
    forall r :: r in revs ==> id(revs[r]) == Some(r) && GoodPredecessors(r, revs)
  }

  ghost predicate IsDefect(revs: Revisions, id: Identity, e: GraphError) {
    match e
    case IdentityMismatch(r) => r in revs && id(revs[r]) != Some(r)
    case MissingPredecessor(r, p) => r in revs && p in revs[r].predecessors && p !in revs
    case CrossNotePredecessor(r) =>
      r in revs && exists p :: p in revs[r].predecessors && p in revs && revs[p].noteId != revs[r].noteId
  }

  method CheckPredecessors(r: RevisionId, revs: Revisions) returns (result: Result<(), GraphError>)
    requires r in revs
    ensures result.Ok? <==> GoodPredecessors(r, revs)
    ensures result.Err? && result.error.MissingPredecessor? ==>
              result.error.revision == r && result.error.predecessor in revs[r].predecessors
              && result.error.predecessor !in revs
    ensures result.Err? && result.error.CrossNotePredecessor? ==>
              result.error.revision == r
              && exists p :: p in revs[r].predecessors && p in revs && revs[p].noteId != revs[r].noteId
    ensures result.Err? ==> !result.error.IdentityMismatch?
  {
    var predecessors := SortedKeys(revs[r].predecessors);
    for j := 0 to |predecessors|
      invariant forall k :: 0 <= k < j ==> GoodPredecessor(predecessors[k], r, revs)
    {
      var p := predecessors[j];
      assert p in revs[r].predecessors;
      if p !in revs {
        assert !GoodPredecessor(p, r, revs);
        return Err(MissingPredecessor(r, p));
      }
      if revs[p].noteId != revs[r].noteId {
        assert !GoodPredecessor(p, r, revs);
        return Err(CrossNotePredecessor(r));
      }
    }
    return Ok(());
  }

  /** Accepts exactly the valid graphs; a rejection names a revision that is really defective. */
  method ValidateRevisionGraph(revs: Revisions, id: Identity) returns (result: Result<(), GraphError>)
    ensures result.Ok? <==> ValidGraph(revs, id)
    ensures result.Err? ==> IsDefect(revs, id, result.error)
  {
    var ids := SortedKeys(revs.Keys);
    for i := 0 to |ids|
      invariant forall k :: 0 <= k < i ==> id(revs[ids[k]]) == Some(ids[k]) && GoodPredecessors(ids[k], revs)
    {
      if id(revs[ids[i]]) != Some(ids[i]) {
        return Err(IdentityMismatch(ids[i]));
      }
      var checked := CheckPredecessors(ids[i], revs);
      if checked.Err? {
        return checked;
      }
    }
    forall r | r in revs ensures id(revs[r]) == Some(r) && GoodPredecessors(r, revs) {
      var k :| 0 <= k < |ids| && ids[k] == r;
    }
    return Ok(());
  }

  // ----- Ancestry ---------------------------------------------------------------------------

  /** A chain of predecessor edges, each leaving a stored revision. */
  ghost predicate Chain(path: seq<RevisionId>, revs: Revisions) {
    forall i :: 0 <= i < |path| - 1 ==> path[i] in revs && path[i + 1] in revs[path[i]].predecessors
  }

  ghost predicate ChainBetween(path: seq<RevisionId>, descendant: RevisionId, ancestor: RevisionId, revs: Revisions) {
    |path| >= 2 && path[0] == descendant && path[|path| - 1] == ancestor && Chain(path, revs)
  }

  ghost predicate ProperAncestor(ancestor: RevisionId, descendant: RevisionId, revs: Revisions) {
    exists path :: ChainBetween(path, descendant, ancestor, revs)
  }

  /** Every identifier the search can meet. */
  function Mentioned(revs: Revisions, start: RevisionId): set<RevisionId> {
    {start} + revs.Keys + set r, p | r in revs && p in revs[r].predecessors :: p
  }

  ghost function Elements(s: seq<RevisionId>): set<RevisionId> {
    set q | q in s
  }

  /** No predecessor edge out of `seen` reaches `ancestor` or leaves `met`. */
  ghost predicate Avoids(r: RevisionId, met: set<RevisionId>, ancestor: RevisionId, revs: Revisions) {
    r in revs ==> ancestor !in revs[r].predecessors && revs[r].predecessors <= met
  }

  ghost predicate AvoidsAncestor(seen: set<RevisionId>, met: set<RevisionId>, ancestor: RevisionId, revs: Revisions) {
    forall r :: r in seen ==> Avoids(r, met, ancestor, revs)
  }

  lemma {:induction false} ClosedSetHasNoChain(seen: set<RevisionId>, ancestor: RevisionId, path: seq<RevisionId>,
      revs: Revisions)
    requires AvoidsAncestor(seen, seen, ancestor, revs)
    requires |path| >= 2 && path[0] in seen && Chain(path, revs)
    ensures path[|path| - 1] != ancestor
  {
    assert path[0] in revs && path[1] in revs[path[0]].predecessors;
    assert Avoids(path[0], seen, ancestor, revs);
    if |path| > 2 {
      var tail := path[1..];
      forall i | 0 <= i < |tail| - 1 ensures tail[i] in revs && tail[i + 1] in revs[tail[i]].predecessors {
        assert path[i + 1] in revs && path[i + 2] in revs[path[i + 1]].predecessors;
      }
      ClosedSetHasNoChain(seen, ancestor, tail, revs);
    }
  }

  ghost predicate Reached(q: RevisionId, start: RevisionId, revs: Revisions) {
    q == start || ProperAncestor(q, start, revs)
  }

  lemma ReachedStep(q: RevisionId, p: RevisionId, start: RevisionId, revs: Revisions)
    requires Reached(q, start, revs) && q in revs && p in revs[q].predecessors
    ensures ProperAncestor(p, start, revs)
  {
    if q == start {
      assert ChainBetween([start, p], start, p, revs);
    } else {
      var path :| ChainBetween(path, start, q, revs);
      assert ChainBetween(path + [p], start, p, revs);
    }
  }

  /** The inner loop of the search: push the predecessors of one revision, or find the target. */
  method PushPredecessors(current: RevisionId, target: RevisionId, stack: seq<RevisionId>, revs: Revisions)
    returns (found: bool, pending: seq<RevisionId>)
    requires current in revs
    ensures found <==> target in revs[current].predecessors
    ensures !found ==> Elements(pending) == Elements(stack) + revs[current].predecessors
  {
    pending := stack;
    var predecessors := SortedKeys(revs[current].predecessors);
    for j := 0 to |predecessors|
      invariant forall k :: 0 <= k < j ==> predecessors[k] != target && predecessors[k] in pending
      invariant forall q :: q in stack ==> q in pending
      invariant forall q :: q in pending ==> q in stack || q in revs[current].predecessors
    {
      if predecessors[j] == target {
        return true, pending;
      }
      pending := pending + [predecessors[j]];
    }
    return false, pending;
  }

  /** The worklist search decides proper ancestry on every finite map, cyclic or incomplete. */
  method IsAncestor(possibleAncestor: RevisionId, descendant: RevisionId, revs: Revisions) returns (found: bool)
    ensures found <==> ProperAncestor(possibleAncestor, descendant, revs)
  {
    var pending := [descendant];
    var visited: set<RevisionId> := {};
    ghost var universe := Mentioned(revs, descendant);
    while pending != []
      invariant visited + Elements(pending) <= universe
      invariant descendant in visited + Elements(pending)
      invariant AvoidsAncestor(visited, visited + Elements(pending), possibleAncestor, revs)
      invariant forall q :: q in Elements(pending) ==> Reached(q, descendant, revs)
      decreases universe - visited, |pending|
    {
      ghost var met := visited + Elements(pending);
      var current := pending[|pending| - 1];
      var rest := pending[..|pending| - 1];
      assert Elements(pending) == Elements(rest) + {current} by {
        assert pending == rest + [current];
      }
      if current in visited {
        pending := rest;
        assert visited + Elements(pending) == met;
        continue;
      }
      if current !in revs {
        visited, pending := visited + {current}, rest;
        assert visited + Elements(pending) == met;
        continue;
      }
      found, pending := PushPredecessors(current, possibleAncestor, rest, revs);
      if found {
        ReachedStep(current, possibleAncestor, descendant, revs);
        return true;
      }
      forall q | q in revs[current].predecessors ensures Reached(q, descendant, revs) {
        ReachedStep(current, q, descendant, revs);
      }
      visited := visited + {current};
      assert met <= visited + Elements(pending);
    }
    assert visited + Elements(pending) == visited;
    forall path | ChainBetween(path, descendant, possibleAncestor, revs) ensures false {
      ClosedSetHasNoChain(visited, possibleAncestor, path, revs);
    }
    return false;
  }

  // ----- The winner ---------------------------------------------------------------------------

  datatype Candidate = Candidate(id: RevisionId, revision: NoteRevision)

  /** The comparison the candidates are sorted by: timestamp, then revision identity. */
  predicate RankedAtMost(a: Candidate, b: Candidate) {
    || Before(a.revision.hlc, b.revision.hlc)
    || (a.revision.hlc == b.revision.hlc && (a.id == b.id || Less(a.id, b.id)))
  }

  lemma RankIsTotalPreorder()
    ensures TotalPreorder(RankedAtMost)
  {
    forall a, b ensures RankedAtMost(a, b) || RankedAtMost(b, a) {
      BeforeIsStrictTotalOrder(a.revision.hlc, b.revision.hlc, a.revision.hlc);
      LessTotal(a.id, b.id);
    }
    forall a, b, c | RankedAtMost(a, b) && RankedAtMost(b, c) ensures RankedAtMost(a, c) {
      BeforeIsStrictTotalOrder(a.revision.hlc, b.revision.hlc, c.revision.hlc);
      if Less(a.id, b.id) && Less(b.id, c.id) {
        LessTransitive(a.id, b.id, c.id);
      }
    }
  }

  predicate Outranks(w: RevisionId, c: RevisionId, revs: Revisions)
    requires w in revs && c in revs
  {
    Before(revs[c].hlc, revs[w].hlc) || (revs[c].hlc == revs[w].hlc && Less(c, w))
  }

  lemma OutranksIsStrictTotalOrder(a: RevisionId, b: RevisionId, c: RevisionId, revs: Revisions)
    requires a in revs && b in revs && c in revs
    ensures !Outranks(a, a, revs)
    ensures Outranks(a, b, revs) && Outranks(b, c, revs) ==> Outranks(a, c, revs)
    ensures Outranks(a, b, revs) || Outranks(b, a, revs) || a == b
  {
    BeforeIsStrictTotalOrder(revs[c].hlc, revs[b].hlc, revs[a].hlc);
    BeforeIsStrictTotalOrder(revs[a].hlc, revs[b].hlc, revs[a].hlc);
    LessIrreflexive(a);
    LessTotal(a, b);
    if Less(c, b) && Less(b, a) {
      LessTransitive(c, b, a);
    }
  }

  ghost predicate IsWinner(w: RevisionId, candidates: set<RevisionId>, revs: Revisions)
    requires candidates <= revs.Keys
  {
    w in candidates && forall c :: c in candidates && c != w ==> Outranks(w, c, revs)
  }

  lemma WinnerUnique(v: RevisionId, w: RevisionId, candidates: set<RevisionId>, revs: Revisions)
    requires candidates <= revs.Keys
    requires IsWinner(v, candidates, revs) && IsWinner(w, candidates, revs)
    ensures v == w
  {
    OutranksIsStrictTotalOrder(v, w, v, revs);
  }

  lemma {:induction false} WinnerExists(candidates: set<RevisionId>, revs: Revisions)
    requires candidates != {} && candidates <= revs.Keys
    ensures exists w :: IsWinner(w, candidates, revs)
    decreases |candidates|
  {
    var x :| x in candidates;
    if candidates == {x} {
      assert IsWinner(x, candidates, revs);
    } else {
      WinnerExists(candidates - {x}, revs);
      var w :| IsWinner(w, candidates - {x}, revs);
      OutranksIsStrictTotalOrder(x, w, x, revs);
      if Outranks(x, w, revs) {
        forall c | c in candidates && c != x ensures Outranks(x, c, revs) {
          OutranksIsStrictTotalOrder(x, w, c, revs);
        }
        assert IsWinner(x, candidates, revs);
      } else {
        assert IsWinner(w, candidates, revs);
      }
    }
  }

  ghost function Winner(candidates: set<RevisionId>, revs: Revisions): (w: RevisionId)
    requires candidates != {} && candidates <= revs.Keys
    ensures IsWinner(w, candidates, revs)
  {
    WinnerExists(candidates, revs);
    var w :| IsWinner(w, candidates, revs);
    w
  }

  // ----- Resolution -----------------------------------------------------------------------------

  predicate Matches(head: Head, revs: Revisions) {
    head.revisionId in revs && head.noteId == revs[head.revisionId].noteId
  }

  /** The revisions asserted by heads that name a stored revision of their own note. */
  ghost function Matching(revs: Revisions, heads: seq<Head>): (candidates: set<RevisionId>)
    ensures candidates <= revs.Keys
  {
    set h | h in heads && Matches(h, revs) :: h.revisionId
  }

  ghost function Concurrent(w: RevisionId, candidates: set<RevisionId>, revs: Revisions): set<RevisionId> {
    set c | c in candidates && c != w && !ProperAncestor(c, w, revs)
  }

  /** The whole result as a function of the set of asserted revisions. */
  ghost function Resolve(candidates: set<RevisionId>, revs: Revisions): Option<ResolvedNote>
    requires candidates <= revs.Keys
  {
    if candidates == {} then None
    else
      var w := Winner(candidates, revs);
      var concurrent := Concurrent(w, candidates, revs);
      Some(ResolvedNote(
             w,
             if revs[w].deleted then None else Some(revs[w]),
             if concurrent == {} then None else Some(Conflict(revs[w].noteId, w, concurrent))))
  }

  /** A list of candidates presents a set of revisions: these and no others. */
  ghost predicate Presents(candidates: seq<Candidate>, ids: set<RevisionId>, revs: Revisions) {
    && (forall c :: c in candidates ==> c.id in ids && c.id in revs && c.revision == revs[c.id])
    && (forall r :: r in ids ==> r in revs && Candidate(r, revs[r]) in candidates)
  }

  method SelectCandidates(revs: Revisions, heads: seq<Head>) returns (candidates: seq<Candidate>)
    ensures Presents(candidates, Matching(revs, heads), revs)
  {
    candidates := [];
    for i := 0 to |heads|
      invariant forall c :: c in candidates ==> c.id in Matching(revs, heads) && c.revision == revs[c.id]
      invariant forall k :: 0 <= k < i && Matches(heads[k], revs) ==>
                  Candidate(heads[k].revisionId, revs[heads[k].revisionId]) in candidates
    {
      if Matches(heads[i], revs) {
        candidates := candidates + [Candidate(heads[i].revisionId, revs[heads[i].revisionId])];
      }
    }
  }

  lemma PresentedIds(candidates: seq<Candidate>, ids: set<RevisionId>, revs: Revisions)
    requires Presents(candidates, ids, revs)
    ensures (set c | c in candidates :: c.id) == ids
    ensures candidates == [] <==> ids == {}
  {
    forall r | r in ids ensures r in (set c | c in candidates :: c.id) {
      assert Candidate(r, revs[r]).id == r;
    }
    if candidates != [] {
      assert candidates[0] in candidates;
    }
  }

  lemma LastWins(ranked: seq<Candidate>, ids: set<RevisionId>, revs: Revisions)
    requires ranked != [] && Presents(ranked, ids, revs) && Sorted(ranked, RankedAtMost) && ids <= revs.Keys
    ensures var last := ranked[|ranked| - 1]; last.revision == revs[last.id] && IsWinner(last.id, ids, revs)
  {
    hide Before, Less;
    var last := ranked[|ranked| - 1];
    assert last in ranked;
    forall c | c in ids && c != last.id ensures Outranks(last.id, c, revs) {
      var k :| 0 <= k < |ranked| && ranked[k] == Candidate(c, revs[c]);
      assert RankedAtMost(ranked[k], last);
    }
  }

  lemma SortedPresents(candidates: seq<Candidate>, ids: set<RevisionId>, revs: Revisions)
    requires Presents(candidates, ids, revs)
    ensures var ranked := SortBy(candidates, RankedAtMost); Presents(ranked, ids, revs) && Sorted(ranked, RankedAtMost)
  {
    hide RankedAtMost, SortBy, Before, Less;
    RankIsTotalPreorder();
    SortBySorted(candidates, RankedAtMost);
    SameElements(candidates, SortBy(candidates, RankedAtMost));
  }

  method CollectConcurrent(w: RevisionId, candidates: seq<Candidate>, revs: Revisions) returns (found: set<RevisionId>)
    ensures found == Concurrent(w, set c | c in candidates :: c.id, revs)
  {
    found := {};
    for i := 0 to |candidates|
      invariant forall c :: c in found <==>
                  exists k :: 0 <= k < i && candidates[k].id == c && c != w && !ProperAncestor(c, w, revs)
    {
      if candidates[i].id != w {
        var ancestor := IsAncestor(candidates[i].id, w, revs);
        if !ancestor {
          found := found + {candidates[i].id};
        }
      }
    }
  }

  /** Convergence: the winner, the visible revision and the conflict set are a function of the
      set of matching heads, whatever the order and the repetitions of the list. */
  method ResolveHeads(revs: Revisions, heads: seq<Head>) returns (resolved: Option<ResolvedNote>)
    ensures resolved == Resolve(Matching(revs, heads), revs)
  {
    hide IsWinner, Presents, RankedAtMost, Matching;
    var candidates := SelectCandidates(revs, heads);
    ghost var ids := Matching(revs, heads);
    var ranked := SortBy(candidates, RankedAtMost);
    SortedPresents(candidates, ids, revs);
    PresentedIds(ranked, ids, revs);
    if ranked == [] {
      return None;
    }
    var last := ranked[|ranked| - 1];
    LastWins(ranked, ids, revs);
    WinnerUnique(last.id, Winner(ids, revs), ids, revs);
    var concurrent := CollectConcurrent(last.id, ranked, revs);
    var conflict := if concurrent == {} then None else Some(Conflict(last.revision.noteId, last.id, concurrent));
    return Some(ResolvedNote(last.id, if last.revision.deleted then None else Some(last.revision), conflict));
  }

  // ----- Acyclic graphs ---------------------------------------------------------------------------

  /** A ranking under which every stored predecessor is strictly older. */
  ghost predicate Ranked(revs: Revisions, rank: map<RevisionId, nat>) {
    && revs.Keys <= rank.Keys
    && (forall r, p :: r in revs && p in revs[r].predecessors && p in revs ==> rank[p] < rank[r])
  }

  lemma {:induction false} ChainDescends(path: seq<RevisionId>, revs: Revisions, rank: map<RevisionId, nat>)
    requires Ranked(revs, rank) && |path| >= 2 && Chain(path, revs) && path[|path| - 1] in revs
    ensures path[0] in revs && rank[path[|path| - 1]] < rank[path[0]]
  {
    assert path[0] in revs && path[1] in revs[path[0]].predecessors;
    if |path| > 2 {
      var tail := path[1..];
      forall i | 0 <= i < |tail| - 1 ensures tail[i] in revs && tail[i + 1] in revs[tail[i]].predecessors {
        assert path[i + 1] in revs && path[i + 2] in revs[path[i + 1]].predecessors;
      }
      ChainDescends(tail, revs, rank);
    }
  }

  lemma AncestorsAreOlder(a: RevisionId, d: RevisionId, revs: Revisions, rank: map<RevisionId, nat>)
    requires Ranked(revs, rank) && a in revs && ProperAncestor(a, d, revs)
    ensures d in revs && rank[a] < rank[d]
  {
    var path :| ChainBetween(path, d, a, revs);
    ChainDescends(path, revs, rank);
  }

  lemma AncestorTransitive(a: RevisionId, b: RevisionId, c: RevisionId, revs: Revisions)
    requires ProperAncestor(a, b, revs) && ProperAncestor(b, c, revs)
    ensures ProperAncestor(a, c, revs)
  {
    var upper :| ChainBetween(upper, b, a, revs);
    var lower :| ChainBetween(lower, c, b, revs);
    var path := lower + upper[1..];
    forall i | 0 <= i < |path| - 1 ensures path[i] in revs && path[i + 1] in revs[path[i]].predecessors {
      if i < |lower| - 1 {
        assert lower[i] in revs && lower[i + 1] in revs[lower[i]].predecessors;
      } else {
        var j := i - (|lower| - 1);
        assert upper[j] in revs && upper[j + 1] in revs[upper[j]].predecessors;
        assert path[i] == upper[j] && path[i + 1] == upper[j + 1];
      }
    }
    assert ChainBetween(path, c, a, revs);
  }

  /** Each asserted revision is exactly one of winner, proper ancestor of the winner, concurrent. */
  lemma Trichotomy(candidates: set<RevisionId>, revs: Revisions, rank: map<RevisionId, nat>, c: RevisionId)
    requires candidates <= revs.Keys && Ranked(revs, rank) && c in candidates
    ensures var r := Resolve(candidates, revs).value;
            var concurrent := if r.conflict.Some? then r.conflict.value.concurrentRevisions else {};
            var isWinner, isAncestor, isConcurrent :=
              c == r.winningRevision, ProperAncestor(c, r.winningRevision, revs), c in concurrent;
            && (isWinner || isAncestor || isConcurrent)
            && !(isWinner && isAncestor) && !(isWinner && isConcurrent) && !(isAncestor && isConcurrent)
  {
    var w := Winner(candidates, revs);
    if ProperAncestor(w, w, revs) {
      AncestorsAreOlder(w, w, revs, rank);
    }
  }

  // ----- The same in terms of the records --------------------------------------------------------------

  /** A graph is valid when every revision is stored under its content address and joins only stored
      revisions of its own note. */
  lemma ValidGraphExactly(revs: Revisions, id: Identity)
    ensures ValidGraph(revs, id) <==>
            forall r :: r in revs ==>
              && id(revs[r]) == Some(r)
              && forall p :: p in revs[r].predecessors ==> p in revs && revs[p].noteId == revs[r].noteId
  {
    if ValidGraph(revs, id) {
      forall r, p | r in revs && p in revs[r].predecessors ensures p in revs && revs[p].noteId == revs[r].noteId {
        assert GoodPredecessors(r, revs) && GoodPredecessor(p, r, revs);
      }
    }
  }

  /** A head counts when it names a stored revision of the note it is a head of. */
  lemma MatchingExactly(revs: Revisions, heads: seq<Head>, r: RevisionId)
    ensures r in Matching(revs, heads)
            <==> r in revs && exists author :: Head(revs[r].noteId, author, r) in heads
  {
    if r in Matching(revs, heads) {
      var h :| h in heads && Matches(h, revs) && h.revisionId == r;
      assert h == Head(revs[r].noteId, h.authorId, r);
    }
    if r in revs && exists author :: Head(revs[r].noteId, author, r) in heads {
      var author :| Head(revs[r].noteId, author, r) in heads;
      assert Matches(Head(revs[r].noteId, author, r), revs);
    }
  }

  /** The winner is not earlier than any other candidate, and at the same timestamp it has the greatest
      identity. */
  lemma WinnerIsLatest(w: RevisionId, candidates: set<RevisionId>, revs: Revisions)
    requires candidates <= revs.Keys
    ensures IsWinner(w, candidates, revs) <==>
            && w in candidates
            && forall c :: c in candidates && c != w ==>
                 !Before(revs[w].hlc, revs[c].hlc) && (revs[w].hlc == revs[c].hlc ==> Less(c, w))
  {
    hide Before, Less;
    forall c | c in candidates && w in candidates && c != w
      ensures Outranks(w, c, revs)
              <==> !Before(revs[w].hlc, revs[c].hlc) && (revs[w].hlc == revs[c].hlc ==> Less(c, w))
    {
      BeforeIsStrictTotalOrder(revs[w].hlc, revs[c].hlc, revs[w].hlc);
    }
  }

  // ----- What the conflict set says about current revisions ---------------------------------------

  /** Another asserted revision descends from this one. */
  ghost predicate Superseded(c: RevisionId, candidates: set<RevisionId>, revs: Revisions) {
    exists h :: h in candidates && ProperAncestor(c, h, revs)
  }

  ghost function Reported(candidates: set<RevisionId>, revs: Revisions): set<RevisionId>
    requires candidates != {} && candidates <= revs.Keys
  {
    var w := Winner(candidates, revs);
    {w} + Concurrent(w, candidates, revs)
  }

  /** Every current revision is shown. The shown ones are exactly the current ones if and only if the
      winner descends from every asserted revision that another asserted one descends from; only the
      history of the winner is dropped, so anything else that was already joined stays in the conflict. */
  lemma ShownAreCurrentExactly(candidates: set<RevisionId>, revs: Revisions, rank: map<RevisionId, nat>)
    requires candidates != {} && candidates <= revs.Keys && Ranked(revs, rank)
    ensures var current := set c | c in candidates && !Superseded(c, candidates, revs);
            && current <= Reported(candidates, revs)
            && (Reported(candidates, revs) == current
                <==> forall c, h :: c in candidates && h in candidates && ProperAncestor(c, h, revs) ==>
                       ProperAncestor(c, Winner(candidates, revs), revs))
  {
    hide ProperAncestor, Ranked;
    var w := Winner(candidates, revs);
    if ProperAncestor(w, w, revs) {
      AncestorsAreOlder(w, w, revs, rank);
    }
    if forall c, h :: c in candidates && h in candidates && ProperAncestor(c, h, revs) ==> ProperAncestor(c, w, revs) {
      forall c | c in Reported(candidates, revs) ensures !Superseded(c, candidates, revs) {
        assert !ProperAncestor(c, w, revs);
      }
    }
    if Reported(candidates, revs) == (set c | c in candidates && !Superseded(c, candidates, revs)) {
      forall c, h | c in candidates && h in candidates && ProperAncestor(c, h, revs)
        ensures ProperAncestor(c, w, revs)
      {
        assert Superseded(c, candidates, revs) && c !in Reported(candidates, revs);
      }
    }
  }

  /** A revision that is reported although another head joined it is reported together with that head. */
  lemma JoinIsReportedToo(c: RevisionId, h: RevisionId, w: RevisionId, candidates: set<RevisionId>, revs: Revisions)
    requires c in Concurrent(w, candidates, revs) && h in candidates && ProperAncestor(c, h, revs)
    ensures h in Concurrent(w, candidates, revs)
  {
    hide ProperAncestor;
    if ProperAncestor(h, w, revs) {
      AncestorTransitive(c, h, w, revs);
    }
  }

  lemma RootHasNoAncestors(a: RevisionId, d: RevisionId, revs: Revisions)
    requires d in revs && revs[d].predecessors == {}
    ensures !ProperAncestor(a, d, revs)
  {
    forall path ensures !ChainBetween(path, d, a, revs) {
      if |path| >= 2 && path[0] == d {
        assert path[1] !in revs[path[0]].predecessors;
      }
    }
  }

  /** A concrete case: one head joins another and a third, unrelated one is later than both. The third
      wins, and the joined head is reported next to the one that joined it. */
  lemma JoinedHeadIsReported(q: RevisionId, h: RevisionId, x: RevisionId, revs: Revisions)
    requires q != h && q != x && h != x && revs.Keys == {q, h, x}
    requires revs[q].predecessors == {} && revs[h].predecessors == {q} && revs[x].predecessors == {}
    requires Before(revs[q].hlc, revs[x].hlc) && Before(revs[h].hlc, revs[x].hlc)
    ensures Superseded(q, {q, h, x}, revs)
    ensures var r := Resolve({q, h, x}, revs).value;
            r.winningRevision == x && r.conflict == Some(Conflict(revs[x].noteId, x, {q, h}))
  {
    hide Before;
    assert ChainBetween([h, q], h, q, revs);
    assert IsWinner(x, {q, h, x}, revs);
    WinnerUnique(x, Winner({q, h, x}, revs), {q, h, x}, revs);
    RootHasNoAncestors(q, x, revs);
    RootHasNoAncestors(h, x, revs);
    assert Concurrent(x, {q, h, x}, revs) == {q, h};
  }
}
