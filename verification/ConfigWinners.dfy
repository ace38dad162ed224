/** Which configuration record wins for each path, on the native and on the browser side. */
module ConfigWinners {
  import opened Integers
  import opened Results
  import opened Strings
  import opened HybridClock
  import opened Resolution

  datatype ConfigRevision = ConfigRevision(
    path: string,
    blobHash: string,
    size: nat,
    hlc: Hlc,
    authorId: ActorId,
    predecessors: set<RevisionId>)

  datatype ConfigEntry = ConfigEntry(key: string, author: ActorId, record: ConfigRevision)

  datatype ProjectedConfig = ProjectedConfig(revisionId: RevisionId, record: ConfigRevision, bytes: Bytes)

  /** What the stores agree on: record identities, the content hash and UTF-8 decoding. */
  datatype Codec = Codec(
    id: ConfigRevision -> Option<RevisionId>,
    hash: Bytes -> string,
    isUtf8: Bytes -> bool)

  /** Digests are hexadecimal and without collisions. */
  ghost predicate CollisionFreeConfigs(codec: Codec) {
    && (forall a, b :: codec.id(a).Some? && codec.id(a) == codec.id(b) ==> a == b)
    && (forall a :: codec.id(a).Some? ==> '/' !in codec.id(a).value)
    && (forall a, b :: codec.hash(a) == codec.hash(b) ==> a == b)
  }

  type Blobs = map<RevisionId, Bytes>

  datatype ConfigError =
    | InvalidConfig
    | KeyMismatch(key: string)
    | AuthorMismatch(key: string)
    | MissingContent(path: string)
    | ContentMismatch(path: string)
    | NotUtf8(path: string)

  function ConfigKey(record: ConfigRevision, id: RevisionId): string {
    "config/" + record.path + "/" + id
  }

  predicate Describes(record: ConfigRevision, bytes: Bytes, codec: Codec) {
    |bytes| == record.size && codec.hash(bytes) == record.blobHash
  }

  /** The candidate an entry stands for, or the first check it fails. */
  function Candidate(entry: ConfigEntry, blobs: Blobs, codec: Codec): Result<ProjectedConfig, ConfigError> {
    match codec.id(entry.record)
    case None => Err(InvalidConfig)
    case Some(id) =>
      if entry.key != ConfigKey(entry.record, id) then Err(KeyMismatch(entry.key))
      else if entry.record.authorId != entry.author then Err(AuthorMismatch(entry.key))
      else if id !in blobs then Err(MissingContent(entry.record.path))
      else if !Describes(entry.record, blobs[id], codec) then Err(ContentMismatch(entry.record.path))
      else Ok(ProjectedConfig(id, entry.record, blobs[id]))
  }

  ghost function Candidates(entries: seq<ConfigEntry>, blobs: Blobs, codec: Codec): set<ProjectedConfig> {
    set e | e in entries && Candidate(e, blobs, codec).Ok? :: Candidate(e, blobs, codec).value
  }

  lemma CandidatesSnoc(entries: seq<ConfigEntry>, i: nat, blobs: Blobs, codec: Codec)
    requires i < |entries|
    ensures var c := Candidate(entries[i], blobs, codec);
            Candidates(entries[..i + 1], blobs, codec)
            == Candidates(entries[..i], blobs, codec) + if c.Ok? then {c.value} else {}
  {
    assert entries[..i + 1] == entries[..i] + [entries[i]];
  }

  // ----- Winners --------------------------------------------------------------------------------------

  predicate Newer(a: ProjectedConfig, b: ProjectedConfig) {
    || Before(b.record.hlc, a.record.hlc)
    || (b.record.hlc == a.record.hlc && Less(b.revisionId, a.revisionId))
  }

  lemma NewerIsStrictOrder(a: ProjectedConfig, b: ProjectedConfig, c: ProjectedConfig)
    ensures !Newer(a, a)
    ensures Newer(a, b) && Newer(b, c) ==> Newer(a, c)
    ensures Newer(a, b) || Newer(b, a) || (a.record.hlc == b.record.hlc && a.revisionId == b.revisionId)
  {
    BeforeIsStrictTotalOrder(c.record.hlc, b.record.hlc, a.record.hlc);
    BeforeIsStrictTotalOrder(a.record.hlc, b.record.hlc, a.record.hlc);
    LessIrreflexive(a.revisionId);
    LessTotal(a.revisionId, b.revisionId);
    if Less(c.revisionId, b.revisionId) && Less(b.revisionId, a.revisionId) {
      LessTransitive(c.revisionId, b.revisionId, a.revisionId);
    }
  }

  type Winners = map<string, ProjectedConfig>

  /** Each path with a candidate is won by a candidate that no other candidate is newer than. */
  ghost predicate AreWinners(winners: Winners, candidates: set<ProjectedConfig>) {
    && (forall p :: p in winners ==> winners[p] in candidates && winners[p].record.path == p)
    && (forall c :: c in candidates ==> c.record.path in winners && !Newer(c, winners[c.record.path]))
  }

  /** The same in terms of timestamps: no candidate of the path is later, and at the same timestamp none
      has a greater identity. */
  ghost predicate AreLatest(winners: Winners, candidates: set<ProjectedConfig>) {
    && (forall p :: p in winners ==> winners[p] in candidates && winners[p].record.path == p)
    && (forall c :: c in candidates ==>
          && c.record.path in winners
          && var w := winners[c.record.path];
             && !Before(w.record.hlc, c.record.hlc)
             && (w.record.hlc == c.record.hlc ==> !Less(w.revisionId, c.revisionId)))
  }

  lemma WinnersAreLatest(winners: Winners, candidates: set<ProjectedConfig>)
    ensures AreWinners(winners, candidates) <==> AreLatest(winners, candidates)
  {
    hide Before, Less;
    forall c | c in candidates && c.record.path in winners
      ensures var w := winners[c.record.path];
              Newer(c, w) <==> !(&& !Before(w.record.hlc, c.record.hlc)
                                 && (w.record.hlc == c.record.hlc ==> !Less(w.revisionId, c.revisionId)))
    {
    }
  }

  /** A candidate is a listed record under its own key and author, with content of its size and hash. */
  lemma CandidateExactly(entry: ConfigEntry, blobs: Blobs, codec: Codec, c: ProjectedConfig)
    ensures Candidate(entry, blobs, codec) == Ok(c) <==>
            && c.record == entry.record && codec.id(entry.record) == Some(c.revisionId)
            && entry.key == "config/" + entry.record.path + "/" + c.revisionId
            && entry.author == entry.record.authorId
            && c.revisionId in blobs && c.bytes == blobs[c.revisionId]
            && |c.bytes| == entry.record.size && codec.hash(c.bytes) == entry.record.blobHash
  {
  }

  function Offer(winners: Winners, c: ProjectedConfig): Winners {
    if c.record.path !in winners || Newer(c, winners[c.record.path])
    then winners[c.record.path := c]
    else winners
  }

  lemma OfferKeepsWinners(winners: Winners, candidates: set<ProjectedConfig>, c: ProjectedConfig)
    requires AreWinners(winners, candidates)
    ensures AreWinners(Offer(winners, c), candidates + {c})
  {
    var after := Offer(winners, c);
    forall d | d in candidates + {c} ensures d.record.path in after && !Newer(d, after[d.record.path]) {
      NewerIsStrictOrder(c, c, c);
      if d in candidates && d.record.path == c.record.path {
        NewerIsStrictOrder(d, c, winners[d.record.path]);
      }
    }
  }

  lemma NoWinners(blobs: Blobs, codec: Codec)
    ensures AreWinners(map[], Candidates([], blobs, codec))
  {
  }

  /** `WorkspaceRecords::list_configs`: any defective entry fails the listing. */
  method ListConfigs(entries: seq<ConfigEntry>, blobs: Blobs, codec: Codec) returns (r: Result<Winners, ConfigError>)
    ensures r.Ok? <==> forall e :: e in entries ==> Candidate(e, blobs, codec).Ok?
    ensures r.Ok? ==> AreWinners(r.value, Candidates(entries, blobs, codec))
    ensures r.Ok? ==> AreLatest(r.value, Candidates(entries, blobs, codec))
  {
    hide Candidate, AreWinners, AreLatest, Offer;
    var winners: Winners := map[];
    NoWinners(blobs, codec);
    for i := 0 to |entries|
      invariant forall k :: 0 <= k < i ==> Candidate(entries[k], blobs, codec).Ok?
      invariant AreWinners(winners, Candidates(entries[..i], blobs, codec))
    {
      var candidate := Candidate(entries[i], blobs, codec);
      if candidate.Err? {
        return Err(candidate.error);
      }
      CandidatesSnoc(entries, i, blobs, codec);
      OfferKeepsWinners(winners, Candidates(entries[..i], blobs, codec), candidate.value);
      winners := Offer(winners, candidate.value);
    }
    assert entries[..|entries|] == entries;
    WinnersAreLatest(winners, Candidates(entries, blobs, codec));
    return Ok(winners);
  }

  predicate Identified(entry: ConfigEntry, codec: Codec) {
    codec.id(entry.record).Some?
  }

  predicate WellKeyed(entry: ConfigEntry, codec: Codec) {
    && Identified(entry, codec)
    && entry.key == ConfigKey(entry.record, codec.id(entry.record).value) && entry.record.authorId == entry.author
  }

  function Accepted(entries: seq<ConfigEntry>, codec: Codec): (r: seq<ConfigEntry>)
    ensures forall e :: e in r <==> e in entries && WellKeyed(e, codec)
  {
    if entries == [] then []
    else
      assert entries == [entries[0]] + entries[1..];
      (if WellKeyed(entries[0], codec) then [entries[0]] else []) + Accepted(entries[1..], codec)
  }

  lemma AcceptedStep(entries: seq<ConfigEntry>, i: nat, codec: Codec)
    requires i < |entries|
    ensures Accepted(entries[i..], codec)
         == (if WellKeyed(entries[i], codec) then [entries[i]] else []) + Accepted(entries[i + 1..], codec)
  {
    assert entries[i..][1..] == entries[i + 1..];
  }

  lemma AcceptedNone(entries: seq<ConfigEntry>, codec: Codec)
    ensures Accepted(entries[|entries|..], codec) == []
  {
  }

  /** The configuration branch of `decode_records`: a record without an identity fails the load, an
      entry under another key or author is dropped. */
  method DecodeConfigs(entries: seq<ConfigEntry>, codec: Codec) returns (r: Result<seq<ConfigEntry>, ConfigError>)
    ensures r.Ok? <==> forall e :: e in entries ==> Identified(e, codec)
    ensures r == if r.Ok? then Ok(Accepted(entries, codec)) else Err(InvalidConfig)
  {
    hide Accepted, ConfigKey;
    var records: seq<ConfigEntry> := [];
    assert entries[0..] == entries;
    for i := 0 to |entries|
      invariant forall k :: 0 <= k < i ==> Identified(entries[k], codec)
      invariant Accepted(entries, codec) == records + Accepted(entries[i..], codec)
    {
      AcceptedStep(entries, i, codec);
      match codec.id(entries[i].record) {
        case None =>
          assert !Identified(entries[i], codec);
          return Err(InvalidConfig);
        case Some(id) =>
          if entries[i].key == ConfigKey(entries[i].record, id) && entries[i].record.authorId == entries[i].author {
            records := records + [entries[i]];
          }
      }
    }
    AcceptedNone(entries, codec);
    assert records + Accepted(entries[|entries|..], codec) == records;
    return Ok(records);
  }

  lemma AcceptedCandidates(entries: seq<ConfigEntry>, blobs: Blobs, codec: Codec)
    ensures Candidates(Accepted(entries, codec), blobs, codec) == Candidates(entries, blobs, codec)
  {
    hide Accepted, ConfigKey, Describes;
  }

  /** The content of an accepted record, if the store has it. */
  function Content(entry: ConfigEntry, blobs: Blobs, codec: Codec): (r: Option<ProjectedConfig>)
    requires WellKeyed(entry, codec)
    ensures r == match Candidate(entry, blobs, codec) case Ok(c) => Some(c) case Err(_) => None
  {
    var id := codec.id(entry.record).value;
    if id in blobs && Describes(entry.record, blobs[id], codec) then Some(ProjectedConfig(id, entry.record, blobs[id]))
    else None
  }

  /** `decode_records`, then the loop of `load_behavior`: a record without an identity and content
      that is not text fail the load, every other defective entry is skipped. */
  method LoadConfigs(entries: seq<ConfigEntry>, blobs: Blobs, codec: Codec) returns (r: Result<Winners, ConfigError>)
    ensures r.Ok? <==>
      && (forall e :: e in entries ==> Identified(e, codec))
      && (forall c :: c in Candidates(entries, blobs, codec) ==> codec.isUtf8(c.bytes))
    ensures r == Err(InvalidConfig) <==> !(forall e :: e in entries ==> Identified(e, codec))
    ensures r.Ok? ==> AreWinners(r.value, Candidates(entries, blobs, codec))
    ensures r.Ok? ==> AreLatest(r.value, Candidates(entries, blobs, codec))
  {
    hide Candidate, AreWinners, AreLatest, Offer, Accepted;
    var decoded := DecodeConfigs(entries, codec);
    if decoded.Err? {
      return Err(decoded.error);
    }
    var records := decoded.value;
    AcceptedCandidates(entries, blobs, codec);
    var winners: Winners := map[];
    NoWinners(blobs, codec);
    for i := 0 to |records|
      invariant forall c :: c in Candidates(records[..i], blobs, codec) ==> codec.isUtf8(c.bytes)
      invariant AreWinners(winners, Candidates(records[..i], blobs, codec))
    {
      assert records[i] in records;
      var candidate := Content(records[i], blobs, codec);
      CandidatesSnoc(records, i, blobs, codec);
      if candidate.Some? {
        if !codec.isUtf8(candidate.value.bytes) {
          assert candidate.value in Candidates(records, blobs, codec);
          return Err(NotUtf8(candidate.value.record.path));
        }
        OfferKeepsWinners(winners, Candidates(records[..i], blobs, codec), candidate.value);
        winners := Offer(winners, candidate.value);
      } else {
        assert Candidates(records[..i + 1], blobs, codec) == Candidates(records[..i], blobs, codec);
      }
    }
    assert records[..|records|] == records;
    WinnersAreLatest(winners, Candidates(entries, blobs, codec));
    return Ok(winners);
  }

  /** Two verified records of one path, stamped in the milliseconds 5 and 9: the later one is listed. */
  lemma LaterRecordWins(e: ConfigEntry, f: ConfigEntry, c: ProjectedConfig, d: ProjectedConfig, blobs: Blobs,
      codec: Codec, winners: Winners)
    requires Candidate(e, blobs, codec) == Ok(c) && Candidate(f, blobs, codec) == Ok(d)
    requires c.record.path == "xo.scm" && d.record.path == "xo.scm"
    requires c.record.hlc == Hlc(5, 0, "a") && d.record.hlc == Hlc(9, 0, "a")
    requires AreWinners(winners, Candidates([e, f], blobs, codec))
    ensures winners == map["xo.scm" := d]
  {
    hide Candidate, AreWinners, Less;
    WinnersAreLatest(winners, Candidates([e, f], blobs, codec));
    assert e in [e, f] && f in [e, f];
    assert Candidates([e, f], blobs, codec) == {c, d};
  }

  // ----- Convergence ------------------------------------------------------------------------------------

  /** Candidates that agree on identity agree on everything. */
  ghost predicate Verified(candidates: set<ProjectedConfig>) {
    forall c, d :: c in candidates && d in candidates && c.revisionId == d.revisionId ==> c == d
  }

  lemma CandidateIsVerified(c: ProjectedConfig, entries: seq<ConfigEntry>, blobs: Blobs, codec: Codec)
    requires c in Candidates(entries, blobs, codec)
    ensures codec.id(c.record) == Some(c.revisionId) && Describes(c.record, c.bytes, codec)
  {
    hide ConfigKey;
  }

  lemma SameIdentity(c: ProjectedConfig, d: ProjectedConfig, codec: Codec)
    requires CollisionFreeConfigs(codec) && c.revisionId == d.revisionId
    requires codec.id(c.record) == Some(c.revisionId) && Describes(c.record, c.bytes, codec)
    requires codec.id(d.record) == Some(d.revisionId) && Describes(d.record, d.bytes, codec)
    ensures c == d
  {
    assert c.record == d.record;
    assert c.bytes == d.bytes;
  }

  /** Across stores, candidates with the same identity are the same. */
  lemma StoresAreVerified(entries: seq<ConfigEntry>, blobs: Blobs, more: seq<ConfigEntry>, moreBlobs: Blobs,
      codec: Codec)
    requires CollisionFreeConfigs(codec)
    ensures Verified(Candidates(entries, blobs, codec) + Candidates(more, moreBlobs, codec))
  {
    hide Candidates, CollisionFreeConfigs, Describes;
    var a, b := Candidates(entries, blobs, codec), Candidates(more, moreBlobs, codec);
    forall c: ProjectedConfig | c in a + b
      ensures codec.id(c.record) == Some(c.revisionId) && Describes(c.record, c.bytes, codec)
    {
      if c in a {
        CandidateIsVerified(c, entries, blobs, codec);
      } else {
        CandidateIsVerified(c, more, moreBlobs, codec);
      }
    }
    forall c: ProjectedConfig, d: ProjectedConfig | c in a + b && d in a + b && c.revisionId == d.revisionId
      ensures c == d
    {
      SameIdentity(c, d, codec);
    }
  }

  /** The winners are determined by the set of candidates: the native and the browser loop agree,
      whatever the order in which they list the entries. */
  lemma WinnersUnique(v: Winners, w: Winners, candidates: set<ProjectedConfig>)
    requires Verified(candidates) && AreWinners(v, candidates) && AreWinners(w, candidates)
    ensures v == w
  {
    assert v.Keys == w.Keys by {
      forall p ensures p in v <==> p in w {
        if p in v { assert v[p] in candidates; }
        if p in w { assert w[p] in candidates; }
      }
    }
    forall p | p in v ensures v[p] == w[p] {
      assert !Newer(v[p], w[p]) && !Newer(w[p], v[p]);
      NewerIsStrictOrder(v[p], w[p], v[p]);
    }
  }

  /** Path by path, the newer of two listings. */
  function Merged(v: Winners, w: Winners): Winners {
    map p | p in v.Keys + w.Keys ::
      if p !in w then v[p] else if p !in v then w[p] else if Newer(w[p], v[p]) then w[p] else v[p]
  }

  lemma MergedAreWinners(v: Winners, a: set<ProjectedConfig>, w: Winners, b: set<ProjectedConfig>)
    requires AreWinners(v, a) && AreWinners(w, b)
    ensures AreWinners(Merged(v, w), a + b)
  {
    var m := Merged(v, w);
    forall c | c in a + b ensures c.record.path in m && !Newer(c, m[c.record.path]) {
      var p := c.record.path;
      if c in a && p in w {
        NewerIsStrictOrder(c, w[p], v[p]);
      } else if c in b && p in v {
        NewerIsStrictOrder(c, v[p], w[p]);
        NewerIsStrictOrder(v[p], w[p], v[p]);
      }
    }
  }

  // ----- Merged stores ----------------------------------------------------------------------------------

  datatype Store = Store(entries: seq<ConfigEntry>, blobs: Blobs)

  ghost function CandidatesOf(s: Store, codec: Codec): set<ProjectedConfig> {
    Candidates(s.entries, s.blobs, codec)
  }

  /** A merged document has every key of both, once, and for each the value of one of them. */
  ghost predicate IsMerge(m: Store, a: Store, b: Store) {
    && KeyedOnce(m.entries)
    && (forall e :: e in m.entries ==> e in a.entries || e in b.entries)
    && (forall e :: e in a.entries || e in b.entries ==> exists f :: f in m.entries && f.key == e.key)
    && m.blobs.Keys == a.blobs.Keys + b.blobs.Keys
    && (forall id :: id in m.blobs ==>
          (id in a.blobs && m.blobs[id] == a.blobs[id]) || (id in b.blobs && m.blobs[id] == b.blobs[id]))
  }

  ghost predicate KeyedOnce(entries: seq<ConfigEntry>) {
    forall e, f :: e in entries && f in entries && e.key == f.key ==> e == f
  }

  /** The entry is listed and passes every check. */
  ghost predicate Counts(e: ConfigEntry, s: Store, codec: Codec) {
    e in s.entries && Candidate(e, s.blobs, codec).Ok?
  }

  /** No entry is defective: exactly when `ListConfigs` succeeds. */
  ghost predicate Complete(s: Store, codec: Codec) {
    forall e :: e in s.entries ==> Candidate(e, s.blobs, codec).Ok?
  }

  /** Whatever content `b` has for an entry of `a` is the content that entry describes. */
  ghost predicate Compatible(a: Store, b: Store, codec: Codec) {
    forall e :: e in a.entries && Identified(e, codec) && codec.id(e.record).value in b.blobs ==>
      Describes(e.record, b.blobs[codec.id(e.record).value], codec)
  }

  lemma LongerEndHasSlash(p: string, i: string, q: string, j: string)
    requires "config/" + p + "/" + i == "config/" + q + "/" + j && |i| < |j|
    ensures '/' in j
  {
    var k := "config/" + p + "/" + i;
    assert k[|k| - |i| - 1] == '/' && k[|k| - |i| - 1] == j[|j| - |i| - 1];
  }

  lemma KeyEndsInIdentity(p: string, i: string, q: string, j: string)
    requires "config/" + p + "/" + i == "config/" + q + "/" + j && '/' !in i && '/' !in j
    ensures i == j
  {
    var k := "config/" + p + "/" + i;
    if |i| < |j| {
      LongerEndHasSlash(p, i, q, j);
    } else if |j| < |i| {
      LongerEndHasSlash(q, j, p, i);
    } else {
      assert k[|k| - |i|..] == i && k[|k| - |j|..] == j;
    }
  }

  /** A key names one entry only. */
  lemma KeyNamesEntry(e: ConfigEntry, f: ConfigEntry, codec: Codec)
    requires CollisionFreeConfigs(codec) && WellKeyed(e, codec) && WellKeyed(f, codec) && e.key == f.key
    ensures e == f
  {
    KeyEndsInIdentity(e.record.path, codec.id(e.record).value, f.record.path, codec.id(f.record).value);
  }

  lemma CandidateFrom(c: ProjectedConfig, s: Store, codec: Codec) returns (e: ConfigEntry)
    requires c in CandidatesOf(s, codec)
    ensures Counts(e, s, codec) && WellKeyed(e, codec) && Candidate(e, s.blobs, codec).value == c
  {
    e :| e in s.entries && Candidate(e, s.blobs, codec).Ok? && Candidate(e, s.blobs, codec).value == c;
  }

  lemma SameCandidate(e: ConfigEntry, a: Store, b: Store, codec: Codec)
    requires CollisionFreeConfigs(codec) && Candidate(e, a.blobs, codec).Ok? && Candidate(e, b.blobs, codec).Ok?
    ensures Candidate(e, a.blobs, codec) == Candidate(e, b.blobs, codec)
  {
    hide ConfigKey;
    SameIdentity(Candidate(e, a.blobs, codec).value, Candidate(e, b.blobs, codec).value, codec);
  }

  /** An entry counts in the merged store exactly when it counts in a part. */
  ghost predicate Undisturbed(m: Store, a: Store, b: Store, codec: Codec) {
    forall e :: e in a.entries || e in b.entries ==>
      (Counts(e, m, codec) <==> Counts(e, a, codec) || Counts(e, b, codec))
  }

  lemma CountedAreCandidates(m: Store, a: Store, b: Store, codec: Codec, c: ProjectedConfig)
    requires CollisionFreeConfigs(codec) && IsMerge(m, a, b) && Undisturbed(m, a, b, codec)
    ensures c in CandidatesOf(m, codec) <==> c in CandidatesOf(a, codec) || c in CandidatesOf(b, codec)
  {
    hide Candidate, WellKeyed, CollisionFreeConfigs;
    if c in CandidatesOf(m, codec) {
      var e := CandidateFrom(c, m, codec);
      SameCandidate(e, m, if Counts(e, a, codec) then a else b, codec);
    }
    if c in CandidatesOf(a, codec) {
      var e := CandidateFrom(c, a, codec);
      SameCandidate(e, m, a, codec);
    }
    if c in CandidatesOf(b, codec) {
      var e := CandidateFrom(c, b, codec);
      SameCandidate(e, m, b, codec);
    }
  }

  lemma CandidateCounts(e: ConfigEntry, s: Store, c: ProjectedConfig, t: Store, codec: Codec)
    requires CollisionFreeConfigs(codec) && Counts(e, s, codec) && Candidate(e, s.blobs, codec).value == c
    requires c in CandidatesOf(t, codec)
    ensures Counts(e, t, codec)
  {
    hide ConfigKey;
    var f := CandidateFrom(c, t, codec);
    assert f.record == e.record && f.key == e.key && f.author == e.author;
  }

  /** The candidates of a merged store are those of its parts exactly when this is so entry by entry. */
  lemma CandidatesEntryByEntry(m: Store, a: Store, b: Store, codec: Codec)
    requires CollisionFreeConfigs(codec) && IsMerge(m, a, b)
    ensures CandidatesOf(m, codec) == CandidatesOf(a, codec) + CandidatesOf(b, codec) <==> Undisturbed(m, a, b, codec)
  {
    hide Candidate, CollisionFreeConfigs, IsMerge;
    if Undisturbed(m, a, b, codec) {
      forall c ensures c in CandidatesOf(m, codec) <==> c in CandidatesOf(a, codec) || c in CandidatesOf(b, codec) {
        CountedAreCandidates(m, a, b, codec, c);
      }
    }
    if CandidatesOf(m, codec) == CandidatesOf(a, codec) + CandidatesOf(b, codec) {
      forall e | e in a.entries || e in b.entries
        ensures Counts(e, m, codec) <==> Counts(e, a, codec) || Counts(e, b, codec)
      {
        if Counts(e, m, codec) {
          var c := Candidate(e, m.blobs, codec).value;
          assert c in CandidatesOf(m, codec);
          CandidateCounts(e, m, c, if c in CandidatesOf(a, codec) then a else b, codec);
        }
        if Counts(e, a, codec) {
          var c := Candidate(e, a.blobs, codec).value;
          assert c in CandidatesOf(a, codec);
          CandidateCounts(e, a, c, m, codec);
        }
        if Counts(e, b, codec) {
          var c := Candidate(e, b.blobs, codec).value;
          assert c in CandidatesOf(b, codec);
          CandidateCounts(e, b, c, m, codec);
        }
      }
    }
  }

  // ----- Which stores merge without a surprise ------------------------------------------------------------

  /** Whatever content the store has under the identity of the entry is, or is not, what the entry describes. */
  ghost predicate AllFits(e: ConfigEntry, blobs: Blobs, codec: Codec) {
    Identified(e, codec) && codec.id(e.record).value in blobs ==>
      Describes(e.record, blobs[codec.id(e.record).value], codec)
  }

  ghost predicate NoneFits(e: ConfigEntry, blobs: Blobs, codec: Codec) {
    Identified(e, codec) && codec.id(e.record).value in blobs ==>
      !Describes(e.record, blobs[codec.id(e.record).value], codec)
  }

  ghost predicate Sole(e: ConfigEntry, a: Store, b: Store) {
    forall f :: (f in a.entries || f in b.entries) && f.key == e.key ==> f == e
  }

  /** An entry that counts in a part is alone under its key and no content of either part contradicts
      it; for any other entry under its own key neither part has the content. */
  ghost predicate Separate(a: Store, b: Store, codec: Codec) {
    forall e :: (e in a.entries || e in b.entries) && WellKeyed(e, codec) ==>
      if Counts(e, a, codec) || Counts(e, b, codec)
      then AllFits(e, a.blobs, codec) && AllFits(e, b.blobs, codec) && Sole(e, a, b)
      else NoneFits(e, a.blobs, codec) && NoneFits(e, b.blobs, codec)
  }

  lemma OkExactly(e: ConfigEntry, blobs: Blobs, codec: Codec)
    ensures Candidate(e, blobs, codec).Ok?
            <==> WellKeyed(e, codec) && codec.id(e.record).value in blobs && AllFits(e, blobs, codec)
  {
    hide ConfigKey, Describes;
  }

  lemma SeparateEntry(e: ConfigEntry, m: Store, a: Store, b: Store, codec: Codec)
    requires IsMerge(m, a, b) && Separate(a, b, codec) && (e in a.entries || e in b.entries)
    ensures Counts(e, m, codec) <==> Counts(e, a, codec) || Counts(e, b, codec)
  {
    hide Candidate, ConfigKey, Describes;
    OkExactly(e, m.blobs, codec);
    OkExactly(e, a.blobs, codec);
    OkExactly(e, b.blobs, codec);
    if Counts(e, a, codec) || Counts(e, b, codec) {
      var f :| f in m.entries && f.key == e.key;
      assert f == e;
    }
  }

  /** The first entry under each key. */
  ghost function OnePerKey(entries: seq<ConfigEntry>): seq<ConfigEntry> {
    if entries == [] then [] else
      [entries[0]] + OtherKeys(entries[0].key, OnePerKey(entries[1..]))
  }

  ghost function OtherKeys(key: string, entries: seq<ConfigEntry>): (r: seq<ConfigEntry>)
    ensures forall e :: e in r <==> e in entries && e.key != key
  {
    if entries == [] then [] else
      (if entries[0].key == key then [] else [entries[0]]) + OtherKeys(key, entries[1..])
  }

  ghost predicate SameKeys(r: seq<ConfigEntry>, entries: seq<ConfigEntry>) {
    && (forall e :: e in r ==> e in entries)
    && (forall e :: e in entries ==> exists f :: f in r && f.key == e.key)
  }

  lemma KeyedStep(e: ConfigEntry, r: seq<ConfigEntry>, entries: seq<ConfigEntry>)
    requires KeyedOnce(r) && SameKeys(r, entries)
    ensures var next := [e] + OtherKeys(e.key, r);
            KeyedOnce(next) && SameKeys(next, [e] + entries) && e in next
  {
    var others := OtherKeys(e.key, r);
    var next := [e] + others;
    assert e in next;
    assert forall f :: f in next <==> f == e || f in others;
    assert forall f :: f in [e] + entries <==> f == e || f in entries;
    forall f | f in entries ensures exists g :: g in next && g.key == f.key {
      if f.key != e.key {
        var g :| g in r && g.key == f.key;
        assert g in next;
      }
    }
  }

  lemma {:induction false} OnePerKeyIsKeyed(entries: seq<ConfigEntry>)
    ensures KeyedOnce(OnePerKey(entries)) && SameKeys(OnePerKey(entries), entries)
    ensures entries != [] ==> entries[0] in OnePerKey(entries)
  {
    hide KeyedOnce, SameKeys, OtherKeys;
    if entries == [] {
      NothingIsKeyed();
    } else {
      OnePerKeyIsKeyed(entries[1..]);
      KeyedStep(entries[0], OnePerKey(entries[1..]), entries[1..]);
      assert [entries[0]] + entries[1..] == entries;
    }
  }

  lemma NothingIsKeyed()
    ensures KeyedOnce([]) && SameKeys([], [])
  {
  }

  /** A merge that keeps one given entry of the parts. */
  ghost function Favouring(e: ConfigEntry, a: Store, b: Store, blobs: Blobs): Store {
    Store(OnePerKey([e] + (a.entries + b.entries)), blobs)
  }

  lemma FavouringIsMerge(e: ConfigEntry, a: Store, b: Store, blobs: Blobs)
    requires e in a.entries || e in b.entries
    requires blobs == a.blobs + b.blobs || blobs == b.blobs + a.blobs
    ensures IsMerge(Favouring(e, a, b, blobs), a, b) && e in Favouring(e, a, b, blobs).entries
  {
    hide OnePerKey, KeyedOnce, SameKeys, IsMerge;
    var all := [e] + (a.entries + b.entries);
    OnePerKeyIsKeyed(all);
    assert all[0] == e;
    SameKeysMerge(Favouring(e, a, b, blobs), all, a, b);
  }

  lemma SameKeysMerge(m: Store, all: seq<ConfigEntry>, a: Store, b: Store)
    requires KeyedOnce(m.entries) && SameKeys(m.entries, all)
    requires forall f :: f in all <==> f in a.entries || f in b.entries
    requires m.blobs == a.blobs + b.blobs || m.blobs == b.blobs + a.blobs
    ensures IsMerge(m, a, b)
  {
    hide KeyedOnce;
  }

  ghost predicate MergesAsUnion(a: Store, b: Store, codec: Codec) {
    forall m :: IsMerge(m, a, b) ==> CandidatesOf(m, codec) == CandidatesOf(a, codec) + CandidatesOf(b, codec)
  }

  lemma MergedCounts(e: ConfigEntry, m: Store, a: Store, b: Store, codec: Codec)
    requires CollisionFreeConfigs(codec) && MergesAsUnion(a, b, codec) && IsMerge(m, a, b)
    requires e in a.entries || e in b.entries
    ensures Counts(e, m, codec) <==> Counts(e, a, codec) || Counts(e, b, codec)
  {
    hide Candidate, CollisionFreeConfigs, IsMerge, Counts, CandidatesOf;
    CandidatesEntryByEntry(m, a, b, codec);
  }

  /** The entry counts in a merge that keeps it, whichever part its content is taken from. */
  lemma FavouredExactly(e: ConfigEntry, a: Store, b: Store, blobs: Blobs, codec: Codec)
    requires CollisionFreeConfigs(codec) && MergesAsUnion(a, b, codec)
    requires blobs == a.blobs + b.blobs || blobs == b.blobs + a.blobs
    requires (e in a.entries || e in b.entries) && WellKeyed(e, codec)
    ensures codec.id(e.record).value in blobs && AllFits(e, blobs, codec)
            <==> Counts(e, a, codec) || Counts(e, b, codec)
  {
    hide Candidate, WellKeyed, AllFits, CollisionFreeConfigs, MergesAsUnion, IsMerge, OnePerKey;
    var m := Favouring(e, a, b, blobs);
    FavouringIsMerge(e, a, b, blobs);
    MergedCounts(e, m, a, b, codec);
    OkExactly(e, blobs, codec);
  }

  lemma CountedIsSole(e: ConfigEntry, a: Store, b: Store, codec: Codec)
    requires CollisionFreeConfigs(codec) && MergesAsUnion(a, b, codec)
    requires Counts(e, a, codec) || Counts(e, b, codec)
    ensures Sole(e, a, b)
  {
    hide Candidate, CollisionFreeConfigs, MergesAsUnion, Favouring;
    forall f | (f in a.entries || f in b.entries) && f.key == e.key ensures f == e {
      var m := Favouring(f, a, b, a.blobs + b.blobs);
      FavouringIsMerge(f, a, b, a.blobs + b.blobs);
      MergedCounts(e, m, a, b, codec);
    }
  }

  lemma UnionEntry(e: ConfigEntry, a: Store, b: Store, codec: Codec)
    requires CollisionFreeConfigs(codec) && MergesAsUnion(a, b, codec)
    requires (e in a.entries || e in b.entries) && WellKeyed(e, codec)
    ensures if Counts(e, a, codec) || Counts(e, b, codec)
            then AllFits(e, a.blobs, codec) && AllFits(e, b.blobs, codec) && Sole(e, a, b)
            else NoneFits(e, a.blobs, codec) && NoneFits(e, b.blobs, codec)
  {
    hide WellKeyed, Counts, Describes, CollisionFreeConfigs, MergesAsUnion, Sole;
    FavouredExactly(e, a, b, a.blobs + b.blobs, codec);
    FavouredExactly(e, a, b, b.blobs + a.blobs, codec);
    if Counts(e, a, codec) || Counts(e, b, codec) { CountedIsSole(e, a, b, codec); }
  }

  /** Every merge of two stores has exactly the candidates of both if and only if the stores are
      separate, which is a condition on the stores before they are merged. */
  lemma MergedCandidatesExactly(a: Store, b: Store, codec: Codec)
    requires CollisionFreeConfigs(codec)
    ensures (forall m :: IsMerge(m, a, b) ==> CandidatesOf(m, codec) == CandidatesOf(a, codec) + CandidatesOf(b, codec))
            <==> Separate(a, b, codec)
  {
    hide CollisionFreeConfigs, IsMerge, WellKeyed, CandidatesOf, AllFits, NoneFits, Sole, Counts;
    if MergesAsUnion(a, b, codec) {
      forall e | (e in a.entries || e in b.entries) && WellKeyed(e, codec)
        ensures if Counts(e, a, codec) || Counts(e, b, codec)
                then AllFits(e, a.blobs, codec) && AllFits(e, b.blobs, codec) && Sole(e, a, b)
                else NoneFits(e, a.blobs, codec) && NoneFits(e, b.blobs, codec)
      {
        UnionEntry(e, a, b, codec);
      }
    }
    if Separate(a, b, codec) {
      forall m | IsMerge(m, a, b)
        ensures CandidatesOf(m, codec) == CandidatesOf(a, codec) + CandidatesOf(b, codec)
      {
        SeparateStores(m, a, b, codec);
      }
    }
  }

  lemma SeparateStores(m: Store, a: Store, b: Store, codec: Codec)
    requires CollisionFreeConfigs(codec) && IsMerge(m, a, b) && Separate(a, b, codec)
    ensures CandidatesOf(m, codec) == CandidatesOf(a, codec) + CandidatesOf(b, codec)
  {
    hide CollisionFreeConfigs, IsMerge, Separate, CandidatesOf, Counts;
    forall e | e in a.entries || e in b.entries
      ensures Counts(e, m, codec) <==> Counts(e, a, codec) || Counts(e, b, codec)
    {
      SeparateEntry(e, m, a, b, codec);
    }
    CandidatesEntryByEntry(m, a, b, codec);
  }

  /** What either loop returns on a merge of separate stores is, path by path, the newer of what it
      returns on the two parts. */
  lemma SeparateStoresMerge(m: Store, a: Store, b: Store, codec: Codec, v: Winners, w: Winners, x: Winners)
    requires CollisionFreeConfigs(codec) && IsMerge(m, a, b) && Separate(a, b, codec)
    requires AreWinners(v, CandidatesOf(a, codec)) && AreWinners(w, CandidatesOf(b, codec))
    requires AreWinners(x, CandidatesOf(m, codec))
    ensures x == Merged(v, w)
  {
    hide AreWinners, CollisionFreeConfigs, IsMerge, Separate, Candidates, Merged;
    SeparateStores(m, a, b, codec);
    StoresAreVerified(a.entries, a.blobs, b.entries, b.blobs, codec);
    MergedAreWinners(v, CandidatesOf(a, codec), w, CandidatesOf(b, codec));
    WinnersUnique(x, Merged(v, w), CandidatesOf(m, codec));
  }

  lemma CompleteIsSeparate(a: Store, b: Store, codec: Codec)
    requires CollisionFreeConfigs(codec)
    requires Complete(a, codec) && Complete(b, codec) && Compatible(a, b, codec) && Compatible(b, a, codec)
    ensures Separate(a, b, codec)
  {
    hide Candidate, WellKeyed, Describes, CollisionFreeConfigs;
    forall e | (e in a.entries || e in b.entries) && WellKeyed(e, codec)
      ensures Counts(e, a, codec) || Counts(e, b, codec)
      ensures AllFits(e, a.blobs, codec) && AllFits(e, b.blobs, codec) && Sole(e, a, b)
    {
      OkExactly(e, a.blobs, codec);
      OkExactly(e, b.blobs, codec);
      WellKeyedIsIdentified(e, codec);
      forall f | (f in a.entries || f in b.entries) && f.key == e.key ensures f == e {
        OkExactly(f, a.blobs, codec);
        OkExactly(f, b.blobs, codec);
        KeyNamesEntry(e, f, codec);
      }
    }
  }

  lemma WellKeyedIsIdentified(e: ConfigEntry, codec: Codec)
    requires WellKeyed(e, codec)
    ensures Identified(e, codec)
  {
  }

  lemma CompleteMerge(m: Store, a: Store, b: Store, codec: Codec)
    requires IsMerge(m, a, b) && Separate(a, b, codec) && Complete(a, codec) && Complete(b, codec)
    ensures Complete(m, codec)
  {
    hide Candidate, Separate;
    forall e | e in m.entries ensures Candidate(e, m.blobs, codec).Ok? {
      SeparateEntry(e, m, a, b, codec);
    }
  }

  /** On stores without defective entries, whose content for each other's entries is right, the
      merged store lists without an error, and what either loop returns on it is, path by path, the
      newer of what it returns on the two parts. */
  lemma MergeIsPointwiseMaximum(m: Store, a: Store, b: Store, codec: Codec, v: Winners, w: Winners, x: Winners)
    requires CollisionFreeConfigs(codec) && IsMerge(m, a, b)
    requires Complete(a, codec) && Complete(b, codec) && Compatible(a, b, codec) && Compatible(b, a, codec)
    requires AreWinners(v, CandidatesOf(a, codec)) && AreWinners(w, CandidatesOf(b, codec))
    requires AreWinners(x, CandidatesOf(m, codec))
    ensures Complete(m, codec)
    ensures CandidatesOf(m, codec) == CandidatesOf(a, codec) + CandidatesOf(b, codec)
    ensures x == Merged(v, w)
  {
    hide AreWinners, Complete, Compatible, CollisionFreeConfigs, IsMerge, Separate, CandidatesOf, Merged;
    CompleteIsSeparate(a, b, codec);
    CompleteMerge(m, a, b, codec);
    SeparateStores(m, a, b, codec);
    SeparateStoresMerge(m, a, b, codec, v, w, x);
  }

  /** Content is stored under the identity of a record that describes it. */
  ghost predicate Honest(s: Store, codec: Codec) {
    forall r :: codec.id(r).Some? && codec.id(r).value in s.blobs ==> Describes(r, s.blobs[codec.id(r).value], codec)
  }

  /** Honest stores are compatible with each other, and merging keeps them honest. */
  lemma HonestStoresMerge(m: Store, a: Store, b: Store, codec: Codec)
    requires Honest(a, codec) && Honest(b, codec) && IsMerge(m, a, b)
    ensures Compatible(a, b, codec) && Compatible(b, a, codec) && Honest(m, codec)
  {
    hide Describes;
    forall r | codec.id(r).Some? && codec.id(r).value in m.blobs
      ensures Describes(r, m.blobs[codec.id(r).value], codec)
    {
      var id := codec.id(r).value;
      assert m.blobs[id] == (if id in a.blobs && m.blobs[id] == a.blobs[id] then a.blobs[id] else b.blobs[id]);
    }
  }

  /** `put_config`: the content is stored first, under the identity of the record, then the record. */
  function PutConfig(s: Store, record: ConfigRevision, id: RevisionId, bytes: Bytes): Store {
    Store(s.entries + [ConfigEntry(ConfigKey(record, id), record.authorId, record)], s.blobs[id := bytes])
  }

  /** Stores that are written this way stay complete and honest, so any two of them can be merged. */
  lemma PutConfigKeepsStore(s: Store, record: ConfigRevision, id: RevisionId, bytes: Bytes, codec: Codec)
    requires CollisionFreeConfigs(codec) && Complete(s, codec) && Honest(s, codec)
    requires codec.id(record) == Some(id) && Describes(record, bytes, codec)
    ensures Complete(PutConfig(s, record, id, bytes), codec) && Honest(PutConfig(s, record, id, bytes), codec)
  {
    hide ConfigKey, Describes;
    var after := PutConfig(s, record, id, bytes);
    forall e | e in after.entries ensures Candidate(e, after.blobs, codec).Ok? {
      assert codec.id(e.record) == Some(id) ==> e.record == record;
    }
  }

  lemma OneWinner(c: ProjectedConfig)
    ensures AreWinners(map[c.record.path := c], {c}) && AreWinners(map[], {})
    ensures map[c.record.path := c] != Merged(map[], map[])
  {
    hide Newer;
    NewerIsStrictOrder(c, c, c);
    assert c.record.path !in Merged(map[], map[]);
  }

  lemma LoneEntry(e: ConfigEntry, id: RevisionId, bytes: Bytes, codec: Codec)
    requires codec.id(e.record) == Some(id) && WellKeyed(e, codec) && Describes(e.record, bytes, codec)
    ensures CandidatesOf(Store([e], map[]), codec) == {} && !Complete(Store([e], map[]), codec)
    ensures CandidatesOf(Store([], map[id := bytes]), codec) == {}
    ensures CandidatesOf(Store([e], map[id := bytes]), codec) == {ProjectedConfig(id, e.record, bytes)}
  {
    hide ConfigKey, Describes;
    assert e in [e] && Candidate(e, map[], codec).Err?;
    assert Candidate(e, map[id := bytes], codec) == Ok(ProjectedConfig(id, e.record, bytes));
  }

  /** Why stores must be complete: with an entry in one store and its content only in the other,
      neither part has a winner, and the merged store has one. */
  lemma LateContentWins(record: ConfigRevision, id: RevisionId, bytes: Bytes, codec: Codec)
    requires codec.id(record) == Some(id) && Describes(record, bytes, codec)
    ensures var e := ConfigEntry(ConfigKey(record, id), record.authorId, record);
            var a, b, m := Store([e], map[]), Store([], map[id := bytes]), Store([e], map[id := bytes]);
            var x: Winners := map[record.path := ProjectedConfig(id, record, bytes)];
            && IsMerge(m, a, b) && Compatible(a, b, codec) && Compatible(b, a, codec) && !Complete(a, codec)
            && AreWinners(map[], CandidatesOf(a, codec)) && AreWinners(map[], CandidatesOf(b, codec))
            && AreWinners(x, CandidatesOf(m, codec)) && x != Merged(map[], map[])
  {
    hide AreWinners, Merged, ConfigKey, Describes, CandidatesOf, Complete, Candidate;
    var e := ConfigEntry(ConfigKey(record, id), record.authorId, record);
    LoneEntry(e, id, bytes, codec);
    OneWinner(ProjectedConfig(id, record, bytes));
  }

  /** Why keys must be separate: an entry that does not belong under its key can replace the one that
      does, and then a winner of one part is gone although no content was lost. */
  lemma MisplacedEntryHides(e: ConfigEntry, f: ConfigEntry, id: RevisionId, bytes: Bytes, codec: Codec)
    requires CollisionFreeConfigs(codec) && codec.id(e.record) == Some(id)
    requires WellKeyed(e, codec) && Describes(e.record, bytes, codec) && f.key == e.key && f != e
    ensures var blobs := map[id := bytes];
            var a, b, m := Store([e], blobs), Store([f], map[]), Store([f], blobs);
            && IsMerge(m, a, b) && Complete(a, codec) && !Separate(a, b, codec)
            && CandidatesOf(a, codec) == {ProjectedConfig(id, e.record, bytes)} && CandidatesOf(m, codec) == {}
  {
    hide ConfigKey, Describes, CollisionFreeConfigs;
    LoneEntry(e, id, bytes, codec);
    if WellKeyed(f, codec) { KeyNamesEntry(e, f, codec); }
    assert e in [e] && f in [f];
  }
}
