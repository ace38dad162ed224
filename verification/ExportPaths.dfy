/** Exporting notes to files: which notes, in which order, and the path each one gets. */
module ExportPaths {
  import opened Results
  import opened Strings
  import opened Sorting
  import opened Decimals
  import opened FrontmatterValues

  /** The parts of a path under the export's destination. */
  datatype Path = Path(item: string, year: string, month: string, file: string)

  datatype Directory = Directory(item: string, year: string, month: string)

  datatype ExportError = InvalidValue(id: string) | Unrenderable(id: string)

  /** What the host computes: slugs, the text of a note, and whether a body is encrypted. */
  datatype Host = Host(
    slugify: string -> string,
    render: (Frontmatter, string) -> Option<string>,
    encrypted: string -> bool)

  // ----- Allocation ---------------------------------------------------------------------------------------

  function FileName(slug: string, suffix: nat): string {
    if suffix == 0 then slug + ".md" else slug + "-" + PrintNat(suffix) + ".md"
  }

  function Candidate(d: Directory, slug: string, suffix: nat): Path {
    Path(d.item, d.year, d.month, FileName(slug, suffix))
  }

  lemma CandidateInjective(d: Directory, slug: string, j: nat, k: nat)
    requires Candidate(d, slug, j) == Candidate(d, slug, k)
    ensures j == k
  {
    hide PrintNat;
    var a, b := FileName(slug, j), FileName(slug, k);
    if j != 0 && k != 0 {
      assert a[|slug| + 1..|a| - 3] == PrintNat(j) && b[|slug| + 1..|b| - 3] == PrintNat(k);
      PrintNatInjective(j, k);
    }
  }

  predicate Taken(d: Directory, slug: string, used: set<Path>, k: nat) {
    forall j :: 0 <= j < k ==> Candidate(d, slug, j) in used
  }

  function FirstCandidates(d: Directory, slug: string, k: nat): set<Path> {
    if k == 0 then {} else FirstCandidates(d, slug, k - 1) + {Candidate(d, slug, k - 1)}
  }

  lemma {:induction false} FirstCandidatesCount(d: Directory, slug: string, k: nat)
    ensures |FirstCandidates(d, slug, k)| == k
    ensures forall p :: p in FirstCandidates(d, slug, k) ==> exists j :: 0 <= j < k && p == Candidate(d, slug, j)
  {
    hide Candidate;
    if k > 0 {
      FirstCandidatesCount(d, slug, k - 1);
      if Candidate(d, slug, k - 1) in FirstCandidates(d, slug, k - 1) {
        var j :| 0 <= j < k - 1 && Candidate(d, slug, k - 1) == Candidate(d, slug, j);
        CandidateInjective(d, slug, k - 1, j);
      }
    }
  }

  /** Only as many suffixes can be taken as there are used paths. */
  lemma TakenBounded(d: Directory, slug: string, used: set<Path>, k: nat)
    requires Taken(d, slug, used, k)
    ensures k <= |used|
  {
    FirstCandidatesCount(d, slug, k);
    var first := FirstCandidates(d, slug, k);
    assert first <= used;
    Cardinality(first, used);
  }

  lemma {:induction false} Cardinality<T>(a: set<T>, b: set<T>)
    requires a <= b
    ensures |a| <= |b|
    decreases a
  {
    if a != {} {
      var x :| x in a;
      Cardinality(a - {x}, b - {x});
    }
  }

  /** The smallest suffix, from `k` on, whose path is free. */
  function FreeSuffix(d: Directory, slug: string, used: set<Path>, k: nat): (r: nat)
    requires Taken(d, slug, used, k)
    ensures Taken(d, slug, used, r) && Candidate(d, slug, r) !in used
    ensures k <= r <= |used|
    decreases |used| - k
  {
    TakenBounded(d, slug, used, k);
    if Candidate(d, slug, k) !in used then k
    else
      TakenBounded(d, slug, used, k + 1);
      FreeSuffix(d, slug, used, k + 1)
  }

  function FreePath(d: Directory, slug: string, used: set<Path>): Path {
    Candidate(d, slug, FreeSuffix(d, slug, used, 0))
  }

  /** `allocate_export_path`: it ends within as many suffixes as there are used paths, on the
      smallest one that is free. */
  method AllocateExportPath(d: Directory, slug: string, used: set<Path>) returns (path: Path, after: set<Path>)
    ensures exists k :: 0 <= k <= |used| && path == Candidate(d, slug, k) && Taken(d, slug, used, k)
    ensures path !in used && after == used + {path}
    ensures path == FreePath(d, slug, used)
  {
    hide Candidate;
    var suffix := 0;
    while Candidate(d, slug, suffix) in used
      invariant Taken(d, slug, used, suffix)
      invariant FreeSuffix(d, slug, used, 0) == FreeSuffix(d, slug, used, suffix)
      decreases |used| - suffix
    {
      TakenBounded(d, slug, used, suffix + 1);
      suffix := suffix + 1;
    }
    TakenBounded(d, slug, used, suffix);
    path := Candidate(d, slug, suffix);
    after := used + {path};
  }

  // ----- Where a note goes --------------------------------------------------------------------------------

  function Text(note: Note, field: string): Option<string> {
    if field in note.frontmatter && note.frontmatter[field].Str? then Some(note.frontmatter[field].text) else None
  }

  function TextOr(note: Note, field: string, default': string): string {
    match Text(note, field)
    case Some(text) => text
    case None => default'
  }

  function SafeComponent(value: string, fallback: string, host: Host): string {
    var slug := host.slugify(value);
    if slug == "" then fallback else slug
  }

  predicate AllDigits(s: string) {
    forall i :: 0 <= i < |s| ==> '0' <= s[i] <= '9'
  }

  /** The year and month of the creation time, when it begins like an ISO date. */
  function YearMonth(note: Note): (string, string) {
    match Text(note, "created")
    case None => ("unknown", "unknown")
    case Some(created) =>
      if |created| >= 7 && AllDigits(created[..4]) && created[4] == '-' && AllDigits(created[5..7]) then
        (created[..4], created[5..7])
      else ("unknown", "unknown")
  }

  function Place(note: Note, host: Host): Directory {
    Directory(SafeComponent(TextOr(note, "type", "note"), "note", host), YearMonth(note).0, YearMonth(note).1)
  }

  function Slug(note: Note, host: Host): string {
    SafeComponent(host.slugify(TextOr(note, "title", note.id)), "untitled", host)
  }

  /** Identity fields stay inside the workspace; an encrypted body keeps its identifier. */
  function Exported(note: Note, host: Host): Frontmatter {
    var kept := note.frontmatter - {"id", "type", "created"};
    if host.encrypted(note.body) then kept["id" := Str(note.id)] else kept
  }

  function SortKey(note: Note): seq<string> {
    [TextOr(note, "type", "note"), TextOr(note, "created", ""), TextOr(note, "title", note.id), note.id]
  }

  predicate KeysNotAfter(a: seq<string>, b: seq<string>) {
    a == [] || (b != [] && (Less(a[0], b[0]) || (a[0] == b[0] && KeysNotAfter(a[1..], b[1..]))))
  }

  function ByKey(): (Note, Note) -> bool {
    (a, b) => KeysNotAfter(SortKey(a), SortKey(b))
  }

  // ----- The export ---------------------------------------------------------------------------------------

  predicate Included(note: Note, typeFilter: Option<string>) {
    typeFilter.Some? ==> TextOr(note, "type", "note") == typeFilter.value
  }

  function Selected(notes: seq<Note>, typeFilter: Option<string>): (r: seq<Note>)
    ensures forall note :: note in r <==> note in notes && Included(note, typeFilter)
  {
    if notes == [] then []
    else
      var rest := Selected(notes[1..], typeFilter);
      assert notes == [notes[0]] + notes[1..];
      if Included(notes[0], typeFilter) then [notes[0]] + rest else rest
  }

  predicate Storable(note: Note) {
    forall k | k in note.frontmatter :: Finite(note.frontmatter[k])
  }

  datatype ExportFile = ExportFile(path: Path, content: string)

  function Files(notes: seq<Note>, used: set<Path>, host: Host): Result<seq<ExportFile>, ExportError> {
    if notes == [] then Ok([])
    else
      var note := notes[0];
      var content := host.render(Exported(note, host), note.body);
      if !Storable(note) then Err(InvalidValue(note.id))
      else if content.None? then Err(Unrenderable(note.id))
      else
        var path := FreePath(Place(note, host), Slug(note, host), used);
        var rest :- Files(notes[1..], used + {path}, host);
        Ok([ExportFile(path, content.value)] + rest)
  }

  function Export(notes: seq<Note>, typeFilter: Option<string>, host: Host): Result<seq<ExportFile>, ExportError> {
    Files(SortBy(Selected(notes, typeFilter), ByKey()), {}, host)
  }

  /** `export_notes`, up to the writing of the files. */
  method ExportNotes(notes: seq<Note>, typeFilter: Option<string>, host: Host)
    returns (r: Result<seq<ExportFile>, ExportError>)
    ensures r == Export(notes, typeFilter, host)
  {
    hide FreePath, KeysNotAfter, Included, Place, Slug, Exported, Storable, Candidate, Taken;
    var sorted := SortBy(Selected(notes, typeFilter), ByKey());
    var used: set<Path> := {};
    var files: seq<ExportFile> := [];
    assert sorted[0..] == sorted;
    PrependedNone(Files(sorted, {}, host));
    for i := 0 to |sorted|
      invariant Files(sorted, {}, host) == Prepended(files, Files(sorted[i..], used, host))
    {
      var note := sorted[i];
      if !Storable(note) {
        return Err(InvalidValue(note.id));
      }
      ghost var before := used;
      var path;
      path, used := AllocateExportPath(Place(note, host), Slug(note, host), used);
      var content := host.render(Exported(note, host), note.body);
      if content.None? {
        return Err(Unrenderable(note.id));
      }
      assert sorted[i..][1..] == sorted[i + 1..];
      assert Files(sorted[i..], before, host)
        == Prepended([ExportFile(path, content.value)], Files(sorted[i + 1..], used, host));
      PrependedTwice(files, ExportFile(path, content.value), Files(sorted[i + 1..], used, host));
      files := files + [ExportFile(path, content.value)];
    }
    assert files + [] == files;
    return Ok(files);
  }

  ghost function Prepended(files: seq<ExportFile>, r: Result<seq<ExportFile>, ExportError>)
    : Result<seq<ExportFile>, ExportError>
  {
    match r
    case Ok(more) => Ok(files + more)
    case Err(e) => Err(e)
  }

  lemma PrependedNone(r: Result<seq<ExportFile>, ExportError>)
    ensures Prepended([], r) == r
  {
    if r.Ok? {
      assert [] + r.value == r.value;
    }
  }

  lemma PrependedTwice(files: seq<ExportFile>, file: ExportFile, r: Result<seq<ExportFile>, ExportError>)
    ensures Prepended(files, Prepended([file], r)) == Prepended(files + [file], r)
  {
    if r.Ok? {
      assert files + ([file] + r.value) == files + [file] + r.value;
    }
  }

  predicate UsedBefore(path: Path, used: set<Path>, files: seq<ExportFile>, i: nat)
    requires i <= |files|
  {
    path in used || exists j :: 0 <= j < i && files[j].path == path
  }

  /** Each file takes the smallest suffix that no path before it has. */
  lemma {:induction false} SuffixIsSmallest(notes: seq<Note>, used: set<Path>, host: Host, i: nat) returns (k: nat)
    requires Files(notes, used, host).Ok? && i < |Files(notes, used, host).value|
    ensures |Files(notes, used, host).value| == |notes|
    ensures var files := Files(notes, used, host).value;
            && files[i].path == Candidate(Place(notes[i], host), Slug(notes[i], host), k)
            && !UsedBefore(files[i].path, used, files, i)
            && (forall j :: 0 <= j < k ==>
                  UsedBefore(Candidate(Place(notes[i], host), Slug(notes[i], host), j), used, files, i))
  {
    hide Candidate, Exported, Place, Slug, Storable;
    PathsDistinct(notes, used, host);
    var files := Files(notes, used, host).value;
    if i == 0 {
      k := FreeSuffix(Place(notes[0], host), Slug(notes[0], host), used, 0);
    } else {
      var path := FreePath(Place(notes[0], host), Slug(notes[0], host), used);
      k := SuffixIsSmallest(notes[1..], used + {path}, host, i - 1);
      var d, slug := Place(notes[i], host), Slug(notes[i], host);
      assert files == [files[0]] + files[1..] && files[0].path == path;
      forall j | 0 <= j < k ensures UsedBefore(Candidate(d, slug, j), used, files, i) {
        var c := Candidate(d, slug, j);
        assert UsedBefore(c, used + {path}, files[1..], i - 1);
        if c !in used && c != path {
          var l :| 0 <= l < i - 1 && files[1..][l].path == c;
          assert files[l + 1].path == c;
        }
      }
    }
  }

  /** Every note gets a file of its own, in order. */
  lemma {:induction false} PathsDistinct(notes: seq<Note>, used: set<Path>, host: Host)
    requires Files(notes, used, host).Ok?
    ensures var files := Files(notes, used, host).value;
            && |files| == |notes|
            && (forall i :: 0 <= i < |files| ==> files[i].path !in used)
            && (forall i, j :: 0 <= i < j < |files| ==> files[i].path != files[j].path)
  {
    hide FreeSuffix, Exported, Place, Slug;
    if notes != [] {
      var path := FreePath(Place(notes[0], host), Slug(notes[0], host), used);
      PathsDistinct(notes[1..], used + {path}, host);
      assert path !in used;
    }
  }

  // ----- The order of the listing does not matter ----------------------------------------------------------

  lemma {:induction false} KeysTotal(a: seq<string>, b: seq<string>)
    ensures KeysNotAfter(a, b) || KeysNotAfter(b, a)
    ensures KeysNotAfter(a, b) && KeysNotAfter(b, a) ==> a == b
  {
    hide Less;
    if a != [] && b != [] {
      LessTotal(a[0], b[0]);
      LessIrreflexive(a[0]);
      if Less(a[0], b[0]) && Less(b[0], a[0]) {
        LessTransitive(a[0], b[0], a[0]);
      }
      KeysTotal(a[1..], b[1..]);
      if a[0] == b[0] && a[1..] == b[1..] {
        assert a == [a[0]] + a[1..] && b == [b[0]] + b[1..];
      }
    }
  }

  lemma {:induction false} KeysTransitive(a: seq<string>, b: seq<string>, c: seq<string>)
    requires KeysNotAfter(a, b) && KeysNotAfter(b, c)
    ensures KeysNotAfter(a, c)
  {
    hide Less;
    if a != [] {
      if Less(a[0], b[0]) && Less(b[0], c[0]) {
        LessTransitive(a[0], b[0], c[0]);
      }
      if a[0] == b[0] == c[0] && !Less(a[0], b[0]) && !Less(b[0], c[0]) {
        KeysTransitive(a[1..], b[1..], c[1..]);
      }
    }
  }

  lemma ByKeyIsTotal()
    ensures TotalPreorder(ByKey())
  {
    hide KeysNotAfter, SortKey;
    forall a, b ensures KeysNotAfter(SortKey(a), SortKey(b)) || KeysNotAfter(SortKey(b), SortKey(a)) {
      KeysTotal(SortKey(a), SortKey(b));
    }
    forall a, b, c | KeysNotAfter(SortKey(a), SortKey(b)) && KeysNotAfter(SortKey(b), SortKey(c))
      ensures KeysNotAfter(SortKey(a), SortKey(c))
    {
      KeysTransitive(SortKey(a), SortKey(b), SortKey(c));
    }
  }

  lemma {:induction false} SelectedKeeps(notes: seq<Note>, typeFilter: Option<string>, note: Note)
    ensures multiset(Selected(notes, typeFilter))[note]
         == if Included(note, typeFilter) then multiset(notes)[note] else 0
  {
    hide Included;
    if notes != [] {
      assert notes == [notes[0]] + notes[1..];
      SelectedKeeps(notes[1..], typeFilter, note);
    }
  }

  /** With distinct identifiers the export depends only on which notes there are. */
  lemma ExportIgnoresOrder(notes: seq<Note>, listed: seq<Note>, typeFilter: Option<string>, host: Host)
    requires multiset(notes) == multiset(listed)
    requires forall i, j :: 0 <= i < j < |notes| ==> notes[i].id != notes[j].id
    ensures Export(notes, typeFilter, host) == Export(listed, typeFilter, host)
  {
    hide Files, KeysNotAfter, Included, SortKey;
    var a, b := Selected(notes, typeFilter), Selected(listed, typeFilter);
    forall note ensures multiset(a)[note] == multiset(b)[note] {
      SelectedKeeps(notes, typeFilter, note);
      SelectedKeeps(listed, typeFilter, note);
    }
    assert multiset(a) == multiset(b);
    ByKeyIsTotal();
    SortBySorted(a, ByKey());
    SortBySorted(b, ByKey());
    SelectedStrict(notes, typeFilter);
    SameElements(SortBy(a, ByKey()), a);
    SortedUnique(SortBy(a, ByKey()), SortBy(b, ByKey()), ByKey());
  }

  lemma SelectedStrict(notes: seq<Note>, typeFilter: Option<string>)
    requires forall i, j :: 0 <= i < j < |notes| ==> notes[i].id != notes[j].id
    ensures AntisymmetricOn(Selected(notes, typeFilter), ByKey())
  {
    hide KeysNotAfter, Included;
    var selected := Selected(notes, typeFilter);
    forall a, b | a in selected && b in selected && KeysNotAfter(SortKey(a), SortKey(b))
      && KeysNotAfter(SortKey(b), SortKey(a))
      ensures a == b
    {
      KeysTotal(SortKey(a), SortKey(b));
      assert SortKey(a)[3] == a.id && SortKey(b)[3] == b.id;
      var i :| 0 <= i < |notes| && notes[i] == a;
      var j :| 0 <= j < |notes| && notes[j] == b;
    }
  }
}
