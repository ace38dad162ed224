/** What an export writes, note by note: which notes, in which order, where each one goes and what is in it. */
module ExportMeaning {
  import opened Results
  import opened Strings
  import opened Sorting
  import opened Decimals
  import opened FrontmatterValues
  import opened ExportPaths

  /** The text of a field, or another text if the field is missing or not a text. */
  predicate Says(note: Note, field: string, otherwise: string, value: string) {
    if field in note.frontmatter && note.frontmatter[field].Str? then value == note.frontmatter[field].text
    else value == otherwise
  }

  predicate IsDigit(c: char) {
    c in "0123456789"
  }

  /** Year and month are the first parts of a creation time that begins like an ISO date. */
  predicate InMonth(note: Note, year: string, month: string) {
    var dated := && "created" in note.frontmatter && note.frontmatter["created"].Str?
                 && var t := note.frontmatter["created"].text;
                    && |t| >= 7 && IsDigit(t[0]) && IsDigit(t[1]) && IsDigit(t[2]) && IsDigit(t[3]) && t[4] == '-'
                    && IsDigit(t[5]) && IsDigit(t[6]);
    if dated then
      var t := note.frontmatter["created"].text;
      year == [t[0], t[1], t[2], t[3]] && month == [t[5], t[6]]
    else year == "unknown" && month == "unknown"
  }

  predicate Slugged(value: string, fallback: string, host: Host, slug: string) {
    if host.slugify(value) == "" then slug == fallback else slug == host.slugify(value)
  }

  /** The name of a file: the slug of the title, then the number that keeps it apart from others. */
  ghost predicate Named(note: Note, host: Host, file: string) {
    exists title, slug, k: nat ::
      && Says(note, "title", note.id, title) && Slugged(host.slugify(title), "untitled", host, slug)
      && file == if k == 0 then slug + ".md" else slug + "-" + PrintNat(k) + ".md"
  }

  /** Everything but `id`, `type` and `created`; and the identifier after all if the body is encrypted. */
  ghost predicate Keeps(note: Note, host: Host, frontmatter: Frontmatter) {
    forall key ::
      && (key in frontmatter <==>
            || (key in note.frontmatter && key != "id" && key != "type" && key != "created")
            || (key == "id" && host.encrypted(note.body)))
      && (key in frontmatter ==>
            frontmatter[key] == if key == "id" then Str(note.id) else note.frontmatter[key])
  }

  ghost predicate Writes(note: Note, host: Host, file: ExportFile) {
    && (exists kind :: Says(note, "type", "note", kind) && Slugged(kind, "note", host, file.path.item))
    && InMonth(note, file.path.year, file.path.month)
    && Named(note, host, file.path.file)
    && (exists frontmatter ::
          Keeps(note, host, frontmatter) && host.render(frontmatter, note.body) == Some(file.content))
  }

  lemma TextSays(note: Note, field: string, otherwise: string)
    ensures Says(note, field, otherwise, TextOr(note, field, otherwise))
  {
  }

  lemma DigitExactly(c: char)
    ensures IsDigit(c) <==> '0' <= c <= '9'
  {
  }

  lemma DigitsExactly(t: string)
    requires |t| >= 7
    ensures AllDigits(t[..4]) <==> IsDigit(t[0]) && IsDigit(t[1]) && IsDigit(t[2]) && IsDigit(t[3])
    ensures AllDigits(t[5..7]) <==> IsDigit(t[5]) && IsDigit(t[6])
  {
    hide IsDigit;
    forall c ensures IsDigit(c) <==> '0' <= c <= '9' {
      DigitExactly(c);
    }
    assert t[..4] == [t[0], t[1], t[2], t[3]] && t[5..7] == [t[5], t[6]];
  }

  lemma MonthExactly(note: Note)
    ensures InMonth(note, YearMonth(note).0, YearMonth(note).1)
  {
    hide IsDigit, AllDigits;
    if "created" in note.frontmatter && note.frontmatter["created"].Str? {
      var t := note.frontmatter["created"].text;
      if |t| >= 7 {
        DigitsExactly(t);
        assert t[..4] == [t[0], t[1], t[2], t[3]] && t[5..7] == [t[5], t[6]];
      }
    }
  }

  lemma ExportedKeeps(note: Note, host: Host)
    ensures Keeps(note, host, Exported(note, host))
  {
  }

  lemma NamedAs(note: Note, host: Host, title: string, slug: string, k: nat)
    requires Says(note, "title", note.id, title) && Slugged(host.slugify(title), "untitled", host, slug)
    ensures Named(note, host, FileName(slug, k))
  {
    hide PrintNat, Says, Slugged;
  }

  lemma CandidateIsNamed(note: Note, host: Host, k: nat)
    ensures Named(note, host, Candidate(Place(note, host), Slug(note, host), k).file)
  {
    var title := TextOr(note, "title", note.id);
    TextSays(note, "title", note.id);
    var slug := Slug(note, host);
    assert Slugged(host.slugify(title), "untitled", host, slug);
    NamedAs(note, host, title, slug, k);
  }

  lemma FileWrites(note: Note, host: Host, k: nat, content: string)
    requires host.render(Exported(note, host), note.body) == Some(content)
    ensures Writes(note, host, ExportFile(Candidate(Place(note, host), Slug(note, host), k), content))
  {
    hide Exported, YearMonth, InMonth, Named, Keeps, FileName;
    TextSays(note, "type", "note");
    assert Slugged(TextOr(note, "type", "note"), "note", host, Place(note, host).item);
    MonthExactly(note);
    CandidateIsNamed(note, host, k);
    ExportedKeeps(note, host);
  }

  ghost predicate Exportable(note: Note, host: Host) {
    && (forall key :: key in note.frontmatter ==> Finite(note.frontmatter[key]))
    && forall frontmatter :: Keeps(note, host, frontmatter) ==> host.render(frontmatter, note.body).Some?
  }

  lemma KeepsOnce(note: Note, host: Host, f: Frontmatter, g: Frontmatter)
    requires Keeps(note, host, f) && Keeps(note, host, g)
    ensures f == g
  {
    assert forall key :: key in f <==> key in g;
    assert f.Keys == g.Keys;
  }

  lemma ExportableExactly(note: Note, host: Host)
    ensures Exportable(note, host) <==> Storable(note) && host.render(Exported(note, host), note.body).Some?
  {
    hide Keeps, Exported;
    ExportedKeeps(note, host);
    forall f | Keeps(note, host, f) ensures f == Exported(note, host) {
      KeepsOnce(note, host, f, Exported(note, host));
    }
  }

  lemma {:induction false} FilesWrite(notes: seq<Note>, used: set<Path>, host: Host)
    ensures Files(notes, used, host).Ok? <==> forall i :: 0 <= i < |notes| ==> Exportable(notes[i], host)
    ensures Files(notes, used, host).Ok? ==>
              var files := Files(notes, used, host).value;
              |files| == |notes| && forall i :: 0 <= i < |notes| ==> Writes(notes[i], host, files[i])
  {
    hide Writes, Exportable, Exported, Place, Slug, Storable, Candidate, FreeSuffix;
    if notes != [] {
      var note := notes[0];
      var path := FreePath(Place(note, host), Slug(note, host), used);
      ExportableExactly(note, host);
      FilesWrite(notes[1..], used + {path}, host);
      if Files(notes, used, host).Ok? {
        FileWrites(note, host, FreeSuffix(Place(note, host), Slug(note, host), used, 0),
                   host.render(Exported(note, host), note.body).value);
      }
    }
  }

  /** The order of the export: by type, creation time, title and identifier. */
  ghost predicate Precedes(a: Note, b: Note) {
    exists s, t, u, x, y, z ::
      && Says(a, "type", "note", s) && Says(a, "created", "", t) && Says(a, "title", a.id, u)
      && Says(b, "type", "note", x) && Says(b, "created", "", y) && Says(b, "title", b.id, z)
      && if s != x then Less(s, x) else if t != y then Less(t, y) else if u != z then Less(u, z)
         else a.id == b.id || Less(a.id, b.id)
  }

  lemma KeyPrecedes(a: Note, b: Note)
    requires KeysNotAfter(SortKey(a), SortKey(b))
    ensures Precedes(a, b)
  {
    hide Less;
    var k, l := SortKey(a), SortKey(b);
    TextSays(a, "type", "note");
    TextSays(a, "created", "");
    TextSays(a, "title", a.id);
    TextSays(b, "type", "note");
    TextSays(b, "created", "");
    TextSays(b, "title", b.id);
    FourKeys(k, l);
  }

  lemma FourKeys(k: seq<string>, l: seq<string>)
    requires |k| == 4 && |l| == 4 && KeysNotAfter(k, l)
    ensures if k[0] != l[0] then Less(k[0], l[0]) else if k[1] != l[1] then Less(k[1], l[1])
            else if k[2] != l[2] then Less(k[2], l[2]) else k[3] == l[3] || Less(k[3], l[3])
  {
    hide Less;
    LessIrreflexive(k[0]);
    LessIrreflexive(k[1]);
    LessIrreflexive(k[2]);
    assert k[1..][1..] == k[2..] && l[1..][1..] == l[2..] && k[2..][1..] == k[3..] && l[2..][1..] == l[3..];
    if k[0] == l[0] {
      assert KeysNotAfter(k[1..], l[1..]);
      if k[1] == l[1] {
        assert KeysNotAfter(k[2..], l[2..]);
        if k[2] == l[2] {
          assert KeysNotAfter(k[3..], l[3..]);
        }
      }
    }
  }

  ghost predicate Chosen(note: Note, typeFilter: Option<string>) {
    typeFilter == None || Says(note, "type", "note", typeFilter.value)
  }

  /** An export succeeds exactly when every chosen note can be written; then there is one file for each of them,
      in the order of the export, in the right place and with the right content. */
  lemma ExportWrites(notes: seq<Note>, typeFilter: Option<string>, host: Host) returns (arranged: seq<Note>)
    ensures Export(notes, typeFilter, host).Ok?
            <==> forall note :: note in notes && Chosen(note, typeFilter) ==> Exportable(note, host)
    ensures forall note :: note in arranged <==> note in notes && Chosen(note, typeFilter)
    ensures forall i, j :: 0 <= i < j < |arranged| ==> Precedes(arranged[i], arranged[j])
    ensures Export(notes, typeFilter, host).Ok? ==>
              var files := Export(notes, typeFilter, host).value;
              |files| == |arranged| && forall i :: 0 <= i < |arranged| ==> Writes(arranged[i], host, files[i])
  {
    hide Precedes, Writes, Exportable, Files, SortBy, Chosen, Included, ByKey;
    var chosen := Selected(notes, typeFilter);
    arranged := SortBy(chosen, ByKey());
    SameElements(arranged, chosen);
    ArrangedInOrder(chosen, arranged);
    FilesWrite(arranged, {}, host);
    forall note ensures note in arranged <==> note in notes && Chosen(note, typeFilter) {
      ChosenExactly(note, typeFilter);
    }
    AllOfThem(arranged, host);
  }

  lemma ChosenExactly(note: Note, typeFilter: Option<string>)
    ensures Chosen(note, typeFilter) <==> Included(note, typeFilter)
  {
    TextSays(note, "type", "note");
  }

  lemma AllOfThem(notes: seq<Note>, host: Host)
    ensures (forall i :: 0 <= i < |notes| ==> Exportable(notes[i], host))
            <==> forall note :: note in notes ==> Exportable(note, host)
  {
    hide Exportable;
    forall i | 0 <= i < |notes| ensures notes[i] in notes {
    }
  }

  lemma ArrangedInOrder(chosen: seq<Note>, arranged: seq<Note>)
    requires arranged == SortBy(chosen, ByKey())
    ensures forall i, j :: 0 <= i < j < |arranged| ==> Precedes(arranged[i], arranged[j])
  {
    hide KeysNotAfter, SortKey, Precedes;
    ByKeyIsTotal();
    SortBySorted(chosen, ByKey());
    forall i, j | 0 <= i < j < |arranged| ensures Precedes(arranged[i], arranged[j]) {
      assert ByKey()(arranged[i], arranged[j]);
      KeyPrecedes(arranged[i], arranged[j]);
    }
  }
}
