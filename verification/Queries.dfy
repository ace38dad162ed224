/** Querying the notes of a workspace: matching, the sorted and bounded result, and the native
    client's reversal of what it shows. */
module Queries {
  import opened Sequences
  import opened Integers
  import opened Results
  import opened Strings
  import opened Sorting
  import opened Decimals
  import opened Lexer
  import opened FrontmatterValues
  import opened Behavior

  /** What the host decides about text: lower-casing, and printing floats and mappings. */
  datatype Text = Text(lower: string -> string, float: F64 -> string, mapping: Frontmatter -> string)

  datatype Query = Query(
    view: string,
    subview: Option<string>,
    title: Option<string>,
    tags: set<string>,
    limit: Option<Usize>)

  // ----- Fields and matching ------------------------------------------------------------------------------

  function Join(parts: seq<string>): string {
    if parts == [] then [] else if |parts| == 1 then parts[0] else parts[0] + ", " + Join(parts[1..])
  }

  function Display(value: FrontmatterValue, text: Text): string {
    match value
    case Null => ""
    case Bool(flag) => if flag then "true" else "false"
    case Integer(n) => PrintInt(n)
    case Float(f) => text.float(f)
    case Str(s) => s
    case Sequence(values) => Join(seq(|values|, i requires 0 <= i < |values| => Display(values[i], text)))
    case Mapping(entries) => text.mapping(entries)
  }

  function Field(note: Note, name: string, text: Text): string {
    if name == "id" then note.id
    else if name == "path" then note.path
    else if name in note.frontmatter then Display(note.frontmatter[name], text)
    else ""
  }

  function Split(s: string): (parts: seq<string>)
    ensures parts != []
  {
    if s == [] then [""]
    else
      var parts := Split(s[1..]);
      if s[0] == ',' then [""] + parts else [[s[0]] + parts[0]] + parts[1..]
  }

  function Trim(s: string): string {
    if s != [] && IsWhitespace(s[0]) then Trim(s[1..])
    else if s != [] && IsWhitespace(s[|s| - 1]) then Trim(s[..|s| - 1])
    else s
  }

  function Unsplit(parts: seq<string>): string {
    if parts == [] then [] else if |parts| == 1 then parts[0] else parts[0] + "," + Unsplit(parts[1..])
  }

  /** Splitting loses nothing but the commas, and leaves none. */
  lemma {:induction false} SplitExactly(s: string)
    ensures Unsplit(Split(s)) == s
    ensures forall i, k :: 0 <= i < |Split(s)| && 0 <= k < |Split(s)[i]| ==> Split(s)[i][k] != ','
  {
    if s != [] {
      SplitExactly(s[1..]);
      var parts := Split(s[1..]);
      assert s == [s[0]] + s[1..];
      if s[0] == ',' {
        assert Split(s)[1..] == parts;
      } else {
        assert Split(s)[1..] == parts[1..];
        assert parts == [parts[0]] + parts[1..];
      }
    }
  }

  /** Trimming takes white space from both ends, and all of it. */
  lemma {:induction false} TrimExactly(s: string) returns (before: string, after: string)
    ensures s == before + Trim(s) + after && AllWhitespace(before) && AllWhitespace(after)
    ensures Trim(s) != [] ==> !IsWhitespace(Trim(s)[0]) && !IsWhitespace(Trim(s)[|Trim(s)| - 1])
  {
    hide IsWhitespace;
    if s != [] && IsWhitespace(s[0]) {
      var rest := s[1..];
      var inner;
      inner, after := TrimExactly(rest);
      before := [s[0]] + inner;
      assert s == [s[0]] + rest;
      assert before + Trim(rest) + after == [s[0]] + (inner + Trim(rest) + after);
    } else if s != [] && IsWhitespace(s[|s| - 1]) {
      var front := s[..|s| - 1];
      var inner;
      before, inner := TrimExactly(front);
      after := inner + [s[|s| - 1]];
      assert s == front + [s[|s| - 1]];
      assert before + Trim(front) + after == before + Trim(front) + inner + [s[|s| - 1]];
    } else {
      before, after := "", "";
    }
  }

  function Tags(note: Note): set<string> {
    if "tags" !in note.frontmatter then {}
    else
      match note.frontmatter["tags"]
      case Sequence(values) => set value | value in values && value.Str? :: value.text
      case Str(text) => set part | part in Split(text) && Trim(part) != "" :: Trim(part)
      case _ => {}
  }

  predicate Matches(p: Predicate, note: Note, text: Text) {
    match p
    case Always => true
    case FieldEquals(field, value) => Field(note, field, text) == value
    case HasTag(tag) => tag in Tags(note)
    case Not(condition) => !Matches(condition, note, text)
    case AllOf(predicates) => forall i | 0 <= i < |predicates| :: Matches(predicates[i], note, text)
    case AnyOf(predicates) => exists i | 0 <= i < |predicates| :: Matches(predicates[i], note, text)
  }

  predicate Contains(s: string, needle: string) {
    needle <= s || (s != [] && Contains(s[1..], needle))
  }

  /** The view and subview a query names, once found. */
  datatype Scope = Scope(view: Option<View>, subview: Option<Subview>)

  predicate Wanted(note: Note, scope: Scope, q: Query, text: Text) {
    && (scope.view.Some? ==> Matches(scope.view.value.condition, note, text))
    && (scope.subview.Some? ==> Matches(scope.subview.value.condition, note, text))
    && (q.title.Some? ==> Contains(text.lower(Field(note, "title", text)), text.lower(q.title.value)))
    && q.tags <= Tags(note)
  }

  function FindView(views: seq<View>, id: string): Option<View> {
    if views == [] then None else if views[0].id == id then Some(views[0]) else FindView(views[1..], id)
  }

  function FindSubview(subviews: seq<Subview>, id: string): Option<Subview> {
    if subviews == [] then None else if subviews[0].id == id then Some(subviews[0]) else FindSubview(subviews[1..], id)
  }

  function FindScope(w: Workspace, q: Query): Result<Scope, BehaviorError> {
    var view := if q.view == "" || q.view == "all" then None else FindView(w.views, q.view);
    if view.None? && q.view != "" && q.view != "all" then Err(UnknownView(q.view))
    else
      match q.subview
      case None => Ok(Scope(view, None))
      case Some(id) =>
        var subview := if view.Some? then FindSubview(view.value.subviews, id) else None;
        if subview.None? then Err(UnknownSubview(id)) else Ok(Scope(view, subview))
  }

  lemma {:induction false} ViewFound(views: seq<View>, id: string)
    ensures match FindView(views, id)
            case Some(view) => view in views && view.id == id
            case None => forall view :: view in views ==> view.id != id
  {
    if views != [] {
      assert views == [views[0]] + views[1..];
      ViewFound(views[1..], id);
    }
  }

  lemma {:induction false} SubviewFound(subviews: seq<Subview>, id: string)
    ensures match FindSubview(subviews, id)
            case Some(subview) => subview in subviews && subview.id == id
            case None => forall subview :: subview in subviews ==> subview.id != id
  {
    if subviews != [] {
      assert subviews == [subviews[0]] + subviews[1..];
      SubviewFound(subviews[1..], id);
    }
  }

  predicate LacksSubview(view: View, id: string) {
    forall subview :: subview in view.subviews ==> subview.id != id
  }

  predicate Everything(q: Query) {
    q.view == "" || q.view == "all"
  }

  /** A query runs exactly when the view and the subview it names exist, and then on those two. */
  lemma ScopeExactly(w: Workspace, q: Query)
    ensures match FindScope(w, q)
            case Ok(scope) =>
              && (if Everything(q) then scope.view == None
                  else scope.view.Some? && scope.view.value in w.views && scope.view.value.id == q.view)
              && (if q.subview == None then scope.subview == None
                  else scope.view.Some? && scope.subview.Some?
                       && scope.subview.value in scope.view.value.subviews && scope.subview.value.id == q.subview.value)
            case Err(UnknownView(id)) =>
              id == q.view && !Everything(q) && forall view :: view in w.views ==> view.id != id
            case Err(UnknownSubview(id)) =>
              && q.subview == Some(id)
              && (Everything(q) || exists view :: view in w.views && view.id == q.view && LacksSubview(view, id))
            case Err(_) => false
  {
    ViewFound(w.views, q.view);
    var view := FindView(w.views, q.view);
    if q.subview.Some? && view.Some? {
      SubviewFound(view.value.subviews, q.subview.value);
    }
  }

  // ----- The order ----------------------------------------------------------------------------------------

  predicate IndexItem(note: Note) {
    "index" in note.frontmatter && note.frontmatter["index"] == Bool(true)
  }

  predicate KeyNotAfter(a: Note, b: Note, field: string, text: Text) {
    var ka, kb := text.lower(Field(a, field, text)), text.lower(Field(b, field, text));
    Less(ka, kb) || (ka == kb && (Less(a.id, b.id) || a.id == b.id))
  }

  /** Index notes first, then the field and the identifier, reversed if descending. */
  predicate NotAfter(a: Note, b: Note, field: string, descending: bool, text: Text) {
    if IndexItem(a) != IndexItem(b) then IndexItem(a)
    else if descending then KeyNotAfter(b, a, field, text)
    else KeyNotAfter(a, b, field, text)
  }

  function Order(field: string, descending: bool, text: Text): (Note, Note) -> bool {
    (a, b) => NotAfter(a, b, field, descending, text)
  }

  function SortField(scope: Scope): string {
    if scope.subview.Some? && scope.subview.value.sortField.Some? then scope.subview.value.sortField.value
    else if scope.view.Some? && scope.view.value.sortField.Some? then scope.view.value.sortField.value
    else "created"
  }

  predicate Descending(scope: Scope) {
    scope.view.Some? && scope.view.value.descending
  }

  lemma KeyTotal(a: Note, b: Note, field: string, text: Text)
    ensures KeyNotAfter(a, b, field, text) || KeyNotAfter(b, a, field, text)
    ensures KeyNotAfter(a, b, field, text) && KeyNotAfter(b, a, field, text) ==> a.id == b.id
  {
    hide Less, Field;
    var ka, kb := text.lower(Field(a, field, text)), text.lower(Field(b, field, text));
    LessTotal(ka, kb);
    LessTotal(a.id, b.id);
    if Less(ka, kb) && Less(kb, ka) {
      LessTransitive(ka, kb, ka);
    }
    if Less(a.id, b.id) && Less(b.id, a.id) {
      LessTransitive(a.id, b.id, a.id);
    }
    LessIrreflexive(ka);
    LessIrreflexive(a.id);
  }

  lemma KeyTransitive(a: Note, b: Note, c: Note, field: string, text: Text)
    requires KeyNotAfter(a, b, field, text) && KeyNotAfter(b, c, field, text)
    ensures KeyNotAfter(a, c, field, text)
  {
    hide Less, Field;
    var ka, kb := text.lower(Field(a, field, text)), text.lower(Field(b, field, text));
    var kc := text.lower(Field(c, field, text));
    if Less(ka, kb) && Less(kb, kc) {
      LessTransitive(ka, kb, kc);
    }
    if Less(a.id, b.id) && Less(b.id, c.id) {
      LessTransitive(a.id, b.id, c.id);
    }
  }

  lemma OrderIsTotal(field: string, descending: bool, text: Text)
    ensures TotalPreorder(Order(field, descending, text))
  {
    hide KeyNotAfter, IndexItem;
    forall a, b ensures NotAfter(a, b, field, descending, text) || NotAfter(b, a, field, descending, text) {
      KeyTotal(a, b, field, text);
    }
    forall a, b, c | NotAfter(a, b, field, descending, text) && NotAfter(b, c, field, descending, text)
      ensures NotAfter(a, c, field, descending, text)
    {
      if IndexItem(a) == IndexItem(b) == IndexItem(c) {
        if descending {
          KeyTransitive(c, b, a, field, text);
        } else {
          KeyTransitive(a, b, c, field, text);
        }
      }
    }
  }

  predicate DistinctNotes(notes: seq<Note>) {
    forall i, j :: 0 <= i < j < |notes| ==> notes[i].id != notes[j].id
  }

  lemma OrderIsStrict(notes: seq<Note>, field: string, descending: bool, text: Text)
    requires DistinctNotes(notes)
    ensures AntisymmetricOn(notes, Order(field, descending, text))
  {
    hide KeyNotAfter, IndexItem;
    forall a, b | a in notes && b in notes && NotAfter(a, b, field, descending, text)
      && NotAfter(b, a, field, descending, text)
      ensures a == b
    {
      KeyTotal(a, b, field, text);
      var i :| 0 <= i < |notes| && notes[i] == a;
      var j :| 0 <= j < |notes| && notes[j] == b;
    }
  }

  // ----- The query ----------------------------------------------------------------------------------------

  function Filtered(notes: seq<Note>, scope: Scope, q: Query, text: Text): (r: seq<Note>)
    ensures forall note :: note in r <==> note in notes && Wanted(note, scope, q, text)
  {
    if notes == [] then []
    else
      var rest := Filtered(notes[1..], scope, q, text);
      assert notes == [notes[0]] + notes[1..];
      if Wanted(notes[0], scope, q, text) then [notes[0]] + rest else rest
  }

  function Min(a: nat, b: nat): nat {
    if a < b then a else b
  }

  function Limit(w: Workspace, q: Query): nat {
    if q.limit.Some? then Min(q.limit.value, w.queryLimit) else w.queryLimit
  }

  function Leading(notes: seq<Note>, order: (Note, Note) -> bool, limit: nat): seq<Note> {
    SortBy(notes, order)[..Min(limit, |notes|)]
  }

  function Answer(w: Workspace, notes: seq<Note>, q: Query, text: Text): Result<seq<Note>, BehaviorError> {
    var _ :- Validate(w);
    var scope :- FindScope(w, q);
    Ok(Leading(Filtered(notes, scope, q, text), Order(SortField(scope), Descending(scope), text), Limit(w, q)))
  }

  /** `WorkspaceBehavior::query`. */
  method RunQuery(w: Workspace, notes: seq<Note>, q: Query, text: Text) returns (r: Result<seq<Note>, BehaviorError>)
    ensures r == Answer(w, notes, q, text)
  {
    hide Wanted, Validate, NotAfter;
    var valid := Validate(w);
    if valid.Err? {
      return Err(valid.error);
    }
    var scope := FindScope(w, q);
    if scope.Err? {
      return Err(scope.error);
    }
    var result: seq<Note> := [];
    for i := 0 to |notes|
      invariant Filtered(notes, scope.value, q, text) == result + Filtered(notes[i..], scope.value, q, text)
    {
      assert notes[i..][1..] == notes[i + 1..];
      if Wanted(notes[i], scope.value, q, text) {
        result := result + [notes[i]];
      }
    }
    assert result + Filtered([], scope.value, q, text) == result;
    result := SortBy(result, Order(SortField(scope.value), Descending(scope.value), text));
    assert result == result[..|result|];
    if Limit(w, q) < |result| {
      result := result[..Limit(w, q)];
    }
    return Ok(result);
  }

  lemma {:induction false} FilteredDistinct(notes: seq<Note>, scope: Scope, q: Query, text: Text)
    requires DistinctNotes(notes)
    ensures DistinctNotes(Filtered(notes, scope, q, text))
  {
    hide Wanted;
    if notes != [] {
      FilteredDistinct(notes[1..], scope, q, text);
      forall note | note in Filtered(notes[1..], scope, q, text) ensures note.id != notes[0].id {
        var i :| 0 <= i < |notes[1..]| && notes[1..][i] == note;
        assert notes[i + 1] == note;
      }
    }
  }

  /** A query answers with the front of the only sorted arrangement of the matching notes. */
  lemma QueryIsSortedFront(w: Workspace, notes: seq<Note>, q: Query, text: Text, scope: Scope, arranged: seq<Note>)
    requires DistinctNotes(notes) && Validate(w).Ok? && FindScope(w, q) == Ok(scope)
    requires multiset(arranged) == multiset(Filtered(notes, scope, q, text))
    requires Sorted(arranged, Order(SortField(scope), Descending(scope), text))
    ensures Answer(w, notes, q, text) == Ok(arranged[..Min(Limit(w, q), |arranged|)])
  {
    hide Wanted, Validate, NotAfter, FindScope;
    var matching := Filtered(notes, scope, q, text);
    var order := Order(SortField(scope), Descending(scope), text);
    FilteredDistinct(notes, scope, q, text);
    OrderIsTotal(SortField(scope), Descending(scope), text);
    OrderIsStrict(matching, SortField(scope), Descending(scope), text);
    SortBySorted(matching, order);
    SameElements(SortBy(matching, order), matching);
    SameElements(arranged, matching);
    SortedUnique(SortBy(matching, order), arranged, order);
  }

  // ----- The native client's view --------------------------------------------------------------------------

  /** How many notes at the front are index notes. */
  function LeadingIndexed(notes: seq<Note>): (n: nat)
    ensures n <= |notes|
  {
    if notes == [] || !IndexItem(notes[0]) then 0 else 1 + LeadingIndexed(notes[1..])
  }

  /** Each priority group reversed, index notes still first. */
  function Regrouped(notes: seq<Note>): (r: seq<Note>)
    ensures |r| == |notes|
  {
    var n := LeadingIndexed(notes);
    Reversed(notes[..n]) + Reversed(notes[n..])
  }

  method ReverseSlice<T>(a: array<T>, lo: nat, hi: nat)
    requires lo <= hi <= a.Length
    modifies a
    ensures a[..] == old(a[..lo]) + Reversed(old(a[lo..hi])) + old(a[hi..])
  {
    ghost var before := a[..];
    for i := 0 to (hi - lo) / 2
      invariant forall k :: lo <= k < lo + i || hi - i <= k < hi ==> a[k] == before[lo + hi - 1 - k]
      invariant forall k :: 0 <= k < lo || lo + i <= k < hi - i || hi <= k < a.Length ==> a[k] == before[k]
    {
      a[lo + i], a[hi - 1 - i] := a[hi - 1 - i], a[lo + i];
    }
    forall k | lo <= k < hi ensures a[k] == before[lo + hi - 1 - k] {
    }
    SliceReversed(before, a[..], lo, hi);
  }

  lemma SliceReversed<T>(before: seq<T>, after: seq<T>, lo: nat, hi: nat)
    requires lo <= hi <= |before| == |after|
    requires forall k :: lo <= k < hi ==> after[k] == before[lo + hi - 1 - k]
    requires forall k :: 0 <= k < lo || hi <= k < |after| ==> after[k] == before[k]
    ensures after == before[..lo] + Reversed(before[lo..hi]) + before[hi..]
  {
    var r := Reversed(before[lo..hi]);
    forall k | lo <= k < hi ensures after[k] == r[k - lo] {
      assert r[k - lo] == before[lo..hi][hi - lo - 1 - (k - lo)];
    }
    assert after == after[..lo] + after[lo..hi] + after[hi..];
    assert after[..lo] == before[..lo] && after[hi..] == before[hi..];
    assert after[lo..hi] == r;
  }

  /** What the application shows: the query's answer, or nothing when the query fails. */
  function Visible(w: Workspace, notes: seq<Note>, q: Query, text: Text, sortDescending: bool): seq<Note> {
    var answer := Answer(w, notes, q, text);
    var shown := if answer.Ok? then answer.value else [];
    if sortDescending then Regrouped(shown) else shown
  }

  /** `App::visible_notes`. */
  method VisibleNotes(w: Workspace, notes: seq<Note>, q: Query, text: Text, sortDescending: bool)
    returns (shown: seq<Note>)
    ensures shown == Visible(w, notes, q, text, sortDescending)
  {
    hide Answer;
    var answer := RunQuery(w, notes, q, text);
    shown := if answer.Ok? then answer.value else [];
    if sortDescending {
      shown := Regroup(shown);
    }
  }

  method Regroup(notes: seq<Note>) returns (shown: seq<Note>)
    ensures shown == Regrouped(notes)
  {
    hide IndexItem, Reversed;
    var a := new Note[|notes|](i requires 0 <= i < |notes| => notes[i]);
    assert a[..] == notes;
    var indexed := 0;
    while indexed < a.Length && IndexItem(a[indexed])
      invariant indexed <= a.Length && a[..] == notes
      invariant LeadingIndexed(notes) == indexed + LeadingIndexed(notes[indexed..])
    {
      assert notes[indexed..][1..] == notes[indexed + 1..];
      indexed := indexed + 1;
    }
    ReverseSlice(a, 0, indexed);
    ghost var front := Reversed(notes[..indexed]);
    assert a[..] == front + notes[indexed..];
    assert a[..indexed] == front && a[indexed..a.Length] == notes[indexed..];
    ReverseSlice(a, indexed, a.Length);
    shown := a[..];
  }

  lemma {:induction false} IndexedInFront(notes: seq<Note>, order: (Note, Note) -> bool)
    requires Sorted(notes, order) && forall a, b :: order(a, b) && IndexItem(b) ==> IndexItem(a)
    ensures forall i :: 0 <= i < |notes| ==> (IndexItem(notes[i]) <==> i < LeadingIndexed(notes))
  {
    if notes != [] {
      IndexedInFront(notes[1..], order);
      assert notes == [notes[0]] + notes[1..];
      if !IndexItem(notes[0]) {
        forall i | 0 <= i < |notes| ensures !IndexItem(notes[i]) {
          if i > 0 { assert order(notes[0], notes[i]); }
        }
      }
    }
  }

  lemma {:induction false} LeadingIndexedIs(notes: seq<Note>, n: nat)
    requires n <= |notes|
    requires forall i :: 0 <= i < n ==> IndexItem(notes[i])
    requires n < |notes| ==> !IndexItem(notes[n])
    ensures LeadingIndexed(notes) == n
  {
    if n > 0 {
      LeadingIndexedIs(notes[1..], n - 1);
    }
  }

  lemma RegroupedKeepsElements(notes: seq<Note>)
    ensures multiset(Regrouped(notes)) == multiset(notes)
  {
    var n := LeadingIndexed(notes);
    ReversedKeepsElements(notes[..n]);
    ReversedKeepsElements(notes[n..]);
    assert notes == notes[..n] + notes[n..];
  }

  /** Regrouping all the matching notes sorts them in the flipped direction. */
  lemma RegroupedIsFlipped(notes: seq<Note>, field: string, descending: bool, text: Text)
    requires Sorted(notes, Order(field, descending, text))
    ensures Sorted(Regrouped(notes), Order(field, !descending, text))
  {
    hide KeyNotAfter, IndexItem, Regrouped, LeadingIndexed;
    var n := LeadingIndexed(notes);
    var r := Regrouped(notes);
    IndexedInFront(notes, Order(field, descending, text));
    forall i, j | 0 <= i < j < |r| ensures NotAfter(r[i], r[j], field, !descending, text) {
      var k := if i < n then n - 1 - i else |r| - 1 - (i - n);
      var l := if j < n then n - 1 - j else |r| - 1 - (j - n);
      if i < n { RegroupedFirst(notes, i); } else { RegroupedSecond(notes, i); }
      if j < n { RegroupedFirst(notes, j); } else { RegroupedSecond(notes, j); }
      assert r[i] == notes[k] && r[j] == notes[l];
      assert IndexItem(notes[k]) <==> i < n;
      assert IndexItem(notes[l]) <==> j < n;
      if (i < n) == (j < n) {
        assert Order(field, descending, text)(notes[l], notes[k]);
      }
    }
  }

  lemma FlippedSortIsRegrouped(notes: seq<Note>, field: string, descending: bool, text: Text)
    requires DistinctNotes(notes)
    ensures SortBy(notes, Order(field, !descending, text)) == Regrouped(SortBy(notes, Order(field, descending, text)))
  {
    hide NotAfter, IndexItem, Regrouped;
    var sorted := SortBy(notes, Order(field, descending, text));
    var flipped := SortBy(notes, Order(field, !descending, text));
    OrderIsTotal(field, descending, text);
    OrderIsTotal(field, !descending, text);
    SortBySorted(notes, Order(field, descending, text));
    SortBySorted(notes, Order(field, !descending, text));
    RegroupedIsFlipped(sorted, field, descending, text);
    RegroupedKeepsElements(sorted);
    OrderIsStrict(notes, field, !descending, text);
    SameElements(flipped, notes);
    SortedUnique(flipped, Regrouped(sorted), Order(field, !descending, text));
  }

  lemma {:induction false} NoRepeatsCounts<T>(s: seq<T>)
    requires NoRepeats(s)
    ensures forall x :: multiset(s)[x] <= 1
  {
    if s != [] {
      assert s == [s[0]] + s[1..];
      NoRepeatsCounts(s[1..]);
      assert s[0] !in s[1..];
      assert s[0] !in multiset(s[1..]);
    }
  }

  lemma RearrangedHasNoRepeats<T>(s: seq<T>, t: seq<T>)
    requires NoRepeats(s) && multiset(s) == multiset(t)
    ensures NoRepeats(t)
  {
    NoRepeatsCounts(s);
    forall i, j | 0 <= i < j < |t| ensures t[i] != t[j] {
      assert t == t[..j] + t[j..];
      assert multiset(t) == multiset(t[..j]) + multiset(t[j..]);
      assert t[..j][i] in multiset(t[..j]) && t[j..][0] in multiset(t[j..]);
      assert multiset(t)[t[i]] <= 1;
    }
  }

  lemma RegroupedFirst(s: seq<Note>, k: nat)
    requires k < LeadingIndexed(s)
    ensures Regrouped(s)[k] == s[LeadingIndexed(s) - 1 - k]
  {
    hide IndexItem, LeadingIndexed, Reversed;
    var n := LeadingIndexed(s);
    ReversedAt(s[..n], k);
  }

  lemma RegroupedSecond(s: seq<Note>, k: nat)
    requires LeadingIndexed(s) <= k < |s|
    ensures Regrouped(s)[k] == s[|s| - 1 + LeadingIndexed(s) - k]
  {
    hide IndexItem, LeadingIndexed, Reversed;
    var n := LeadingIndexed(s);
    ReversedAt(s[n..], k - n);
  }

  lemma CutInsideIndexed(s: seq<Note>, n: nat, m: nat)
    requires NoRepeats(s) && 1 <= m < n <= |s| && n == LeadingIndexed(s)
    requires forall i :: 0 <= i < n ==> IndexItem(s[i])
    ensures Regrouped(s[..m]) != Regrouped(s)[..m]
  {
    hide IndexItem, LeadingIndexed, Regrouped, NoRepeats;
    LeadingIndexedIs(s[..m], m);
    RegroupedFirst(s[..m], m - 1);
    RegroupedFirst(s, m - 1);
    assert Regrouped(s)[..m][m - 1] == s[n - m];
    RepeatsNot(s, 0, n - m);
  }

  lemma CutBetweenGroups(s: seq<Note>, n: nat)
    requires n <= |s| && n == LeadingIndexed(s) && forall i :: 0 <= i < n ==> IndexItem(s[i])
    ensures Regrouped(s[..n]) == Regrouped(s)[..n]
  {
    hide IndexItem, LeadingIndexed, Reversed;
    LeadingIndexedIs(s[..n], n);
    assert s[..n][..n] == s[..n] && s[..n][n..] == [];
  }

  lemma RepeatsNot<T>(s: seq<T>, i: nat, j: nat)
    requires NoRepeats(s) && i < j < |s|
    ensures s[i] != s[j]
  {
  }

  lemma CutAfterIndexed(s: seq<Note>, n: nat, m: nat)
    requires NoRepeats(s) && n < m < |s| && n == LeadingIndexed(s)
    requires forall i :: 0 <= i < |s| ==> (IndexItem(s[i]) <==> i < n)
    ensures Regrouped(s[..m]) != Regrouped(s)[..m]
  {
    hide IndexItem, LeadingIndexed, Regrouped, NoRepeats;
    LeadingIndexedIs(s[..m], n);
    RegroupedSecond(s[..m], n);
    RegroupedSecond(s, n);
    assert Regrouped(s)[..m][n] == s[|s| - 1];
    RepeatsNot(s, m - 1, |s| - 1);
  }

  /** Truncating before or after regrouping agrees only when nothing is cut off, or the cut falls
      exactly between the two groups. */
  lemma RegroupedFront(s: seq<Note>, n: nat, m: nat)
    requires NoRepeats(s) && 1 <= m <= |s| && n == LeadingIndexed(s)
    requires forall i :: 0 <= i < |s| ==> (IndexItem(s[i]) <==> i < n)
    ensures Regrouped(s[..m]) == Regrouped(s)[..m] <==> m == |s| || m == n
  {
    hide IndexItem, Regrouped, LeadingIndexed;
    if m == |s| {
      assert s[..m] == s && Regrouped(s)[..m] == Regrouped(s);
    } else if m == n {
      CutBetweenGroups(s, n);
    } else if m < n {
      CutInsideIndexed(s, n, m);
    } else {
      CutAfterIndexed(s, n, m);
    }
  }

  /** How many of the matching notes are index notes. */
  function IndexCount(notes: seq<Note>): nat {
    if notes == [] then 0 else (if IndexItem(notes[0]) then 1 else 0) + IndexCount(notes[1..])
  }

  lemma {:induction false} IndexCountAppend(s: seq<Note>, t: seq<Note>)
    ensures IndexCount(s + t) == IndexCount(s) + IndexCount(t)
  {
    if s == [] {
      assert s + t == t;
    } else {
      assert (s + t)[1..] == s[1..] + t;
      IndexCountAppend(s[1..], t);
    }
  }

  lemma RemovedElement<T>(s: seq<T>, t: seq<T>, k: nat)
    requires s != [] && multiset(s) == multiset(t) && k < |t| && t[k] == s[0]
    ensures multiset(t[..k] + t[k + 1..]) == multiset(s[1..])
    ensures t == t[..k] + ([t[k]] + t[k + 1..])
  {
    assert s == [s[0]] + s[1..];
    assert t == t[..k] + ([t[k]] + t[k + 1..]);
    assert multiset(t[..k] + t[k + 1..]) == multiset(t) - multiset{s[0]} == multiset(s[1..]);
  }

  lemma {:induction false} IndexCountOfRearranged(s: seq<Note>, t: seq<Note>)
    requires multiset(s) == multiset(t)
    ensures IndexCount(s) == IndexCount(t)
  {
    SameElements(s, t);
    if s != [] {
      assert s == [s[0]] + s[1..];
      assert s[0] in s;
      var k :| 0 <= k < |t| && t[k] == s[0];
      var rest := t[..k] + t[k + 1..];
      RemovedElement(s, t, k);
      IndexCountOfRearranged(s[1..], rest);
      IndexCountAppend(t[..k], [t[k]] + t[k + 1..]);
      IndexCountAppend(t[..k], t[k + 1..]);
      assert ([t[k]] + t[k + 1..])[1..] == t[k + 1..];
    }
  }

  lemma {:induction false} IndexCountOfGrouped(s: seq<Note>, n: nat)
    requires n <= |s| && forall i :: 0 <= i < |s| ==> (IndexItem(s[i]) <==> i < n)
    ensures IndexCount(s) == n
  {
    if s != [] {
      assert s == [s[0]] + s[1..];
      IndexCountOfGrouped(s[1..], if n > 0 then n - 1 else 0);
    }
  }

  /** The application's reversal shows what sorting in the other direction would show, exactly
      when the limit cuts nothing off or leaves just the index notes. */
  lemma ReversalIsFlippedSort(w: Workspace, notes: seq<Note>, q: Query, text: Text, scope: Scope)
    requires DistinctNotes(notes) && Validate(w).Ok? && FindScope(w, q) == Ok(scope) && Limit(w, q) > 0
    ensures var matching := Filtered(notes, scope, q, text);
            var flipped := Leading(matching, Order(SortField(scope), !Descending(scope), text), Limit(w, q));
            Visible(w, notes, q, text, true) == flipped <==>
            |matching| <= Limit(w, q) || IndexCount(matching) == Limit(w, q)
  {
    hide Wanted, Validate, NotAfter, FindScope, IndexItem, Regrouped;
    var matching := Filtered(notes, scope, q, text);
    var field, descending := SortField(scope), Descending(scope);
    var order := Order(field, descending, text);
    var sorted := SortBy(matching, order);
    var m := Min(Limit(w, q), |matching|);
    FilteredDistinct(notes, scope, q, text);
    FlippedSortIsRegrouped(matching, field, descending, text);
    if matching == [] {
      assert sorted[..m] == [];
    } else {
      OrderIsTotal(field, descending, text);
      SortBySorted(matching, order);
      SortedIsGrouped(sorted, field, descending, text);
      assert NoRepeats(matching);
      RearrangedHasNoRepeats(matching, sorted);
      RegroupedFront(sorted, LeadingIndexed(sorted), m);
      IndexCountOfGrouped(sorted, LeadingIndexed(sorted));
      IndexCountOfRearranged(matching, sorted);
    }
  }

  lemma SortedIsGrouped(notes: seq<Note>, field: string, descending: bool, text: Text)
    requires Sorted(notes, Order(field, descending, text))
    ensures forall i :: 0 <= i < |notes| ==> (IndexItem(notes[i]) <==> i < LeadingIndexed(notes))
  {
    hide KeyNotAfter, IndexItem;
    IndexedInFront(notes, Order(field, descending, text));
  }

  const TINY := Workspace(BEHAVIOR_SCHEMA, "all", [], [], [], map[], 1)
  const NOTE_A := Note("a", map[], "", "")
  const NOTE_B := Note("b", map[], "", "")
  const ALL := Query("all", None, None, {}, None)

  lemma BothMatch(text: Text)
    ensures Filtered([NOTE_A, NOTE_B], Scope(None, None), ALL, text) == [NOTE_A, NOTE_B]
  {
    assert [NOTE_A, NOTE_B][1..] == [NOTE_B] && [NOTE_B][1..] == [];
    assert Filtered([NOTE_B], Scope(None, None), ALL, text) == [NOTE_B] + Filtered([], Scope(None, None), ALL, text);
  }

  lemma TwoCompared(descending: bool, text: Text)
    ensures NotAfter(NOTE_A, NOTE_B, "created", descending, text) <==> !descending
  {
    assert Less("a", "b") && !Less("b", "a");
    LessIrreflexive(text.lower(""));
    assert Field(NOTE_A, "created", text) == "" && Field(NOTE_B, "created", text) == "";
  }

  lemma TwoSorted(descending: bool, text: Text)
    ensures SortBy([NOTE_A, NOTE_B], Order("created", descending, text))
         == if descending then [NOTE_B, NOTE_A] else [NOTE_A, NOTE_B]
  {
    hide NotAfter;
    var order := Order("created", descending, text);
    TwoCompared(descending, text);
    assert [NOTE_A, NOTE_B][1..] == [NOTE_B] && [NOTE_B][1..] == [];
    assert SortBy([NOTE_B], order) == Insert(NOTE_B, [], order) == [NOTE_B];
    assert order(NOTE_A, NOTE_B) == !descending;
    assert Insert(NOTE_A, [], order) == [NOTE_A];
  }

  lemma TinyIsValid()
    ensures Validate(TINY) == Ok(()) && FindScope(TINY, ALL) == Ok(Scope(None, None))
  {
  }

  lemma TinyAnswer(text: Text)
    ensures Answer(TINY, [NOTE_A, NOTE_B], ALL, text) == Ok([NOTE_A])
  {
    hide Filtered, SortBy, Order, Validate, FindScope;
    TinyIsValid();
    BothMatch(text);
    TwoSorted(false, text);
    assert [NOTE_A, NOTE_B][..1] == [NOTE_A];
  }

  lemma OneRegrouped()
    ensures Regrouped([NOTE_A]) == [NOTE_A]
  {
    assert [NOTE_A][1..] == [];
  }

  /** Two ordinary notes and a limit of one: reversing what is shown leaves the first note, sorting
      in the other direction shows the last. */
  lemma TruncatedReversalDiffers(text: Text)
    ensures Visible(TINY, [NOTE_A, NOTE_B], ALL, text, true) == [NOTE_A]
    ensures Leading(Filtered([NOTE_A, NOTE_B], Scope(None, None), ALL, text), Order("created", true, text), 1)
            == [NOTE_B]
  {
    hide Filtered, SortBy, Order, Answer, Regrouped;
    TinyAnswer(text);
    OneRegrouped();
    BothMatch(text);
    TwoSorted(true, text);
    assert [NOTE_B, NOTE_A][..1] == [NOTE_B];
  }
}
