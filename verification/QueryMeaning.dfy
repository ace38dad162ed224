/** What a query answers, note by note: who is in the answer, who is left out, and in which order. */
module QueryMeaning {
  import opened Integers
  import opened Results
  import opened Sequences
  import opened Strings
  import opened Sorting
  import opened Decimals
  import opened FrontmatterValues
  import opened Behavior
  import opened Queries

  // ----- Predicates ----------------------------------------------------------------------------------------

  function Negated(ps: seq<Predicate>): seq<Predicate> {
    seq(|ps|, i requires 0 <= i < |ps| => Not(ps[i]))
  }

  lemma AllOfExactly(ps: seq<Predicate>, note: Note, text: Text)
    ensures Matches(AllOf(ps), note, text) <==> forall p :: p in ps ==> Matches(p, note, text)
  {
    if Matches(AllOf(ps), note, text) {
      forall p | p in ps ensures Matches(p, note, text) {
        var i :| 0 <= i < |ps| && ps[i] == p;
      }
    } else {
      var i :| 0 <= i < |ps| && !Matches(ps[i], note, text);
      assert ps[i] in ps;
    }
  }

  lemma AnyOfExactly(ps: seq<Predicate>, note: Note, text: Text)
    ensures Matches(AnyOf(ps), note, text) <==> exists p :: p in ps && Matches(p, note, text)
  {
    if exists p :: p in ps && Matches(p, note, text) {
      var p :| p in ps && Matches(p, note, text);
      var i :| 0 <= i < |ps| && ps[i] == p;
    }
  }

  lemma NegationFlips(note: Note, text: Text)
    ensures Matches(Always, note, text)
    ensures forall p :: Matches(Not(p), note, text) <==> !Matches(p, note, text)
  {
  }

  lemma NegatedExactly(ps: seq<Predicate>)
    ensures forall p :: p in ps ==> Not(p) in Negated(ps)
    ensures forall n :: n in Negated(ps) ==> n.Not? && n.condition in ps
  {
    forall p | p in ps ensures Not(p) in Negated(ps) {
      var i :| 0 <= i < |ps| && ps[i] == p;
      assert Negated(ps)[i] == Not(p);
    }
  }

  /** The laws of the predicates: `all` and `any` are each other's dual, and they hold of the whole list,
      so empty ones are true and false. */
  lemma PredicateLaws(ps: seq<Predicate>, p: Predicate, note: Note, text: Text)
    ensures Matches(Always, note, text) && (Matches(Not(p), note, text) <==> !Matches(p, note, text))
    ensures Matches(AllOf([]), note, text) && !Matches(AnyOf([]), note, text)
    ensures Matches(AllOf(ps), note, text) <==> forall p :: p in ps ==> Matches(p, note, text)
    ensures Matches(AnyOf(ps), note, text) <==> exists p :: p in ps && Matches(p, note, text)
    ensures Matches(Not(AllOf(ps)), note, text) <==> Matches(AnyOf(Negated(ps)), note, text)
  {
    AllOfExactly(ps, note, text);
    AnyOfExactly(ps, note, text);
    hide Matches;
    NegationFlips(note, text);
    AllOfExactly([], note, text);
    AnyOfExactly([], note, text);
    AnyOfExactly(Negated(ps), note, text);
    NegatedExactly(ps);
  }

  /** What the two conditions on a note itself say. */
  lemma ConditionsExactly(field: string, value: string, tag: string, note: Note, text: Text)
    ensures Matches(FieldEquals(field, value), note, text) <==> ShownAs(note, field, value, text)
    ensures Matches(HasTag(tag), note, text) <==> Tagged(note, tag)
  {
    TagsExactly(note, tag);
  }

  /** The text a field of a note is shown as; a missing one is empty. */
  predicate ShownAs(note: Note, field: string, value: string, text: Text) {
    if field == "id" then value == note.id
    else if field == "path" then value == note.path
    else if field !in note.frontmatter then value == ""
    else value == Display(note.frontmatter[field], text)
  }

  /** A tag is an element of a sequence, or a trimmed part between the commas of a text. */
  ghost predicate Tagged(note: Note, tag: string) {
    && "tags" in note.frontmatter
    && match note.frontmatter["tags"]
       case Sequence(values) => Str(tag) in values
       case Str(text) => tag != "" && exists part :: part in Split(text) && Trim(part) == tag
       case _ => false
  }

  lemma TagsExactly(note: Note, tag: string)
    ensures tag in Tags(note) <==> Tagged(note, tag)
  {
    hide Split, Trim;
  }

  /** How values are shown: nothing for null, words for truth values, numbers in decimal, texts as they are,
      and the elements of a sequence one after the other, a comma and a blank between them. */
  lemma DisplayLaws(n: I64, s: string, first: FrontmatterValue, others: seq<FrontmatterValue>, text: Text)
    ensures Display(Null, text) == "" && Display(Bool(true), text) == "true" && Display(Bool(false), text) == "false"
    ensures Display(Integer(n), text) == PrintInt(n) && Display(Str(s), text) == s
    ensures Display(Sequence([]), text) == "" && Display(Sequence([first]), text) == Display(first, text)
    ensures others != [] ==>
              Display(Sequence([first] + others), text)
              == Display(first, text) + ", " + Display(Sequence(others), text)
  {
    var all := [first] + others;
    var shown := seq(|all|, i requires 0 <= i < |all| => Display(all[i], text));
    var rest := seq(|others|, i requires 0 <= i < |others| => Display(others[i], text));
    assert shown[1..] == rest;
    assert Display(Sequence(all), text) == Join(shown);
    assert Display(Sequence(others), text) == Join(rest);
    var one := seq(1, i requires 0 <= i < 1 => Display([first][i], text));
    assert Display(Sequence([first]), text) == Join(one) && one == [Display(first, text)];
  }

  predicate OccursAt(s: string, needle: string, i: nat) {
    i + |needle| <= |s| && s[i..i + |needle|] == needle
  }

  lemma {:induction false} ContainsExactly(s: string, needle: string)
    ensures Contains(s, needle) <==> exists i: nat :: OccursAt(s, needle, i)
  {
    if needle <= s {
      assert OccursAt(s, needle, 0);
    } else if s != [] {
      ContainsExactly(s[1..], needle);
      forall i: nat | OccursAt(s[1..], needle, i) ensures OccursAt(s, needle, i + 1) {
        assert s[i + 1..i + 1 + |needle|] == s[1..][i..i + |needle|];
      }
      forall i: nat | OccursAt(s, needle, i) ensures i > 0 && OccursAt(s[1..], needle, i - 1) {
        assert i > 0;
        assert s[i..i + |needle|] == s[1..][i - 1..i - 1 + |needle|];
      }
    }
  }

  // ----- The answer ----------------------------------------------------------------------------------------

  /** The note meets every condition of the query. */
  ghost predicate Meets(note: Note, scope: Scope, q: Query, text: Text) {
    && (forall view :: scope.view == Some(view) ==> Matches(view.condition, note, text))
    && (forall subview :: scope.subview == Some(subview) ==> Matches(subview.condition, note, text))
    && (forall title :: q.title == Some(title) ==> Contains(text.lower(Field(note, "title", text)), text.lower(title)))
    && (forall tag :: tag in q.tags ==> Tagged(note, tag))
  }

  lemma WantedMeets(note: Note, scope: Scope, q: Query, text: Text)
    ensures Wanted(note, scope, q, text) <==> Meets(note, scope, q, text)
  {
    hide Matches, Contains, Tagged, Tags;
    forall tag ensures tag in Tags(note) <==> Tagged(note, tag) {
      TagsExactly(note, tag);
    }
  }

  /** The field that sorts: the subview's, else the view's, else the time of creation. */
  predicate SortsBy(scope: Scope, field: string) {
    if scope.subview.Some? && scope.subview.value.sortField.Some? then scope.subview.value.sortField == Some(field)
    else if scope.view.Some? && scope.view.value.sortField.Some? then scope.view.value.sortField == Some(field)
    else field == "created"
  }

  /** One note may stand before another: index notes first; then by the field, without regard to case; then
      by identifier. Only a descending view turns the last two around, and it does not move index notes. */
  predicate Precedes(a: Note, b: Note, scope: Scope, field: string, text: Text) {
    var down := scope.view.Some? && scope.view.value.descending;
    var first, second := if down then b else a, if down then a else b;
    var x, y := text.lower(Field(first, field, text)), text.lower(Field(second, field, text));
    if IsIndex(a) && !IsIndex(b) then true
    else if !IsIndex(a) && IsIndex(b) then false
    else if x != y then Less(x, y)
    else first.id == second.id || Less(first.id, second.id)
  }

  predicate IsIndex(note: Note) {
    "index" in note.frontmatter && note.frontmatter["index"] == Bool(true)
  }

  lemma OrderPrecedes(a: Note, b: Note, scope: Scope, field: string, text: Text)
    requires SortsBy(scope, field)
    ensures Order(SortField(scope), Descending(scope), text)(a, b) <==> Precedes(a, b, scope, field, text)
  {
    hide Less, Field;
    LessIrreflexive(text.lower(Field(a, field, text)));
  }

  /** What a query answers: only notes that meet its conditions, in order, no note twice, no more than the
      query or the workspace allows; and a note that meets them is left out only if the answer is full
      and every note in it may stand before that one. */
  ghost predicate Answers(answer: seq<Note>, w: Workspace, notes: seq<Note>, q: Query, scope: Scope, field: string,
      text: Text) {
    && DistinctNotes(answer)
    && (forall note :: note in answer ==> note in notes && Meets(note, scope, q, text))
    && (forall i, j :: 0 <= i < j < |answer| ==> Precedes(answer[i], answer[j], scope, field, text))
    && |answer| <= w.queryLimit && (forall limit :: q.limit == Some(limit) ==> |answer| <= limit)
    && (forall note :: note in notes && Meets(note, scope, q, text) && note !in answer ==>
          && (|answer| == w.queryLimit || q.limit == Some(|answer|))
          && forall shown :: shown in answer ==> Precedes(shown, note, scope, field, text))
  }

  lemma {:induction false} FrontOfDistinct(notes: seq<Note>, arranged: seq<Note>)
    requires DistinctNotes(notes) && multiset(arranged) == multiset(notes)
    ensures DistinctNotes(arranged)
  {
    SameElements(arranged, notes);
    assert NoRepeats(notes);
    RearrangedHasNoRepeats(notes, arranged);
    forall i, j | 0 <= i < j < |arranged| ensures arranged[i].id != arranged[j].id {
      assert arranged[i] in notes && arranged[j] in notes;
      var k :| 0 <= k < |notes| && notes[k] == arranged[i];
      var l :| 0 <= l < |notes| && notes[l] == arranged[j];
      assert k != l;
    }
  }

  lemma FrontAnswers(arranged: seq<Note>, w: Workspace, notes: seq<Note>, q: Query, scope: Scope, field: string,
      text: Text)
    requires DistinctNotes(arranged)
    requires forall note :: note in arranged <==> note in notes && Meets(note, scope, q, text)
    requires forall i, j :: 0 <= i < j < |arranged| ==> Precedes(arranged[i], arranged[j], scope, field, text)
    ensures Answers(arranged[..Min(Limit(w, q), |arranged|)], w, notes, q, scope, field, text)
  {
    hide Precedes, Meets;
    var n := Min(Limit(w, q), |arranged|);
    var answer := arranged[..n];
    forall note | note in notes && Meets(note, scope, q, text) && note !in answer
      ensures |answer| == w.queryLimit || q.limit == Some(|answer|)
      ensures forall shown :: shown in answer ==> Precedes(shown, note, scope, field, text)
    {
      var k :| 0 <= k < |arranged| && arranged[k] == note;
      forall i | 0 <= i < n ensures arranged[i] != note {
        assert answer[i] == arranged[i] && answer[i] in answer;
      }
      forall shown | shown in answer ensures Precedes(shown, note, scope, field, text) {
        var i :| 0 <= i < |answer| && answer[i] == shown;
        assert arranged[i] == shown;
      }
    }
  }

  /** A query that runs answers exactly as described. */
  lemma QueryAnswers(w: Workspace, notes: seq<Note>, q: Query, text: Text, scope: Scope, field: string)
    requires DistinctNotes(notes) && Validate(w).Ok? && FindScope(w, q) == Ok(scope) && SortsBy(scope, field)
    ensures Answer(w, notes, q, text).Ok?
    ensures Answers(Answer(w, notes, q, text).value, w, notes, q, scope, field, text)
  {
    hide Wanted, Meets, Validate, FindScope, NotAfter, Precedes, Limit;
    var matching := Filtered(notes, scope, q, text);
    var order := Order(SortField(scope), Descending(scope), text);
    var arranged := SortBy(matching, order);
    FilteredDistinct(notes, scope, q, text);
    FrontOfDistinct(matching, arranged);
    OrderIsTotal(SortField(scope), Descending(scope), text);
    SortBySorted(matching, order);
    SameElements(arranged, matching);
    forall note ensures note in arranged <==> note in notes && Meets(note, scope, q, text) {
      WantedMeets(note, scope, q, text);
    }
    forall i, j | 0 <= i < j < |arranged| ensures Precedes(arranged[i], arranged[j], scope, field, text) {
      OrderPrecedes(arranged[i], arranged[j], scope, field, text);
    }
    FrontAnswers(arranged, w, notes, q, scope, field, text);
  }
}
