/** The nested forms of a workspace configuration and their reader. */
module Forms {
  import opened Results
  import opened JsonStrings
  import opened Lexer

  datatype Form = List(items: seq<Form>) | Text(text: string) | Symbol(name: string)

  datatype FormError =
    | Lex(error: LexError)
    | UnterminatedList
    | UnexpectedClose
    | ExpectedForm

  function InForm(error: LexError): FormError {
    Lex(error)
  }

  function ReadForm(s: string): (r: Result<Parsed<Form>, FormError>)
    ensures r.Ok? ==> |r.value.rest| < |s|
    decreases |s|, 0
  {
    var t := SkipIgnored(s);
    if t == [] then Err(ExpectedForm)
    else if t[0] == '(' then
      var items :- ReadItems(t[1..]);
      Ok(Parsed(List(items.value), items.rest))
    else if t[0] == '"' then
      var text :- Lifted(ReadString(t), InForm);
      Ok(Parsed(Text(text.value), text.rest))
    else if t[0] == ')' then Err(UnexpectedClose)
    else
      var name :- Lifted(ReadToken(t, false), InForm);
      Ok(Parsed(Symbol(name.value), name.rest))
  }

  /** The forms up to the parenthesis that closes the current list. */
  function ReadItems(s: string): (r: Result<Parsed<seq<Form>>, FormError>)
    ensures r.Ok? ==> |r.value.rest| < |s|
    decreases |s|, 1
  {
    var t := SkipIgnored(s);
    if t == [] then Err(UnterminatedList)
    else if t[0] == ')' then Ok(Parsed([], t[1..]))
    else
      var first :- ReadForm(t);
      var others :- ReadItems(first.rest);
      Ok(Parsed([first.value] + others.value, others.rest))
  }

  // ----- The reader ------------------------------------------------------------------------------------

  lemma {:induction false} SkipIsIdempotent(s: string)
    ensures SkipIgnored(SkipIgnored(s)) == SkipIgnored(s)
    decreases |s|
  {
    if s != [] && IsWhitespace(s[0]) {
      SkipIsIdempotent(s[1..]);
    } else if s != [] && s[0] == ';' {
      SkipIsIdempotent(DropLine(s));
    }
  }

  function Prefixed(values: seq<Form>, r: Result<Parsed<seq<Form>>, FormError>): Result<Parsed<seq<Form>>, FormError> {
    match r
    case Err(e) => Err(e)
    case Ok(p) => Ok(Parsed(values + p.value, p.rest))
  }

  lemma PrefixedNone(r: Result<Parsed<seq<Form>>, FormError>)
    ensures Prefixed([], r) == r
  {
    if r.Ok? {
      assert [] + r.value.value == r.value.value;
    }
  }

  lemma ItemsEnd(values: seq<Form>, s: string)
    requires SkipIgnored(s) != [] && SkipIgnored(s)[0] == ')'
    ensures Prefixed(values, ReadItems(s)) == Ok(Parsed(values, SkipIgnored(s)[1..]))
  {
    assert values + [] == values;
  }

  lemma ItemsStep(values: seq<Form>, s: string, first: Parsed<Form>)
    requires SkipIgnored(s) != [] && SkipIgnored(s)[0] != ')' && ReadForm(SkipIgnored(s)) == Ok(first)
    ensures Prefixed(values, ReadItems(s)) == Prefixed(values + [first.value], ReadItems(first.rest))
  {
    hide ReadForm, SkipIgnored, IsWhitespace;
    var others := ReadItems(first.rest);
    if others.Ok? {
      assert values + ([first.value] + others.value.value) == values + [first.value] + others.value.value;
    }
  }

  // ----- What is read, as it is written ----------------------------------------------------------------

  predicate IsRest(s: string, rest: string) {
    |rest| <= |s| && s[|s| - |rest|..] == rest
  }

  lemma RestOfRest(s: string, t: string, u: string)
    requires IsRest(s, t) && IsRest(t, u)
    ensures IsRest(s, u)
  {
    assert s[|s| - |t|..][|t| - |u|..] == s[|s| - |u|..];
  }

  lemma {:induction false} LineIsDropped(s: string)
    ensures IsRest(s, DropLine(s))
  {
    if s != [] && s[0] != '\n' {
      LineIsDropped(s[1..]);
      RestOfRest(s, s[1..], DropLine(s[1..]));
    }
  }

  lemma {:induction false} IgnoredIsSkipped(s: string)
    ensures IsRest(s, SkipIgnored(s))
    decreases |s|
  {
    if s != [] && IsWhitespace(s[0]) {
      IgnoredIsSkipped(s[1..]);
      RestOfRest(s, s[1..], SkipIgnored(s[1..]));
    } else if s != [] && s[0] == ';' {
      LineIsDropped(s);
      IgnoredIsSkipped(DropLine(s));
      RestOfRest(s, DropLine(s), SkipIgnored(DropLine(s)));
    }
  }

  /** A list starts and ends with its parentheses, a text with its quotes and stands for what is between
      them, and a symbol is the token as it is written. */
  ghost predicate Spelled(written: string, form: Form) {
    && written != []
    && match form
       case List(_) => |written| >= 2 && written[0] == '(' && written[|written| - 1] == ')'
       case Text(text) =>
         && |written| >= 2 && written[0] == '"' && written[|written| - 1] == '"'
         && Unescape(written[1..|written| - 1]) == Some(text)
       case Symbol(name) => written == name && forall i :: 0 <= i < |name| ==> ContinuesToken(name[i], false)
  }

  lemma {:induction false} TokenIsWhole(s: string, n: nat)
    requires n <= TokenLength(s, false)
    ensures n <= |s| && forall i :: 0 <= i < n ==> ContinuesToken(s[i], false)
  {
    if n > 0 {
      TokenIsWhole(s[1..], n - 1);
      assert forall i :: 1 <= i < n ==> s[i] == s[1..][i - 1];
    }
  }

  lemma TextIsSpelled(t: string) returns (written: string)
    requires t != [] && t[0] == '"' && SkipIgnored(t) == t && ReadString(t).Ok?
    ensures t == written + ReadString(t).value.rest && Spelled(written, Text(ReadString(t).value.value))
  {
    hide Unescape, ClosingQuote, SkipIgnored;
    var n := ClosingQuote(t[1..], false).value;
    QuoteCloses(t[1..], false);
    written := t[..n + 2];
    assert written[1..|written| - 1] == t[1..][..n];
    assert t[1..][n + 1..] == t[n + 2..];
  }

  lemma SymbolIsSpelled(t: string) returns (written: string)
    requires SkipIgnored(t) == t && ReadToken(t, false).Ok?
    ensures t == written + ReadToken(t, false).value.rest && Spelled(written, Symbol(ReadToken(t, false).value.value))
  {
    hide ContinuesToken, SkipIgnored;
    var n := TokenLength(t, false);
    TokenIsWhole(t, n);
    written := t[..n];
  }

  /** A form is read from the text that spells it, right after what is ignored. */
  lemma {:induction false} FormIsSpelled(s: string) returns (written: string)
    requires ReadForm(s).Ok?
    ensures var p := ReadForm(s).value; SkipIgnored(s) == written + p.rest && Spelled(written, p.value)
    decreases |s|, 0
  {
    hide ReadToken, ReadString, SkipIgnored, ReadItems;
    var t := SkipIgnored(s);
    SkipIsIdempotent(s);
    if t[0] == '(' {
      ListIsClosed(t[1..]);
      var rest := ReadItems(t[1..]).value.rest;
      written := t[..|t| - |rest|];
      assert t[1..][|t| - 1 - |rest|..] == t[|t| - |rest|..];
      assert written[|written| - 1] == t[1..][|t| - 1 - |rest| - 1];
    } else if t[0] == '"' {
      written := TextIsSpelled(t);
    } else {
      written := SymbolIsSpelled(t);
    }
  }

  lemma {:induction false} QuoteCloses(s: string, escaped: bool)
    requires ClosingQuote(s, escaped).Some?
    ensures s[ClosingQuote(s, escaped).value] == '"'
  {
    if escaped || s[0] != '"' {
      QuoteCloses(s[1..], !escaped && s[0] == '\\');
    }
  }

  /** Items end with the parenthesis that closes them; a text that ends before is refused. */
  lemma {:induction false} ListIsClosed(s: string)
    requires ReadItems(s).Ok?
    ensures var rest := ReadItems(s).value.rest;
            IsRest(s, rest) && |rest| < |s| && s[|s| - |rest| - 1] == ')'
    decreases |s|, 2
  {
    hide ReadForm, IsWhitespace;
    var t := SkipIgnored(s);
    IgnoredIsSkipped(s);
    if t[0] != ')' {
      FormLeavesRest(t);
      var rest := ReadForm(t).value.rest;
      ListIsClosed(rest);
      RestOfRest(s, t, rest);
      RestOfRest(s, rest, ReadItems(rest).value.rest);
    }
  }

  lemma FormLeavesRest(t: string)
    requires ReadForm(t).Ok?
    ensures IsRest(t, ReadForm(t).value.rest)
    decreases |t|, 1
  {
    IgnoredIsSkipped(t);
    var written := FormIsSpelled(t);
    var rest := ReadForm(t).value.rest;
    assert SkipIgnored(t)[|written|..] == rest;
    RestOfRest(t, SkipIgnored(t), rest);
  }

  class FormReader {
    const cursor: Cursor

    constructor (source: string)
      ensures fresh(cursor) && Valid() && cursor.source == source && cursor.position == 0
    {
      cursor := new Cursor(source, false);
    }

    predicate Valid()
      reads this, cursor
    {
      cursor.Valid() && !cursor.quoteEnds
    }

    method Form() returns (r: Result<Form, FormError>)
      requires Valid()
      modifies cursor
      ensures Valid()
      ensures match ReadForm(old(cursor.Rest()))
              case Ok(p) => r == Ok(p.value) && cursor.Rest() == p.rest
              case Err(e) => r == Err(e)
      decreases |cursor.source| - cursor.position, 0
    {
      SkipIsIdempotent(cursor.Rest());
      cursor.Skip();
      match cursor.Peek() {
        case None => return Err(ExpectedForm);
        case Some(c) =>
          if c == '(' {
            var _ := cursor.Bump();
            var items := Items();
            match items {
              case Err(e) => return Err(e);
              case Ok(values) => return Ok(List(values));
            }
          } else if c == '"' {
            var text := cursor.String();
            match text {
              case Err(e) => return Err(Lex(e));
              case Ok(value) => return Ok(Text(value));
            }
          } else if c == ')' {
            return Err(UnexpectedClose);
          } else {
            var name := cursor.Token();
            match name {
              case Err(e) => return Err(Lex(e));
              case Ok(value) => return Ok(Symbol(value));
            }
          }
      }
    }

    /** The loop over the forms of a list, after its opening parenthesis. */
    method Items() returns (r: Result<seq<Form>, FormError>)
      requires Valid()
      modifies cursor
      ensures Valid()
      ensures match ReadItems(old(cursor.Rest()))
              case Ok(p) => r == Ok(p.value) && cursor.Rest() == p.rest
              case Err(e) => r == Err(e)
      decreases |cursor.source| - cursor.position, 1
    {
      var values: seq<Form> := [];
      ghost var goal := ReadItems(cursor.Rest());
      PrefixedNone(goal);
      while true
        invariant Valid() && |cursor.Rest()| <= |old(cursor.Rest())|
        invariant goal == Prefixed(values, ReadItems(cursor.Rest()))
        decreases |cursor.source| - cursor.position
      {
        ghost var before := cursor.Rest();
        SkipIsIdempotent(before);
        cursor.Skip();
        if cursor.Peek() == Some(')') {
          ItemsEnd(values, before);
          var _ := cursor.Bump();
          return Ok(values);
        }
        if cursor.Peek() == None {
          return Err(UnterminatedList);
        }
        var value := Form();
        if value.Err? {
          return Err(value.error);
        }
        ItemsStep(values, before, Parsed(value.value, cursor.Rest()));
        values := values + [value.value];
      }
    }
  }
}
