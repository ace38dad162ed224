/** How the printers lay out a form, and why the reader recovers it: an item is always preceded
    by white space, and a printed name or literal never runs into what follows. */
module Layout {
  import opened Decimals
  import opened Results
  import opened JsonStrings
  import opened Lexer
  import opened Forms

  // Line breaks followed by the indentation of each level.
  const AT2 := "\n  "
  const AT4 := "\n    "
  const AT6 := "\n      "
  const AT8 := "\n        "
  const AT10 := "\n          "

  /** Each item after its separator. */
  function Spread(separator: string, items: seq<string>): string {
    if items == [] then "" else separator + items[0] + Spread(separator, items[1..])
  }

  function Call(name: string, separator: string, args: seq<string>): string {
    "(" + name + Spread(separator, args) + ")"
  }

  /** A text that may be absent. */
  function QuotedOrFalse(value: Option<string>): string {
    match value
    case None => "#f"
    case Some(text) => Quote(text)
  }

  /** Words between parentheses, one blank apart. */
  function Group(items: seq<string>): string {
    "(" + (if items == [] then "" else items[0] + Spread(" ", items[1..])) + ")"
  }

  predicate StartsForm(s: string) {
    s != [] && !IsWhitespace(s[0]) && s[0] != ';' && s[0] != ')'
  }

  ghost predicate ReadsAs(text: string, form: Form, rest: string) {
    ReadForm(text + rest) == Ok(Parsed(form, rest))
  }

  /** The reader turns `text` into `form` and stops right after it, whatever follows, provided a
      token could not go on there. */
  ghost predicate Denotes(text: string, form: Form) {
    && StartsForm(text)
    && forall rest {:trigger ReadsAs(text, form, rest)} :: Ended(rest, false) ==> ReadsAs(text, form, rest)
  }

  ghost predicate AllDenote(texts: seq<string>, forms: seq<Form>) {
    |texts| == |forms| && forall i :: 0 <= i < |texts| ==> Denotes(texts[i], forms[i])
  }

  function CallForm(name: string, args: seq<Form>): Form {
    List([Symbol(name)] + args)
  }

  lemma NatIsWord(n: nat)
    ensures IsWord(PrintNat(n))
  {
    PrintNatDigits(n);
  }

  lemma WordDenotes(word: string)
    requires IsWord(word)
    ensures Denotes(word, Symbol(word))
  {
    forall rest | Ended(rest, false) ensures ReadsAs(word, Symbol(word), rest) {
      ReadWord("", word, rest, false);
      assert "" + (word + rest) == word + rest;
      assert SkipIgnored(word + rest) == word + rest;
    }
  }

  lemma QuoteDenotes(text: string)
    ensures Denotes(Quote(text), Text(text))
  {
    forall rest | Ended(rest, false) ensures ReadsAs(Quote(text), Text(text), rest) {
      ReadQuoted("", text, rest);
      assert "" + (Quote(text) + rest) == Quote(text) + rest;
      assert SkipIgnored(Quote(text) + rest) == Quote(text) + rest;
    }
  }

  lemma ItemsCons(ws: string, text: string, form: Form, tail: string, others: Parsed<seq<Form>>)
    requires AllWhitespace(ws) && Denotes(text, form) && Ended(tail, false)
    requires ReadItems(tail) == Ok(others)
    ensures ReadItems(ws + (text + tail)) == Ok(Parsed([form] + others.value, others.rest))
  {
    SkipWhitespace(ws, text + tail);
    assert SkipIgnored(text + tail) == text + tail;
    assert ReadsAs(text, form, tail);
  }

  lemma SpreadCons(separator: string, texts: seq<string>, rest: string)
    requires texts != []
    ensures Spread(separator, texts) + (")" + rest)
         == separator + (texts[0] + (Spread(separator, texts[1..]) + (")" + rest)))
  {
  }

  lemma {:induction false} ReadSpread(separator: string, texts: seq<string>, forms: seq<Form>, rest: string)
    requires AllWhitespace(separator) && separator != [] && AllDenote(texts, forms)
    ensures ReadItems(Spread(separator, texts) + (")" + rest)) == Ok(Parsed(forms, rest))
  {
    if texts == [] {
      assert Spread(separator, texts) + (")" + rest) == ")" + rest;
      assert SkipIgnored(")" + rest) == ")" + rest;
    } else {
      ReadSpread(separator, texts[1..], forms[1..], rest);
      SpreadCons(separator, texts, rest);
      var tail := Spread(separator, texts[1..]) + (")" + rest);
      ItemsCons(separator, texts[0], forms[0], tail, Parsed(forms[1..], rest));
      assert [forms[0]] + forms[1..] == forms;
    }
  }

  lemma ListDenotes(body: string, forms: seq<Form>)
    requires forall rest :: ReadItems(body + (")" + rest)) == Ok(Parsed(forms, rest))
    ensures Denotes("(" + body + ")", List(forms))
  {
    var text := "(" + body + ")";
    forall rest | Ended(rest, false) ensures ReadsAs(text, List(forms), rest) {
      assert text + rest == "(" + (body + (")" + rest));
      assert SkipIgnored(text + rest) == text + rest;
      assert (text + rest)[1..] == body + (")" + rest);
    }
  }

  /** A printed call is read back as the call of its arguments. */
  lemma CallDenotes(name: string, separator: string, texts: seq<string>, forms: seq<Form>)
    requires IsWord(name) && AllWhitespace(separator) && separator != [] && AllDenote(texts, forms)
    ensures Denotes(Call(name, separator, texts), CallForm(name, forms))
  {
    var body := name + Spread(separator, texts);
    forall rest ensures ReadItems(body + (")" + rest)) == Ok(Parsed([Symbol(name)] + forms, rest)) {
      var tail := Spread(separator, texts) + (")" + rest);
      WordDenotes(name);
      ReadSpread(separator, texts, forms, rest);
      ItemsCons("", name, Symbol(name), tail, Parsed(forms, rest));
      assert body + (")" + rest) == "" + (name + tail);
    }
    ListDenotes(body, [Symbol(name)] + forms);
    assert Call(name, separator, texts) == "(" + body + ")";
  }

  lemma ReadGroup(texts: seq<string>, forms: seq<Form>, rest: string)
    requires AllDenote(texts, forms) && texts != []
    ensures ReadItems(texts[0] + Spread(" ", texts[1..]) + (")" + rest)) == Ok(Parsed(forms, rest))
  {
    ReadSpread(" ", texts[1..], forms[1..], rest);
    var tail := Spread(" ", texts[1..]) + (")" + rest);
    ItemsCons("", texts[0], forms[0], tail, Parsed(forms[1..], rest));
    assert texts[0] + Spread(" ", texts[1..]) + (")" + rest) == "" + (texts[0] + tail);
    assert [forms[0]] + forms[1..] == forms;
  }

  lemma GroupDenotes(texts: seq<string>, forms: seq<Form>)
    requires AllDenote(texts, forms)
    ensures Denotes(Group(texts), List(forms))
  {
    var body := if texts == [] then "" else texts[0] + Spread(" ", texts[1..]);
    forall rest ensures ReadItems(body + (")" + rest)) == Ok(Parsed(forms, rest)) {
      if texts == [] {
        ReadSpread(" ", texts, forms, rest);
      } else {
        ReadGroup(texts, forms, rest);
      }
    }
    ListDenotes(body, forms);
  }
}
