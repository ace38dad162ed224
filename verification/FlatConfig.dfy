/** The two flat configurations, of the server and of the native client: each is one form of
    named fields, read straight from the text by parsers that share their structure. */
module FlatConfig {
  import opened Integers
  import opened Results
  import opened Decimals
  import opened JsonStrings
  import opened Lexer
  import opened Layout

  datatype Kind = Number | RequiredText | NullableText

  datatype Slot = Num(number: nat) | Txt(text: Option<string>)

  /** What one parser accepts. */
  datatype Grammar = Grammar(root: string, quoteEnds: bool, kinds: map<string, Kind>)

  datatype FlatError =
    | Lex(error: LexError)
    | ExpectedChar(c: char)
    | ExpectedRoot(found: string)
    | ExpectedNumber
    | ExpectedTextOrFalse
    | UnknownField(field: string)
    | DuplicateField(field: string)
    | MissingField(field: string)
    | TrailingForm
    | TooLarge

  type Slots = map<string, Slot>

  // ----- Reading ----------------------------------------------------------------------------------------

  function InField(error: LexError): FlatError {
    Lex(error)
  }

  function ExpectChar(s: string, c: char): (r: Result<string, FlatError>)
    ensures r.Ok? ==> |r.value| < |s|
  {
    var t := SkipIgnored(s);
    if t != [] && t[0] == c then Ok(t[1..]) else Err(ExpectedChar(c))
  }

  function ReadSlot(s: string, kind: Kind, quoteEnds: bool): (r: Result<Parsed<Slot>, FlatError>)
    ensures r.Ok? ==> |r.value.rest| < |s|
  {
    match kind
    case Number =>
      var token :- Lifted(ReadToken(s, quoteEnds), InField);
      (match ReadNat(token.value, U16_MAX)
       case None => Err(ExpectedNumber)
       case Some(n) => Ok(Parsed(Num(n), token.rest)))
    case RequiredText =>
      var text :- Lifted(ReadString(s), InField);
      Ok(Parsed(Txt(Some(text.value)), text.rest))
    case NullableText =>
      var t := SkipIgnored(s);
      if t != [] && t[0] == '"' then
        var text :- Lifted(ReadString(t), InField);
        Ok(Parsed(Txt(Some(text.value)), text.rest))
      else
        var token :- Lifted(ReadToken(t, quoteEnds), InField);
        if token.value == "#f" then Ok(Parsed(Txt(None), token.rest)) else Err(ExpectedTextOrFalse)
  }

  /** The fields up to the closing parenthesis, each at most once. */
  function ReadFields(s: string, slots: Slots, g: Grammar): (r: Result<Parsed<Slots>, FlatError>)
    decreases |s|
  {
    var t := SkipIgnored(s);
    if t != [] && t[0] == ')' then Ok(Parsed(slots, t[1..]))
    else
      var start :- ExpectChar(t, '(');
      var key :- Lifted(ReadToken(start, g.quoteEnds), InField);
      if key.value !in g.kinds then Err(UnknownField(key.value))
      else
        var slot :- ReadSlot(key.rest, g.kinds[key.value], g.quoteEnds);
        if key.value in slots then Err(DuplicateField(key.value))
        else
          var closed :- ExpectChar(slot.rest, ')');
          ReadFields(closed, slots[key.value := slot.value], g)
  }

  function ReadFlat(source: string, g: Grammar): Result<Slots, FlatError> {
    var start :- ExpectChar(source, '(');
    var root :- Lifted(ReadToken(start, g.quoteEnds), InField);
    if root.value != g.root then Err(ExpectedRoot(root.value))
    else
      var fields :- ReadFields(root.rest, map[], g);
      if SkipIgnored(fields.rest) != [] then Err(TrailingForm) else Ok(fields.value)
  }

  // ----- The parser ---------------------------------------------------------------------------------------

  class Parser {
    const cursor: Cursor
    const grammar: Grammar

    constructor (source: string, grammar: Grammar)
      ensures this.grammar == grammar && fresh(cursor)
      ensures Valid() && cursor.source == source && cursor.position == 0
    {
      this.grammar := grammar;
      cursor := new Cursor(source, grammar.quoteEnds);
    }

    predicate Valid()
      reads this, cursor
    {
      cursor.Valid() && cursor.quoteEnds == grammar.quoteEnds
    }

    method Expect(c: char) returns (r: Result<(), FlatError>)
      requires Valid()
      modifies cursor
      ensures Valid()
      ensures match ExpectChar(old(cursor.Rest()), c)
              case Ok(rest) => r == Ok(()) && cursor.Rest() == rest
              case Err(e) => r == Err(e)
    {
      cursor.Skip();
      var found := cursor.Bump();
      return if found == Some(c) then Ok(()) else Err(ExpectedChar(c));
    }

    method Token() returns (r: Result<string, FlatError>)
      requires Valid()
      modifies cursor
      ensures Valid()
      ensures match Lifted(ReadToken(old(cursor.Rest()), grammar.quoteEnds), InField)
              case Ok(p) => r == Ok(p.value) && cursor.Rest() == p.rest
              case Err(e) => r == Err(e)
    {
      var token := cursor.Token();
      return if token.Ok? then Ok(token.value) else Err(Lex(token.error));
    }

    method Value(kind: Kind) returns (r: Result<Slot, FlatError>)
      requires Valid()
      modifies cursor
      ensures Valid()
      ensures match ReadSlot(old(cursor.Rest()), kind, grammar.quoteEnds)
              case Ok(p) => r == Ok(p.value) && cursor.Rest() == p.rest
              case Err(e) => r == Err(e)
    {
      match kind {
        case Number =>
          var token := Token();
          if token.Err? {
            return Err(token.error);
          }
          match ReadNat(token.value, U16_MAX) {
            case None => return Err(ExpectedNumber);
            case Some(n) => return Ok(Num(n));
          }
        case RequiredText =>
          var text := cursor.String();
          return if text.Ok? then Ok(Txt(Some(text.value))) else Err(Lex(text.error));
        case NullableText =>
          cursor.Skip();
          if cursor.Peek() == Some('"') {
            var text := cursor.String();
            return if text.Ok? then Ok(Txt(Some(text.value))) else Err(Lex(text.error));
          }
          var token := Token();
          if token.Err? {
            return Err(token.error);
          }
          return if token.value == "#f" then Ok(Txt(None)) else Err(ExpectedTextOrFalse);
      }
    }

    /** The loop over the fields, with one set-once slot for each. */
    method Fields() returns (r: Result<Slots, FlatError>)
      requires Valid()
      modifies cursor
      ensures Valid()
      ensures match ReadFields(old(cursor.Rest()), map[], grammar)
              case Ok(p) => r == Ok(p.value) && cursor.Rest() == p.rest
              case Err(e) => r == Err(e)
    {
      hide ReadSlot, SkipIgnored, ReadToken;
      var slots: Slots := map[];
      while true
        invariant Valid()
        invariant ReadFields(old(cursor.Rest()), map[], grammar) == ReadFields(cursor.Rest(), slots, grammar)
        decreases |cursor.Rest()|
      {
        cursor.Skip();
        if cursor.Peek() == Some(')') {
          var _ := cursor.Bump();
          return Ok(slots);
        }
        var start := Expect('(');
        if start.Err? {
          return Err(start.error);
        }
        var key := Token();
        if key.Err? {
          return Err(key.error);
        }
        if key.value !in grammar.kinds {
          return Err(UnknownField(key.value));
        }
        var slot := Value(grammar.kinds[key.value]);
        if slot.Err? {
          return Err(slot.error);
        }
        if key.value in slots {
          return Err(DuplicateField(key.value));
        }
        slots := slots[key.value := slot.value];
        var closed := Expect(')');
        if closed.Err? {
          return Err(closed.error);
        }
      }
    }

    method Parse() returns (r: Result<Slots, FlatError>)
      requires Valid() && cursor.position == 0
      modifies cursor
      ensures r == ReadFlat(cursor.source, grammar)
    {
      assert cursor.Rest() == cursor.source;
      var start := Expect('(');
      if start.Err? {
        return Err(start.error);
      }
      var root := Token();
      if root.Err? {
        return Err(root.error);
      }
      if root.value != grammar.root {
        return Err(ExpectedRoot(root.value));
      }
      var slots := Fields();
      if slots.Err? {
        return slots;
      }
      cursor.Skip();
      return if cursor.position == |cursor.source| then slots else Err(TrailingForm);
    }
  }

  predicate Fits(slot: Slot, kind: Kind) {
    match kind
    case Number => slot.Num? && slot.number <= U16_MAX
    case RequiredText => slot.Txt? && slot.text.Some?
    case NullableText => slot.Txt?
  }

  predicate SlotsFit(slots: Slots, g: Grammar) {
    forall k :: k in slots ==> k in g.kinds && Fits(slots[k], g.kinds[k])
  }

  /** Whatever the parser accepts has only known fields, each with a value of its kind. */
  lemma {:induction false} AcceptedFieldsFit(s: string, slots: Slots, g: Grammar)
    requires SlotsFit(slots, g) && ReadFields(s, slots, g).Ok?
    ensures SlotsFit(ReadFields(s, slots, g).value.value, g)
    decreases |s|
  {
    hide ReadToken, ReadString, SkipIgnored, ReadNat;
    var t := SkipIgnored(s);
    if t == [] || t[0] != ')' {
      var start := ExpectChar(t, '(').value;
      var key := Lifted(ReadToken(start, g.quoteEnds), InField).value;
      var slot := ReadSlot(key.rest, g.kinds[key.value], g.quoteEnds).value;
      ReadSlotFits(key.rest, g.kinds[key.value], g.quoteEnds);
      var closed := ExpectChar(slot.rest, ')').value;
      AcceptedFieldsFit(closed, slots[key.value := slot.value], g);
    }
  }

  lemma ReadSlotFits(s: string, kind: Kind, quoteEnds: bool)
    requires ReadSlot(s, kind, quoteEnds).Ok?
    ensures Fits(ReadSlot(s, kind, quoteEnds).value.value, kind)
  {
  }

  lemma AcceptedFits(source: string, g: Grammar)
    requires ReadFlat(source, g).Ok?
    ensures SlotsFit(ReadFlat(source, g).value, g)
  {
    hide ReadFields;
    var start := ExpectChar(source, '(').value;
    var root := Lifted(ReadToken(start, g.quoteEnds), InField).value;
    AcceptedFieldsFit(root.rest, map[], g);
  }

  // ----- Printing -----------------------------------------------------------------------------------------

  datatype Item = Item(key: string, slot: Slot)

  function SlotText(slot: Slot): string {
    match slot
    case Num(n) => PrintNat(n)
    case Txt(text) => QuotedOrFalse(text)
  }

  function ItemText(item: Item): string {
    Call(item.key, " ", [SlotText(item.slot)])
  }

  function ItemTexts(items: seq<Item>): seq<string> {
    seq(|items|, i requires 0 <= i < |items| => ItemText(items[i]))
  }

  predicate Printable(items: seq<Item>, g: Grammar) {
    && (forall i :: 0 <= i < |items| ==>
          items[i].key in g.kinds && IsWord(items[i].key) && Fits(items[i].slot, g.kinds[items[i].key]))
    && (forall i, j :: 0 <= i < j < |items| ==> items[i].key != items[j].key)
  }

  function SlotsOf(items: seq<Item>, slots: Slots): Slots {
    if items == [] then slots else SlotsOf(items[1..], slots[items[0].key := items[0].slot])
  }

  lemma {:induction false} SlotsOfHolds(items: seq<Item>, slots: Slots, i: nat)
    requires i < |items| && forall i, j :: 0 <= i < j < |items| ==> items[i].key != items[j].key
    ensures var r := SlotsOf(items, slots); items[i].key in r && r[items[i].key] == items[i].slot
    decreases |items|
  {
    if i > 0 {
      SlotsOfHolds(items[1..], slots[items[0].key := items[0].slot], i - 1);
    } else {
      SlotsOfKeeps(items[1..], slots[items[0].key := items[0].slot], items[0].key);
    }
  }

  lemma {:induction false} SlotsOfKeeps(items: seq<Item>, slots: Slots, key: string)
    requires forall i :: 0 <= i < |items| ==> items[i].key != key
    ensures var r := SlotsOf(items, slots); (key in r <==> key in slots) && (key in slots ==> r[key] == slots[key])
    decreases |items|
  {
    if items != [] {
      SlotsOfKeeps(items[1..], slots[items[0].key := items[0].slot], key);
    }
  }

  /** A field of these means the same in the slots; one that is left out is not there. */
  lemma {:induction false} SlotsOfExactly(items: seq<Item>, key: string)
    requires forall i, j :: 0 <= i < j < |items| ==> items[i].key != items[j].key
    ensures key in SlotsOf(items, map[]) <==> exists i :: 0 <= i < |items| && items[i].key == key
    ensures forall i :: 0 <= i < |items| && items[i].key == key ==> SlotsOf(items, map[])[key] == items[i].slot
  {
    hide SlotsOf;
    if forall i :: 0 <= i < |items| ==> items[i].key != key {
      SlotsOfKeeps(items, map[], key);
    } else {
      var i :| 0 <= i < |items| && items[i].key == key;
      SlotsOfHolds(items, map[], i);
    }
  }

  /** Any selection of some items, in any order, that leaves out only what holds its default. */
  ghost predicate Selects(items: seq<Item>, all: seq<Item>, defaults: set<Item>) {
    && (forall i :: 0 <= i < |items| ==> items[i] in all)
    && (forall i, j :: 0 <= i < j < |items| ==> items[i].key != items[j].key)
    && (forall item :: item in all ==> item in items || item in defaults)
  }

  lemma SelectedPrintable(items: seq<Item>, all: seq<Item>, defaults: set<Item>, g: Grammar)
    requires Printable(all, g) && Selects(items, all, defaults)
    ensures Printable(items, g)
  {
    hide IsWord;
    forall i | 0 <= i < |items|
      ensures items[i].key in g.kinds && IsWord(items[i].key) && Fits(items[i].slot, g.kinds[items[i].key])
    {
      assert items[i] in all;
      var k :| 0 <= k < |all| && all[k] == items[i];
    }
  }

  lemma SelectedGiven(items: seq<Item>, all: seq<Item>, defaults: set<Item>, k: nat)
    requires Selects(items, all, defaults) && k < |all|
    requires forall i, j :: 0 <= i < j < |all| ==> all[i].key != all[j].key
    ensures var slots := SlotsOf(items, map[]);
            if all[k].key in slots then slots[all[k].key] == all[k].slot else all[k] in defaults
  {
    hide SlotsOf;
    SlotsOfExactly(items, all[k].key);
    if i :| 0 <= i < |items| && items[i].key == all[k].key {
      assert items[i] in all;
      var l :| 0 <= l < |all| && all[l] == items[i];
      assert l == k;
    }
  }

  // ----- Round trip ---------------------------------------------------------------------------------------

  lemma ReadPrintedNumber(n: nat, quoteEnds: bool, rest: string)
    requires n <= U16_MAX
    ensures ReadSlot(" " + (PrintNat(n) + (")" + rest)), Number, quoteEnds) == Ok(Parsed(Num(n), ")" + rest))
  {
    hide PrintNat, IsWord, ReadToken, ReadNat;
    NatIsWord(n);
    ReadWord(" ", PrintNat(n), ")" + rest, quoteEnds);
    ReadNatOfPrint(n, U16_MAX);
  }

  lemma ReadPrintedNone(quoteEnds: bool, rest: string)
    ensures ReadSlot(" " + ("#f" + (")" + rest)), NullableText, quoteEnds) == Ok(Parsed(Txt(None), ")" + rest))
  {
    hide IsWord, ReadToken;
    var after := "#f" + (")" + rest);
    SkipWhitespace(" ", after);
    assert SkipIgnored(after) == after;
    ReadWord("", "#f", ")" + rest, quoteEnds);
    assert "" + after == after;
  }

  lemma ReadPrintedText(text: string, kind: Kind, quoteEnds: bool, rest: string)
    requires kind != Number
    ensures ReadSlot(" " + (Quote(text) + (")" + rest)), kind, quoteEnds) == Ok(Parsed(Txt(Some(text)), ")" + rest))
  {
    hide Quote, ReadString;
    var after := Quote(text) + (")" + rest);
    SkipWhitespace(" ", after);
    ReadQuoted(" ", text, ")" + rest);
    QuoteStarts(text, ")" + rest);
    ReadQuoted("", text, ")" + rest);
    assert "" + after == after;
  }

  lemma ReadPrintedSlot(slot: Slot, kind: Kind, quoteEnds: bool, rest: string)
    requires Fits(slot, kind)
    ensures ReadSlot(" " + (SlotText(slot) + (")" + rest)), kind, quoteEnds) == Ok(Parsed(slot, ")" + rest))
  {
    hide ReadSlot, Quote, PrintNat;
    match slot {
      case Num(n) => ReadPrintedNumber(n, quoteEnds, rest);
      case Txt(None) => ReadPrintedNone(quoteEnds, rest);
      case Txt(Some(text)) => ReadPrintedText(text, kind, quoteEnds, rest);
    }
  }

  lemma QuoteStarts(text: string, rest: string)
    ensures var t := Quote(text) + rest; t[0] == '"' && SkipIgnored(t) == t
  {
  }

  lemma ItemParts(item: Item, tail: string)
    ensures ItemText(item) + tail == "(" + (item.key + (" " + (SlotText(item.slot) + (")" + tail))))
  {
    hide SlotText;
    assert Spread(" ", [SlotText(item.slot)]) == " " + SlotText(item.slot);
  }

  lemma ReadPrintedItem(ws: string, item: Item, tail: string, slots: Slots, g: Grammar)
    requires AllWhitespace(ws) && item.key in g.kinds && IsWord(item.key) && Fits(item.slot, g.kinds[item.key])
    requires item.key !in slots
    ensures ReadFields(ws + (ItemText(item) + tail), slots, g) == ReadFields(tail, slots[item.key := item.slot], g)
  {
    hide ItemText, SlotText, ReadSlot, TokenLength, IsWord, Fits;
    var value := " " + (SlotText(item.slot) + (")" + tail));
    var text := ItemText(item) + tail;
    ItemParts(item, tail);
    SkipWhitespace(ws, text);
    assert SkipIgnored(text) == text && text[1..] == item.key + value;
    ReadWord("", item.key, value, g.quoteEnds);
    assert "" + (item.key + value) == item.key + value;
    ReadPrintedSlot(item.slot, g.kinds[item.key], g.quoteEnds, tail);
    assert SkipIgnored(")" + tail) == ")" + tail && (")" + tail)[1..] == tail;
  }

  lemma {:induction false} ReadPrefix(ws: string, items: seq<Item>, slots: Slots, g: Grammar, tail: string)
    requires AllWhitespace(ws) && Printable(items, g)
    requires forall i :: 0 <= i < |items| ==> items[i].key !in slots
    ensures ReadFields(Spread(ws, ItemTexts(items)) + tail, slots, g) == ReadFields(tail, SlotsOf(items, slots), g)
    decreases |items|
  {
    hide ReadFields, ItemText, IsWord, Fits;
    if items == [] {
      assert Spread(ws, ItemTexts(items)) + tail == tail;
    } else {
      var others := Spread(ws, ItemTexts(items[1..])) + tail;
      assert ItemTexts(items)[1..] == ItemTexts(items[1..]);
      assert Spread(ws, ItemTexts(items)) + tail == ws + (ItemText(items[0]) + others);
      ReadPrintedItem(ws, items[0], others, slots, g);
      ReadPrefix(ws, items[1..], slots[items[0].key := items[0].slot], g, tail);
    }
  }

  lemma ReadPrintedItems(ws: string, items: seq<Item>, slots: Slots, g: Grammar, rest: string)
    requires AllWhitespace(ws) && Printable(items, g)
    requires forall i :: 0 <= i < |items| ==> items[i].key !in slots
    ensures ReadFields(Spread(ws, ItemTexts(items)) + (")" + rest), slots, g) == Ok(Parsed(SlotsOf(items, slots), rest))
  {
    ReadPrefix(ws, items, slots, g, ")" + rest);
    assert SkipIgnored(")" + rest) == ")" + rest;
  }

  lemma BadItemFails(ws: string, item: Item, tail: string, slots: Slots, g: Grammar)
    requires AllWhitespace(ws) && IsWord(item.key)
    requires item.key in g.kinds ==> item.key in slots && Fits(item.slot, g.kinds[item.key])
    ensures ReadFields(ws + (ItemText(item) + tail), slots, g)
         == Err(if item.key in g.kinds then DuplicateField(item.key) else UnknownField(item.key))
  {
    hide ItemText, SlotText, ReadSlot, TokenLength, IsWord, Fits;
    var value := " " + (SlotText(item.slot) + (")" + tail));
    var text := ItemText(item) + tail;
    ItemParts(item, tail);
    SkipWhitespace(ws, text);
    assert SkipIgnored(text) == text && text[1..] == item.key + value;
    ReadWord("", item.key, value, g.quoteEnds);
    assert "" + (item.key + value) == item.key + value;
    if item.key in g.kinds {
      ReadPrintedSlot(item.slot, g.kinds[item.key], g.quoteEnds, tail);
    }
  }

  /** After any fields, one that repeats an earlier one or is not known is refused. */
  lemma BadFieldIsRefused(ws: string, items: seq<Item>, bad: Item, tail: string, g: Grammar)
    requires AllWhitespace(ws) && Printable(items, g) && IsWord(bad.key)
    requires bad.key in g.kinds ==>
               Fits(bad.slot, g.kinds[bad.key]) && exists i :: 0 <= i < |items| && items[i].key == bad.key
    ensures ReadFields(Spread(ws, ItemTexts(items)) + (ws + (ItemText(bad) + tail)), map[], g)
         == Err(if bad.key in g.kinds then DuplicateField(bad.key) else UnknownField(bad.key))
  {
    hide ReadFields, ItemText, IsWord, Fits, SlotsOf;
    ReadPrefix(ws, items, map[], g, ws + (ItemText(bad) + tail));
    SlotsOfExactly(items, bad.key);
    BadItemFails(ws, bad, tail, SlotsOf(items, map[]), g);
  }

  /** A printed form, after any ignored text and before a final line break, reads back. */
  lemma PrintedReadsBack(before: string, ws: string, items: seq<Item>, end: string, g: Grammar)
    requires AllWhitespace(ws) && ws != [] && Printable(items, g) && IsWord(g.root)
    requires forall s :: SkipIgnored(before + s) == SkipIgnored(s)
    requires SkipIgnored(end) == []
    ensures ReadFlat(before + (Call(g.root, ws, ItemTexts(items)) + end), g) == Ok(SlotsOf(items, map[]))
  {
    hide ReadFields, ItemTexts, Spread, IsWord, TokenLength;
    var fields := Spread(ws, ItemTexts(items)) + (")" + end);
    var text := Call(g.root, ws, ItemTexts(items)) + end;
    assert text == "(" + (g.root + fields);
    assert SkipIgnored(before + text) == SkipIgnored(text);
    assert SkipIgnored(text) == text && text[1..] == g.root + fields;
    FieldsEndRoot(ws, ItemTexts(items), end, g.quoteEnds);
    ReadWord("", g.root, fields, g.quoteEnds);
    assert "" + (g.root + fields) == g.root + fields;
    ReadPrintedItems(ws, items, map[], g, end);
  }

  lemma FieldsEndRoot(ws: string, texts: seq<string>, rest: string, quoteEnds: bool)
    requires AllWhitespace(ws) && ws != []
    ensures Ended(Spread(ws, texts) + (")" + rest), quoteEnds)
  {
    if texts == [] {
      assert Spread(ws, texts) + (")" + rest) == ")" + rest;
    }
  }
}
