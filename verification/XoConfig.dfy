/** The native client's configuration: the canonical program its parsed fields are rebuilt into. */
module XoConfig {
  import opened Integers
  import opened Results
  import opened Decimals
  import opened JsonStrings
  import opened Lexer
  import opened Layout
  import opened FlatConfig

  datatype NativeXoFields = NativeXoFields(
    schema: nat,
    stateDir: string,
    clientId: Option<string>,
    server: string,
    projection: string)

  const DEFAULT_SERVER := "http://127.0.0.1:9464"

  const GRAMMAR := Grammar("xo-config", false, map[
    "schema" := Number, "state-dir" := RequiredText, "client-id" := NullableText, "server" := RequiredText,
    "projection" := RequiredText])

  /** `NativeXoFields::canonical`. */
  function Canonical(f: NativeXoFields): string {
    Call("xo-config", " ",
         [Call("schema", " ", [PrintNat(f.schema)]), Call("state-dir", " ", [Quote(f.stateDir)]),
          Call("client-id", " ", [QuotedOrFalse(f.clientId)]), Call("server", " ", [Quote(f.server)]),
          Call("projection", " ", [Quote(f.projection)])])
  }

  function Required(slots: Slots, key: string): Result<string, FlatError> {
    if key in slots && slots[key].Txt? && slots[key].text.Some? then Ok(slots[key].text.value)
    else Err(MissingField(key))
  }

  function FromSlots(slots: Slots): Result<NativeXoFields, FlatError> {
    if "schema" !in slots || !slots["schema"].Num? then Err(MissingField("schema"))
    else
      var stateDir :- Required(slots, "state-dir");
      var projection :- Required(slots, "projection");
      Ok(NativeXoFields(
           slots["schema"].number,
           stateDir,
           if "client-id" in slots && slots["client-id"].Txt? then slots["client-id"].text else None,
           match Required(slots, "server") case Ok(server) => server case Err(_) => DEFAULT_SERVER,
           projection))
  }

  function ParseXo(source: string): Result<NativeXoFields, FlatError> {
    var slots :- ReadFlat(source, GRAMMAR);
    FromSlots(slots)
  }

  /** `NativeXoParser::parse`. */
  method Parse(source: string) returns (r: Result<NativeXoFields, FlatError>)
    ensures r == ParseXo(source)
  {
    var parser := new Parser(source, GRAMMAR);
    var slots := parser.Parse();
    return if slots.Ok? then FromSlots(slots.value) else Err(slots.error);
  }

  function Items(f: NativeXoFields): seq<Item> {
    [Item("schema", Num(f.schema)), Item("state-dir", Txt(Some(f.stateDir))), Item("client-id", Txt(f.clientId)),
     Item("server", Txt(Some(f.server))), Item("projection", Txt(Some(f.projection)))]
  }

  lemma KeyWords()
    ensures IsWord("schema") && IsWord("state-dir") && IsWord("client-id") && IsWord("server")
    ensures IsWord("projection") && IsWord("xo-config")
  {
  }

  lemma ItemsPrintable(f: NativeXoFields)
    requires f.schema <= U16_MAX
    ensures Printable(Items(f), GRAMMAR)
  {
    hide IsWord;
    KeyWords();
  }

  lemma CanonicalIsItems(f: NativeXoFields)
    ensures Canonical(f) == Call("xo-config", " ", ItemTexts(Items(f)))
  {
    hide Quote, PrintNat, Call;
    assert ItemTexts(Items(f)) ==
      [Call("schema", " ", [PrintNat(f.schema)]), Call("state-dir", " ", [Quote(f.stateDir)]),
       Call("client-id", " ", [QuotedOrFalse(f.clientId)]), Call("server", " ", [Quote(f.server)]),
       Call("projection", " ", [Quote(f.projection)])];
  }

  lemma SlotsRestore(f: NativeXoFields)
    ensures FromSlots(SlotsOf(Items(f), map[])) == Ok(f)
  {
    hide SlotsOf;
    var items := Items(f);
    SlotsOfHolds(items, map[], 0);
    SlotsOfHolds(items, map[], 1);
    SlotsOfHolds(items, map[], 2);
    SlotsOfHolds(items, map[], 3);
    SlotsOfHolds(items, map[], 4);
  }

  /** The parser reads the canonical text back to the same fields, for any strings in them. */
  lemma CanonicalRoundTrips(f: NativeXoFields)
    requires f.schema <= U16_MAX
    ensures ParseXo(Canonical(f)) == Ok(f)
  {
    hide ReadFlat, Canonical, Items, SlotsOf, ItemTexts, IsWord, Printable, Call;
    CanonicalIsItems(f);
    ItemsPrintable(f);
    KeyWords();
    forall s: string ensures SkipIgnored("" + s) == SkipIgnored(s) {
      assert "" + s == s;
    }
    var text := Call("xo-config", " ", ItemTexts(Items(f)));
    assert "" + (text + "") == text;
    assert SkipIgnored("") == [];
    PrintedReadsBack("", " ", Items(f), "", GRAMMAR);
    SlotsRestore(f);
  }

  /** Whatever text the parser accepts, it reads its canonical rewriting to the same fields. */
  lemma RewritingKeepsFields(source: string)
    requires ParseXo(source).Ok?
    ensures ParseXo(Canonical(ParseXo(source).value)) == ParseXo(source)
  {
    var f := ParseXo(source).value;
    AcceptedFits(source, GRAMMAR);
    assert f.schema <= U16_MAX;
    CanonicalRoundTrips(f);
  }

  // ----- What may be left out ------------------------------------------------------------------------------

  /** What the fields of a configuration mean: the identity of the client may be missing, and without a server it is
      the local one. */
  predicate Says(slots: Slots, f: NativeXoFields) {
    && "schema" in slots && slots["schema"] == Num(f.schema)
    && "state-dir" in slots && slots["state-dir"] == Txt(Some(f.stateDir))
    && "projection" in slots && slots["projection"] == Txt(Some(f.projection))
    && (if "client-id" in slots then slots["client-id"] == Txt(f.clientId) else f.clientId == None)
    && (if "server" in slots then slots["server"] == Txt(Some(f.server)) else f.server == "http://127.0.0.1:9464")
  }

  lemma FromSlotsExactly(slots: Slots, f: NativeXoFields)
    requires SlotsFit(slots, GRAMMAR)
    ensures FromSlots(slots) == Ok(f) <==> Says(slots, f)
  {
    assert "state-dir" in slots ==> slots["state-dir"].Txt? && slots["state-dir"].text.Some?;
    assert "projection" in slots ==> slots["projection"].Txt? && slots["projection"].text.Some?;
    assert "server" in slots ==> slots["server"].Txt? && slots["server"].text.Some?;
    assert "client-id" in slots ==> slots["client-id"].Txt?;
  }

  const DEFAULTS := {Item("client-id", Txt(None)), Item("server", Txt(Some("http://127.0.0.1:9464")))}

  lemma ItemsDistinct(f: NativeXoFields)
    ensures forall i, j :: 0 <= i < j < |Items(f)| ==> Items(f)[i].key != Items(f)[j].key
  {
  }

  lemma SelectedSays(items: seq<Item>, f: NativeXoFields)
    requires Selects(items, Items(f), DEFAULTS)
    ensures Says(SlotsOf(items, map[]), f)
  {
    hide SlotsOf, Selects;
    ItemsDistinct(f);
    SelectedGiven(items, Items(f), DEFAULTS, 0);
    SelectedGiven(items, Items(f), DEFAULTS, 1);
    SelectedGiven(items, Items(f), DEFAULTS, 2);
    SelectedGiven(items, Items(f), DEFAULTS, 3);
    SelectedGiven(items, Items(f), DEFAULTS, 4);
  }

  /** A configuration written with any selection of its fields, in any order, that leaves out only
      defaults, parses to it. */
  lemma SelectionParses(f: NativeXoFields, items: seq<Item>)
    requires f.schema <= U16_MAX && Selects(items, Items(f), DEFAULTS)
    ensures ParseXo(Call("xo-config", " ", ItemTexts(items))) == Ok(f)
  {
    hide ReadFlat, Items, SlotsOf, ItemTexts, IsWord, Printable, Call, Selects, Says, FromSlots;
    ItemsPrintable(f);
    SelectedPrintable(items, Items(f), DEFAULTS, GRAMMAR);
    KeyWords();
    forall s: string ensures SkipIgnored("" + s) == SkipIgnored(s) {
      assert "" + s == s;
    }
    var text := Call("xo-config", " ", ItemTexts(items));
    assert "" + (text + "") == text;
    assert SkipIgnored("") == [];
    PrintedReadsBack("", " ", items, "", GRAMMAR);
    AcceptedFits(text, GRAMMAR);
    SelectedSays(items, f);
    FromSlotsExactly(SlotsOf(items, map[]), f);
  }
}
