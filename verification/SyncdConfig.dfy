/** The server's configuration file: its document and its parser. */
module SyncdConfig {
  import opened Integers
  import opened Results
  import opened Decimals
  import opened JsonStrings
  import opened Lexer
  import opened Layout
  import opened ConfigParser
  import opened FlatConfig

  datatype SyncdConfig = SyncdConfig(
    schema: nat,
    stateDir: Option<string>,
    bind: Option<string>,
    oidcIssuer: Option<string>,
    oidcAudience: Option<string>,
    oidcClientId: Option<string>)

  const COMMENT_WORDS :=
    ["; xo-syncd ", "server ", "configuration; ", "command-line ", "flags override ", "these values."]
  const COMMENT: string := Concat(COMMENT_WORDS)
  const MAX_SYNCD_BYTES: nat := 65_536

  const GRAMMAR := Grammar("xo-syncd-config", true, map[
    "schema" := Number, "state-dir" := NullableText, "bind" := NullableText, "oidc-issuer" := NullableText,
    "oidc-audience" := NullableText, "oidc-client-id" := NullableText])

  function Concat(words: seq<string>): string {
    if words == [] then [] else words[0] + Concat(words[1..])
  }

  function Document(c: SyncdConfig): string {
    COMMENT + "\n"
    + Call("xo-syncd-config", AT2,
           [Call("schema", " ", [PrintNat(c.schema)]),
            Call("state-dir", " ", [QuotedOrFalse(c.stateDir)]),
            Call("bind", " ", [QuotedOrFalse(c.bind)]),
            Call("oidc-issuer", " ", [QuotedOrFalse(c.oidcIssuer)]),
            Call("oidc-audience", " ", [QuotedOrFalse(c.oidcAudience)]),
            Call("oidc-client-id", " ", [QuotedOrFalse(c.oidcClientId)])])
    + "\n"
  }

  function TextSlot(slots: Slots, key: string): Option<string> {
    if key in slots && slots[key].Txt? then slots[key].text else None
  }

  function FromSlots(slots: Slots): Result<SyncdConfig, FlatError> {
    if "schema" !in slots || !slots["schema"].Num? then Err(MissingField("schema"))
    else
      Ok(SyncdConfig(slots["schema"].number, TextSlot(slots, "state-dir"), TextSlot(slots, "bind"),
                     TextSlot(slots, "oidc-issuer"), TextSlot(slots, "oidc-audience"),
                     TextSlot(slots, "oidc-client-id")))
  }

  function ParseSyncd(source: string): Result<SyncdConfig, FlatError> {
    if Utf8Length(source) > MAX_SYNCD_BYTES then Err(TooLarge)
    else
      var slots :- ReadFlat(source, GRAMMAR);
      FromSlots(slots)
  }

  /** `Parser::parse`. */
  method Parse(source: string) returns (r: Result<SyncdConfig, FlatError>)
    ensures r == ParseSyncd(source)
  {
    if Utf8Length(source) > MAX_SYNCD_BYTES {
      return Err(TooLarge);
    }
    var parser := new Parser(source, GRAMMAR);
    var slots := parser.Parse();
    return if slots.Ok? then FromSlots(slots.value) else Err(slots.error);
  }

  function Items(c: SyncdConfig): seq<Item> {
    [Item("schema", Num(c.schema)), Item("state-dir", Txt(c.stateDir)), Item("bind", Txt(c.bind)),
     Item("oidc-issuer", Txt(c.oidcIssuer)), Item("oidc-audience", Txt(c.oidcAudience)),
     Item("oidc-client-id", Txt(c.oidcClientId))]
  }

  lemma KeyWords()
    ensures IsWord("schema") && IsWord("state-dir") && IsWord("bind") && IsWord("oidc-issuer")
    ensures IsWord("oidc-audience") && IsWord("oidc-client-id") && IsWord("xo-syncd-config")
  {
  }

  lemma ItemsPrintable(c: SyncdConfig)
    requires c.schema <= U16_MAX
    ensures Printable(Items(c), GRAMMAR)
  {
    hide IsWord;
    KeyWords();
  }

  lemma DocumentIsItems(c: SyncdConfig)
    ensures Document(c) == (COMMENT + "\n") + (Call("xo-syncd-config", AT2, ItemTexts(Items(c))) + "\n")
  {
    hide Quote, PrintNat, Call;
    var items := Items(c);
    var texts := ItemTexts(items);
    assert texts == [Call("schema", " ", [PrintNat(c.schema)]), Call("state-dir", " ", [QuotedOrFalse(c.stateDir)]),
                     Call("bind", " ", [QuotedOrFalse(c.bind)]),
                     Call("oidc-issuer", " ", [QuotedOrFalse(c.oidcIssuer)]),
                     Call("oidc-audience", " ", [QuotedOrFalse(c.oidcAudience)]),
                     Call("oidc-client-id", " ", [QuotedOrFalse(c.oidcClientId)])];
  }

  lemma {:induction false} DropPrefix(prefix: string, s: string)
    requires forall i :: 0 <= i < |prefix| ==> prefix[i] != '\n'
    ensures DropLine(prefix + s) == DropLine(s)
  {
    if prefix == [] {
      assert prefix + s == s;
    } else {
      assert (prefix + s)[1..] == prefix[1..] + s;
      DropPrefix(prefix[1..], s);
    }
  }

  lemma {:induction false} DropWords(i: nat, s: string)
    requires i <= |COMMENT_WORDS|
    ensures DropLine(Concat(COMMENT_WORDS[i..]) + s) == DropLine(s)
    decreases |COMMENT_WORDS| - i
  {
    var words := COMMENT_WORDS[i..];
    if i == |COMMENT_WORDS| {
      assert Concat(words) + s == s;
    } else {
      DropPrefix(words[0], Concat(words[1..]) + s);
      assert Concat(words) + s == words[0] + (Concat(words[1..]) + s);
      assert words[1..] == COMMENT_WORDS[i + 1..];
      DropWords(i + 1, s);
    }
  }

  lemma CommentIsIgnored(s: string)
    ensures SkipIgnored(COMMENT + "\n" + s) == SkipIgnored(s)
  {
    var text := COMMENT + "\n" + s;
    assert text == COMMENT + ("\n" + s);
    DropWords(0, "\n" + s);
    assert COMMENT_WORDS[0..] == COMMENT_WORDS;
    assert text[0] == ';' by {
      assert COMMENT == COMMENT_WORDS[0] + Concat(COMMENT_WORDS[1..]);
    }
    assert SkipIgnored(text) == SkipIgnored("\n" + s);
    assert ("\n" + s)[1..] == s;
  }

  lemma SlotsRestore(c: SyncdConfig)
    ensures FromSlots(SlotsOf(Items(c), map[])) == Ok(c)
  {
    hide SlotsOf;
    var items := Items(c);
    SlotsOfHolds(items, map[], 0);
    SlotsOfHolds(items, map[], 1);
    SlotsOfHolds(items, map[], 2);
    SlotsOfHolds(items, map[], 3);
    SlotsOfHolds(items, map[], 4);
    SlotsOfHolds(items, map[], 5);
  }

  /** The server's document parses back to the configuration, through its leading comment,
      precisely when it fits the size limit. */
  lemma DocumentRoundTrips(c: SyncdConfig)
    requires c.schema <= U16_MAX
    ensures ParseSyncd(Document(c)) == Ok(c) <==> Utf8Length(Document(c)) <= MAX_SYNCD_BYTES
  {
    hide Utf8Length, ReadFlat, Document, Items, SlotsOf, ItemTexts, IsWord, Printable;
    DocumentIsItems(c);
    ItemsPrintable(c);
    KeyWords();
    forall s ensures SkipIgnored((COMMENT + "\n") + s) == SkipIgnored(s) {
      CommentIsIgnored(s);
    }
    assert SkipIgnored("\n") == [];
    PrintedReadsBack(COMMENT + "\n", AT2, Items(c), "\n", GRAMMAR);
    SlotsRestore(c);
  }

  /** Rewriting an accepted file as the server's own document keeps its meaning. */
  lemma RewritingKeepsMeaning(source: string)
    requires ParseSyncd(source).Ok?
    ensures var c := ParseSyncd(source).value;
            Utf8Length(Document(c)) <= MAX_SYNCD_BYTES ==> ParseSyncd(Document(c)) == Ok(c)
  {
    var c := ParseSyncd(source).value;
    AcceptedFits(source, GRAMMAR);
    assert c.schema <= U16_MAX;
    DocumentRoundTrips(c);
  }

  // ----- What may be left out ------------------------------------------------------------------------------

  predicate TextSays(slots: Slots, key: string, value: Option<string>) {
    if key in slots then slots[key] == Txt(value) else value == None
  }

  /** What the fields of the file mean: all but the schema may be missing. */
  predicate Says(slots: Slots, c: SyncdConfig) {
    && "schema" in slots && slots["schema"] == Num(c.schema)
    && TextSays(slots, "state-dir", c.stateDir) && TextSays(slots, "bind", c.bind)
    && TextSays(slots, "oidc-issuer", c.oidcIssuer) && TextSays(slots, "oidc-audience", c.oidcAudience)
    && TextSays(slots, "oidc-client-id", c.oidcClientId)
  }

  lemma TextSlotExactly(slots: Slots, key: string, value: Option<string>)
    requires key in GRAMMAR.kinds && GRAMMAR.kinds[key] == NullableText && SlotsFit(slots, GRAMMAR)
    ensures TextSlot(slots, key) == value <==> TextSays(slots, key, value)
  {
  }

  lemma FromSlotsExactly(slots: Slots, c: SyncdConfig)
    requires SlotsFit(slots, GRAMMAR)
    ensures FromSlots(slots) == Ok(c) <==> Says(slots, c)
  {
    hide TextSlot, TextSays;
    TextSlotExactly(slots, "state-dir", c.stateDir);
    TextSlotExactly(slots, "bind", c.bind);
    TextSlotExactly(slots, "oidc-issuer", c.oidcIssuer);
    TextSlotExactly(slots, "oidc-audience", c.oidcAudience);
    TextSlotExactly(slots, "oidc-client-id", c.oidcClientId);
    assert "schema" in slots ==> slots["schema"].Num?;
  }

  const DEFAULTS := {Item("state-dir", Txt(None)), Item("bind", Txt(None)), Item("oidc-issuer", Txt(None)),
                     Item("oidc-audience", Txt(None)), Item("oidc-client-id", Txt(None))}

  lemma ItemsDistinct(c: SyncdConfig)
    ensures forall i, j :: 0 <= i < j < |Items(c)| ==> Items(c)[i].key != Items(c)[j].key
  {
  }

  lemma SelectedSays(items: seq<Item>, c: SyncdConfig)
    requires Selects(items, Items(c), DEFAULTS)
    ensures Says(SlotsOf(items, map[]), c)
  {
    hide SlotsOf, Selects;
    ItemsDistinct(c);
    SelectedGiven(items, Items(c), DEFAULTS, 0);
    SelectedGiven(items, Items(c), DEFAULTS, 1);
    SelectedGiven(items, Items(c), DEFAULTS, 2);
    SelectedGiven(items, Items(c), DEFAULTS, 3);
    SelectedGiven(items, Items(c), DEFAULTS, 4);
    SelectedGiven(items, Items(c), DEFAULTS, 5);
  }

  /** A file within the limit, written with any selection of its fields, in any order, that leaves out
      only what is not set, parses to the configuration. */
  lemma SelectionParses(c: SyncdConfig, items: seq<Item>)
    requires c.schema <= U16_MAX && Selects(items, Items(c), DEFAULTS)
    requires Utf8Length(Call("xo-syncd-config", AT2, ItemTexts(items))) <= 65536
    ensures ParseSyncd(Call("xo-syncd-config", AT2, ItemTexts(items))) == Ok(c)
  {
    hide ReadFlat, Items, SlotsOf, ItemTexts, IsWord, Printable, Call, Selects, Says, FromSlots, Utf8Length;
    ItemsPrintable(c);
    SelectedPrintable(items, Items(c), DEFAULTS, GRAMMAR);
    KeyWords();
    forall s: string ensures SkipIgnored("" + s) == SkipIgnored(s) {
      assert "" + s == s;
    }
    var text := Call("xo-syncd-config", AT2, ItemTexts(items));
    assert "" + (text + "") == text;
    assert SkipIgnored("") == [];
    PrintedReadsBack("", AT2, items, "", GRAMMAR);
    AcceptedFits(text, GRAMMAR);
    SelectedSays(items, c);
    FromSlotsExactly(SlotsOf(items, map[]), c);
  }

  /** A file over 65536 bytes is refused unread. */
  lemma TooLargeIsRefused(source: string)
    ensures Utf8Length(source) > 65536 ==> ParseSyncd(source) == Err(FlatError.TooLarge)
  {
    hide Utf8Length, ReadFlat;
  }
}
