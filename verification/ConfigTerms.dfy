/** The terms of a printed configuration - predicates, values, effects, plugins: the form each text
    denotes, and what the parser makes of that form. */
module ConfigTerms {
  import opened Results
  import opened Sequences
  import opened Strings
  import opened FrontmatterValues
  import opened Decimals
  import opened Behavior
  import opened JsonStrings
  import opened Lexer
  import opened Forms
  import opened Layout
  import opened ConfigDecoder
  import ConfigPrinter

  /** The one law about floating point text: a finite number prints as a word that reads back. */
  ghost predicate Faithful(floats: FloatText) {
    forall f: F64 :: IsFinite(f) ==> IsWord(floats.show(f)) && floats.read(floats.show(f)) == Some(f)
  }

  // ----- Words ------------------------------------------------------------------------------------------

  lemma IntWord(n: int)
    ensures IsWord(PrintInt(n))
  {
    NatIsWord(if n < 0 then -n else n);
  }

  lemma BoolReadsBack(b: bool)
    ensures Denotes(ConfigPrinter.BoolText(b), Symbol(ConfigPrinter.BoolText(b)))
    ensures BoolOf(Symbol(ConfigPrinter.BoolText(b))) == Ok(b)
  {
    assert IsWord(ConfigPrinter.BoolText(b));
    WordDenotes(ConfigPrinter.BoolText(b));
  }

  function OptionalForm(value: Option<string>): Form {
    match value
    case None => Symbol("#f")
    case Some(text) => Text(text)
  }

  lemma OptionalDenotes(value: Option<string>)
    ensures Denotes(QuotedOrFalse(value), OptionalForm(value))
  {
    match value {
      case None => assert IsWord("#f"); WordDenotes("#f");
      case Some(text) => QuoteDenotes(text);
    }
  }

  function CapabilityForms(cs: seq<Capability>): seq<Form> {
    seq(|cs|, i requires 0 <= i < |cs| => Symbol(ConfigPrinter.CapabilityText(cs[i])))
  }

  lemma CapabilitiesDenote(cs: seq<Capability>)
    ensures AllDenote(ConfigPrinter.CapabilityTexts(cs), CapabilityForms(cs))
  {
    forall i | 0 <= i < |cs| ensures Denotes(ConfigPrinter.CapabilityTexts(cs)[i], CapabilityForms(cs)[i]) {
      hide IsWord, Denotes, ConfigPrinter.CapabilityText;
      WordDenotes(ConfigPrinter.CapabilityText(cs[i]));
    }
  }

  lemma CapabilityReadsBack(c: Capability)
    ensures CapabilityOf(Symbol(ConfigPrinter.CapabilityText(c))) == Ok(c)
  {
  }

  lemma {:induction false} CapabilitiesParse(cs: seq<Capability>)
    ensures CapabilitiesOf(CapabilityForms(cs)) == Ok(set c | c in cs)
  {
    if cs == [] {
      assert (set c | c in cs) == {};
    } else {
      CapabilitiesParse(cs[1..]);
      assert CapabilityForms(cs)[1..] == CapabilityForms(cs[1..]);
      CapabilityReadsBack(cs[0]);
      hide CapabilityOf, ConfigPrinter.CapabilityText;
      assert (set c | c in cs) == {cs[0]} + set c | c in cs[1..];
    }
  }

  lemma ListedReadBack(capabilities: set<Capability>)
    ensures (set c | c in ConfigPrinter.Listed(capabilities)) == capabilities
  {
    forall c ensures c in ConfigPrinter.Listed(capabilities) <==> c in capabilities {
      ConfigPrinter.ListedAll(capabilities, c);
    }
  }

  // ----- Calls with few arguments -----------------------------------------------------------------------

  lemma NullaryDenotes(name: string)
    requires IsWord(name)
    ensures Denotes(Call(name, " ", []), CallForm(name, []))
  {
    CallDenotes(name, " ", [], []);
  }

  lemma UnaryDenotes(name: string, text: string, form: Form)
    requires IsWord(name) && Denotes(text, form)
    ensures Denotes(Call(name, " ", [text]), CallForm(name, [form]))
  {
    CallDenotes(name, " ", [text], [form]);
  }

  lemma BinaryDenotes(name: string, text: string, form: Form, text': string, form': Form)
    requires IsWord(name) && Denotes(text, form) && Denotes(text', form')
    ensures Denotes(Call(name, " ", [text, text']), CallForm(name, [form, form']))
  {
    CallDenotes(name, " ", [text, text'], [form, form']);
  }

  // ----- Predicates ----------------------------------------------------------------------------------------

  function PredicateForm(p: Predicate): Form {
    match p
    case Always => CallForm("always", [])
    case FieldEquals(field, value) => CallForm("field-equals", [Text(field), Text(value)])
    case HasTag(tag) => CallForm("has-tag", [Text(tag)])
    case Not(inner) => CallForm("not", [PredicateForm(inner)])
    case AllOf(inner) => CallForm("all", PredicateForms(inner))
    case AnyOf(inner) => CallForm("any", PredicateForms(inner))
  }

  function PredicateForms(ps: seq<Predicate>): (forms: seq<Form>)
    ensures |forms| == |ps|
  {
    if ps == [] then [] else [PredicateForm(ps[0])] + PredicateForms(ps[1..])
  }

  lemma {:induction false} PredicateDenotes(p: Predicate)
    ensures Denotes(ConfigPrinter.PredicateText(p), PredicateForm(p))
  {
    match p {
      case Always =>
        assert IsWord("always");
        NullaryDenotes("always");
      case FieldEquals(field, value) =>
        assert IsWord("field-equals");
        QuoteDenotes(field);
        QuoteDenotes(value);
        BinaryDenotes("field-equals", Quote(field), Text(field), Quote(value), Text(value));
      case HasTag(tag) =>
        assert IsWord("has-tag");
        QuoteDenotes(tag);
        UnaryDenotes("has-tag", Quote(tag), Text(tag));
      case Not(inner) =>
        assert IsWord("not");
        PredicateDenotes(inner);
        UnaryDenotes("not", ConfigPrinter.PredicateText(inner), PredicateForm(inner));
      case AllOf(inner) =>
        assert IsWord("all");
        PredicatesDenote(inner);
        CallDenotes("all", " ", ConfigPrinter.PredicateTexts(inner), PredicateForms(inner));
      case AnyOf(inner) =>
        assert IsWord("any");
        PredicatesDenote(inner);
        CallDenotes("any", " ", ConfigPrinter.PredicateTexts(inner), PredicateForms(inner));
    }
  }

  lemma {:induction false} PredicatesDenote(ps: seq<Predicate>)
    ensures AllDenote(ConfigPrinter.PredicateTexts(ps), PredicateForms(ps))
  {
    if ps != [] {
      PredicateDenotes(ps[0]);
      PredicatesDenote(ps[1..]);
    }
  }

  lemma CallFormParts(name: string, args: seq<Form>)
    ensures Head(CallForm(name, args)) == Ok(name) && CallForm(name, args).items[1..] == args
  {
  }

  lemma {:induction false} PredicateParses(p: Predicate)
    ensures ParsePredicate(PredicateForm(p)) == Ok(p)
  {
    match p {
      case Always => CallFormParts("always", []);
      case FieldEquals(field, value) => CallFormParts("field-equals", [Text(field), Text(value)]);
      case HasTag(tag) => CallFormParts("has-tag", [Text(tag)]);
      case Not(inner) =>
        PredicateParses(inner);
        CallFormParts("not", [PredicateForm(inner)]);
      case AllOf(inner) =>
        PredicatesParse(inner);
        CallFormParts("all", PredicateForms(inner));
      case AnyOf(inner) =>
        PredicatesParse(inner);
        CallFormParts("any", PredicateForms(inner));
    }
  }

  lemma {:induction false} PredicatesParse(ps: seq<Predicate>)
    ensures ParsePredicates(PredicateForms(ps)) == Ok(ps)
  {
    if ps != [] {
      PredicateParses(ps[0]);
      PredicatesParse(ps[1..]);
      assert PredicateForms(ps)[1..] == PredicateForms(ps[1..]);
      assert ps == [ps[0]] + ps[1..];
    }
  }

  lemma {:induction false} PredicateComesFrom(form: Form)
    requires ParsePredicate(form).Ok?
    ensures form == PredicateForm(ParsePredicate(form).value)
  {
    var name, args := Head(form).value, form.items[1..];
    assert form.items == [Symbol(name)] + args;
    if name == "not" && |args| == 1 {
      PredicateComesFrom(form.items[1]);
      assert args == [form.items[1]];
    } else if name == "all" || name == "any" {
      PredicatesComeFrom(args);
    } else if |args| == 1 {
      assert args == [args[0]];
    } else if |args| == 2 {
      assert args == [args[0], args[1]];
    }
  }

  lemma {:induction false} PredicatesComeFrom(forms: seq<Form>)
    requires ParsePredicates(forms).Ok?
    ensures forms == PredicateForms(ParsePredicates(forms).value)
  {
    if forms != [] {
      PredicateComesFrom(forms[0]);
      PredicatesComeFrom(forms[1..]);
      assert forms == [forms[0]] + forms[1..];
      var ps := ParsePredicates(forms).value;
      assert ps[1..] == ParsePredicates(forms[1..]).value;
    }
  }

  /** A form parses to a predicate exactly when it is the one form that predicate is printed as:
      the decoder accepts nothing else, at any depth of nesting. */
  lemma PredicateParsesExactly(form: Form, p: Predicate)
    ensures ParsePredicate(form) == Ok(p) <==> form == PredicateForm(p)
  {
    hide ParsePredicate, PredicateForm;
    PredicateParses(p);
    if ParsePredicate(form) == Ok(p) {
      PredicateComesFrom(form);
    }
  }

  // ----- Frontmatter values --------------------------------------------------------------------------------

  function ValueForm(v: FrontmatterValue, floats: FloatText): Form
    decreases v
  {
    match v
    case Null => CallForm("null", [])
    case Bool(flag) => CallForm("bool", [Symbol(ConfigPrinter.BoolText(flag))])
    case Integer(n) => CallForm("integer", [Symbol(PrintInt(n))])
    case Float(f) => CallForm("float", [Symbol(floats.show(f))])
    case Str(text) => CallForm("string", [Text(text)])
    case Sequence(values) => CallForm("sequence", ValueForms(values, floats))
    case Mapping(entries) => CallForm("mapping", EntryForms(SortedKeys(entries.Keys), v, floats))
  }

  function ValueForms(vs: seq<FrontmatterValue>, floats: FloatText): (forms: seq<Form>)
    ensures |forms| == |vs|
    decreases vs
  {
    if vs == [] then [] else [ValueForm(vs[0], floats)] + ValueForms(vs[1..], floats)
  }

  function EntryForms(keys: seq<string>, v: FrontmatterValue, floats: FloatText): (forms: seq<Form>)
    requires v.Mapping? && forall k :: k in keys ==> k in v.entries
    ensures |forms| == |keys|
    decreases v, |keys|
  {
    if keys == [] then []
    else [CallForm("entry", [Text(keys[0]), ValueForm(v.entries[keys[0]], floats)])] + EntryForms(keys[1..], v, floats)
  }

  lemma ValueWords()
    ensures IsWord("null") && IsWord("bool") && IsWord("integer") && IsWord("float") && IsWord("string")
    ensures IsWord("sequence") && IsWord("mapping") && IsWord("entry")
  {
  }

  lemma {:induction false} ValueDenotes(v: FrontmatterValue, floats: FloatText)
    requires Faithful(floats) && Finite(v)
    ensures Denotes(ConfigPrinter.ValueText(v, floats), ValueForm(v, floats))
    decreases v
  {
    hide IsWord, Denotes, Quote, PrintNat, SortedKeys, Less;
    ValueWords();
    match v {
      case Null =>
        NullaryDenotes("null");
      case Bool(flag) =>
        BoolReadsBack(flag);
        UnaryDenotes("bool", ConfigPrinter.BoolText(flag), Symbol(ConfigPrinter.BoolText(flag)));
      case Integer(n) =>
        IntWord(n);
        WordDenotes(PrintInt(n));
        UnaryDenotes("integer", PrintInt(n), Symbol(PrintInt(n)));
      case Float(f) =>
        WordDenotes(floats.show(f));
        UnaryDenotes("float", floats.show(f), Symbol(floats.show(f)));
      case Str(text) =>
        QuoteDenotes(text);
        UnaryDenotes("string", Quote(text), Text(text));
      case Sequence(values) =>
        ValuesDenote(values, floats);
        CallDenotes("sequence", " ", ConfigPrinter.ValueTexts(values, floats), ValueForms(values, floats));
      case Mapping(entries) =>
        EntriesDenote(SortedKeys(entries.Keys), v, floats);
        CallDenotes("mapping", " ", ConfigPrinter.EntryTexts(SortedKeys(entries.Keys), v, floats),
                    EntryForms(SortedKeys(entries.Keys), v, floats));
    }
  }

  lemma {:induction false} ValuesDenote(vs: seq<FrontmatterValue>, floats: FloatText)
    requires Faithful(floats) && forall i :: 0 <= i < |vs| ==> Finite(vs[i])
    ensures AllDenote(ConfigPrinter.ValueTexts(vs, floats), ValueForms(vs, floats))
    decreases vs
  {
    if vs != [] {
      ValueDenotes(vs[0], floats);
      ValuesDenote(vs[1..], floats);
    }
  }

  lemma {:induction false} EntriesDenote(keys: seq<string>, v: FrontmatterValue, floats: FloatText)
    requires Faithful(floats) && Finite(v)
    requires v.Mapping? && forall k :: k in keys ==> k in v.entries
    ensures AllDenote(ConfigPrinter.EntryTexts(keys, v, floats), EntryForms(keys, v, floats))
    decreases v, |keys|
  {
    if keys != [] {
      var key, value := keys[0], v.entries[keys[0]];
      assert IsWord("entry");
      QuoteDenotes(key);
      ValueDenotes(value, floats);
      BinaryDenotes("entry", Quote(key), Text(key), ConfigPrinter.ValueText(value, floats), ValueForm(value, floats));
      EntriesDenote(keys[1..], v, floats);
    }
  }

  function Picked<V>(keys: seq<string>, entries: map<string, V>): map<string, V> {
    map k | k in keys && k in entries :: entries[k]
  }

  lemma PickedNone<V>(entries: map<string, V>, before: map<string, V>)
    ensures before + Picked([], entries) == before
  {
  }

  lemma PickedCons<V>(keys: seq<string>, entries: map<string, V>, before: map<string, V>)
    requires keys != [] && keys[0] in entries && NoRepeats(keys)
    ensures before[keys[0] := entries[keys[0]]] + Picked(keys[1..], entries) == before + Picked(keys, entries)
  {
    assert keys == [keys[0]] + keys[1..];
  }

  lemma PickedAll<V>(entries: map<string, V>)
    ensures map[] + Picked(SortedKeys(entries.Keys), entries) == entries
  {
    hide SortedKeys, Less;
  }

  lemma {:induction false} ValueParses(v: FrontmatterValue, floats: FloatText)
    requires Faithful(floats) && Finite(v)
    ensures ParseValue(ValueForm(v, floats), floats) == Ok(v)
    decreases v
  {
    match v {
      case Null => CallFormParts("null", []);
      case Bool(flag) =>
        BoolReadsBack(flag);
        CallFormParts("bool", [Symbol(ConfigPrinter.BoolText(flag))]);
      case Integer(n) =>
        ReadIntOfPrint(n, -0x8000_0000_0000_0000, 0x7FFF_FFFF_FFFF_FFFF);
        CallFormParts("integer", [Symbol(PrintInt(n))]);
      case Float(f) => CallFormParts("float", [Symbol(floats.show(f))]);
      case Str(text) => CallFormParts("string", [Text(text)]);
      case Sequence(values) =>
        ValuesParse(values, floats);
        CallFormParts("sequence", ValueForms(values, floats));
      case Mapping(entries) =>
        MappingParses(v, floats);
    }
  }

  lemma {:induction false} MappingParses(v: FrontmatterValue, floats: FloatText)
    requires Faithful(floats) && Finite(v) && v.Mapping?
    ensures ParseValue(ValueForm(v, floats), floats) == Ok(v)
    decreases v, |v.entries| + 1
  {
    hide Less, SortedKeys, Picked, EntryForms, ParseEntries, Faithful;
    var keys := SortedKeys(v.entries.Keys);
    SortedKeysDistinct(v.entries.Keys);
    EntriesParse(keys, v, map[], floats);
    PickedAll(v.entries);
    CallFormParts("mapping", EntryForms(keys, v, floats));
  }

  lemma {:induction false} ValuesParse(vs: seq<FrontmatterValue>, floats: FloatText)
    requires Faithful(floats) && forall i :: 0 <= i < |vs| ==> Finite(vs[i])
    ensures ParseValues(ValueForms(vs, floats), floats) == Ok(vs)
    decreases vs
  {
    if vs != [] {
      ValueParses(vs[0], floats);
      ValuesParse(vs[1..], floats);
      assert ValueForms(vs, floats)[1..] == ValueForms(vs[1..], floats);
      assert vs == [vs[0]] + vs[1..];
    }
  }

  lemma {:induction false} EntriesParse(keys: seq<string>, v: FrontmatterValue, before: map<string, FrontmatterValue>,
      floats: FloatText)
    requires Faithful(floats) && Finite(v) && NoRepeats(keys)
    requires v.Mapping? && forall k :: k in keys ==> k in v.entries && k !in before
    ensures ParseEntries(EntryForms(keys, v, floats), before, floats) == Ok(before + Picked(keys, v.entries))
    decreases v, |keys|
  {
    if keys == [] {
      PickedNone(v.entries, before);
    } else {
      hide ValueForm, ParseValue, Picked;
      var key, value := keys[0], v.entries[keys[0]];
      var form := CallForm("entry", [Text(key), ValueForm(value, floats)]);
      var forms := EntryForms(keys, v, floats);
      CallFormParts("entry", [Text(key), ValueForm(value, floats)]);
      ValueParses(value, floats);
      EntriesParse(keys[1..], v, before[key := value], floats);
      assert forms[0] == form && forms[1..] == EntryForms(keys[1..], v, floats);
      PickedCons(keys, v.entries, before);
    }
  }

  // ----- Effects and plugins -------------------------------------------------------------------------------

  function EffectForm(e: ActionEffect, floats: FloatText): Form {
    match e
    case AddTag(tag) => CallForm("add-tag", [Text(tag)])
    case RemoveTag(tag) => CallForm("remove-tag", [Text(tag)])
    case SetField(field, value) => CallForm("set-field", [Text(field), ValueForm(value, floats)])
    case SetFieldNow(field) => CallForm("set-field", [Text(field), CallForm("now", [])])
    case AppendBody(text) => CallForm("append-body", [Text(text)])
  }

  predicate FiniteEffect(e: ActionEffect) {
    e.SetField? ==> Finite(e.value)
  }

  lemma EffectWords()
    ensures IsWord("add-tag") && IsWord("remove-tag") && IsWord("set-field") && IsWord("now") && IsWord("append-body")
  {
  }

  lemma EffectDenotes(e: ActionEffect, floats: FloatText)
    requires Faithful(floats) && FiniteEffect(e)
    ensures Denotes(ConfigPrinter.EffectText(e, floats), EffectForm(e, floats))
  {
    hide IsWord, Denotes, Quote, Finite;
    EffectWords();
    match e {
      case AddTag(tag) =>
        QuoteDenotes(tag);
        UnaryDenotes("add-tag", Quote(tag), Text(tag));
      case RemoveTag(tag) =>
        QuoteDenotes(tag);
        UnaryDenotes("remove-tag", Quote(tag), Text(tag));
      case SetField(field, value) =>
        QuoteDenotes(field);
        ValueDenotes(value, floats);
        BinaryDenotes("set-field", Quote(field), Text(field), ConfigPrinter.ValueText(value, floats),
          ValueForm(value, floats));
      case SetFieldNow(field) =>
        QuoteDenotes(field);
        NullaryDenotes("now");
        BinaryDenotes("set-field", Quote(field), Text(field), Call("now", " ", []), CallForm("now", []));
      case AppendBody(text) =>
        QuoteDenotes(text);
        UnaryDenotes("append-body", Quote(text), Text(text));
    }
  }

  lemma ValueIsNotNow(v: FrontmatterValue, floats: FloatText)
    ensures !IsNow(ValueForm(v, floats))
  {
    assert ValueForm(v, floats).items[0] != Symbol("now");
  }

  lemma EffectParses(e: ActionEffect, floats: FloatText)
    requires Faithful(floats) && FiniteEffect(e)
    ensures ParseEffect(EffectForm(e, floats), floats) == Ok(e)
  {
    match e {
      case AddTag(tag) => CallFormParts("add-tag", [Text(tag)]);
      case RemoveTag(tag) => CallFormParts("remove-tag", [Text(tag)]);
      case SetField(field, value) =>
        ValueParses(value, floats);
        ValueIsNotNow(value, floats);
        CallFormParts("set-field", [Text(field), ValueForm(value, floats)]);
      case SetFieldNow(field) => CallFormParts("set-field", [Text(field), CallForm("now", [])]);
      case AppendBody(text) => CallFormParts("append-body", [Text(text)]);
    }
  }

  function EffectForms(es: seq<ActionEffect>, floats: FloatText): seq<Form> {
    seq(|es|, i requires 0 <= i < |es| => EffectForm(es[i], floats))
  }

  lemma {:induction false} EffectsReadBack(es: seq<ActionEffect>, floats: FloatText)
    requires Faithful(floats) && forall i :: 0 <= i < |es| ==> FiniteEffect(es[i])
    ensures AllDenote(ConfigPrinter.EffectTexts(es, floats), EffectForms(es, floats))
    ensures ParseEffects(EffectForms(es, floats), floats) == Ok(es)
  {
    hide Denotes, EffectForm, ParseEffect, ConfigPrinter.EffectText, Faithful, FiniteEffect;
    forall i | 0 <= i < |es| ensures Denotes(ConfigPrinter.EffectTexts(es, floats)[i], EffectForms(es, floats)[i]) {
      EffectDenotes(es[i], floats);
    }
    if es != [] {
      EffectParses(es[0], floats);
      EffectsReadBack(es[1..], floats);
      assert EffectForms(es, floats)[1..] == EffectForms(es[1..], floats);
      assert es == [es[0]] + es[1..];
    }
  }

  function PluginForm(p: ActionPlugin): Form {
    match p
    case CaptureUrl => CallForm("capture-url", [])
    case TagPicker => CallForm("tag-picker", [])
    case Steel(path, entrypoint, prompt, capabilities) =>
      CallForm("steel", [Text(path), Text(entrypoint), Text(prompt),
        List(CapabilityForms(ConfigPrinter.Listed(capabilities)))])
  }

  lemma PluginWords()
    ensures IsWord("capture-url") && IsWord("tag-picker") && IsWord("steel")
  {
  }

  lemma SteelDenotes(p: ActionPlugin)
    requires p.Steel?
    ensures Denotes(ConfigPrinter.PluginText(p), PluginForm(p))
  {
    hide Denotes, IsWord, Quote, ConfigPrinter.CapabilityTexts, CapabilityForms, ConfigPrinter.Listed;
    var listed := ConfigPrinter.Listed(p.capabilities);
    PluginWords();
    QuoteDenotes(p.path);
    QuoteDenotes(p.entrypoint);
    QuoteDenotes(p.prompt);
    CapabilitiesDenote(listed);
    GroupDenotes(ConfigPrinter.CapabilityTexts(listed), CapabilityForms(listed));
    CallDenotes("steel", " ",
                [Quote(p.path), Quote(p.entrypoint), Quote(p.prompt), Group(ConfigPrinter.CapabilityTexts(listed))],
                [Text(p.path), Text(p.entrypoint), Text(p.prompt), List(CapabilityForms(listed))]);
  }

  lemma SteelParses(p: ActionPlugin)
    requires p.Steel?
    ensures ParsePlugin(PluginForm(p)) == Ok(p)
  {
    hide CapabilityForms, ConfigPrinter.Listed, CapabilitiesOf;
    var listed := ConfigPrinter.Listed(p.capabilities);
    CapabilitiesParse(listed);
    ListedReadBack(p.capabilities);
    CallFormParts("steel", [Text(p.path), Text(p.entrypoint), Text(p.prompt), List(CapabilityForms(listed))]);
  }

  lemma PluginReadsBack(p: ActionPlugin)
    ensures Denotes(ConfigPrinter.PluginText(p), PluginForm(p)) && ParsePlugin(PluginForm(p)) == Ok(p)
  {
    hide Denotes, IsWord;
    PluginWords();
    match p {
      case CaptureUrl =>
        NullaryDenotes("capture-url");
        CallFormParts("capture-url", []);
      case TagPicker =>
        NullaryDenotes("tag-picker");
        CallFormParts("tag-picker", []);
      case Steel(_, _, _, _) =>
        SteelDenotes(p);
        SteelParses(p);
    }
  }
}
