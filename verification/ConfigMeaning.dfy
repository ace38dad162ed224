/** What the workspace configuration parser accepts, in both directions: which forms say which view,
    action, template, grant or workspace, with every field that may be left out and its default. */
module ConfigMeaning {
  import opened Results
  import opened FrontmatterValues
  import opened Decimals
  import opened Behavior
  import opened Lexer
  import opened Forms
  import opened Layout
  import opened ConfigDecoder
  import opened ConfigParser
  import opened ConfigTerms

  // ----- Fields --------------------------------------------------------------------------------------------

  predicate Names(form: Form, name: string) {
    form.List? && form.items != [] && form.items[0] == Symbol(name)
  }

  ghost predicate IsField(form: Form, allowed: seq<string>, fields: Fields) {
    && form.List? && form.items != [] && form.items[0].Symbol?
    && var name := form.items[0].name;
       name in allowed && name in fields && fields[name] == form.items[1..]
  }

  ghost predicate AllNamed(forms: seq<Form>, fields: Fields) {
    forall name :: name in fields ==> exists i :: 0 <= i < |forms| && Names(forms[i], name)
  }

  /** The forms are these fields, each allowed and given once, in any order. */
  ghost predicate Collects(forms: seq<Form>, allowed: seq<string>, fields: Fields) {
    && (forall i :: 0 <= i < |forms| ==> IsField(forms[i], allowed, fields))
    && (forall i, j :: 0 <= i < j < |forms| ==> forms[i].items[0] != forms[j].items[0])
    && AllNamed(forms, fields)
  }

  lemma WhereNamed(forms: seq<Form>, fields: Fields, name: string) returns (i: nat)
    requires AllNamed(forms, fields) && name in fields
    ensures i < |forms| && Names(forms[i], name)
  {
    i :| 0 <= i < |forms| && Names(forms[i], name);
  }

  lemma FieldHead(form: Form, allowed: seq<string>, fields: Fields)
    requires IsField(form, allowed, fields)
    ensures Head(form) == Ok(form.items[0].name) && NamesField(form, allowed)
  {
  }

  lemma CollectedAreGood(forms: seq<Form>, allowed: seq<string>, fields: Fields)
    requires Collects(forms, allowed, fields)
    ensures GoodFields(forms, allowed, map[])
  {
    hide Head, AllNamed, IsField, NamesField;
    forall i | 0 <= i < |forms| ensures NamesField(forms[i], allowed) {
      FieldHead(forms[i], allowed, fields);
    }
    forall i, j | 0 <= i < j < |forms| ensures Head(forms[i]) != Head(forms[j]) {
      FieldHead(forms[i], allowed, fields);
      FieldHead(forms[j], allowed, fields);
      DifferentFields(forms, allowed, fields, i, j);
    }
  }

  lemma DifferentFields(forms: seq<Form>, allowed: seq<string>, fields: Fields, i: nat, j: nat)
    requires Collects(forms, allowed, fields) && i < j < |forms|
    ensures IsField(forms[i], allowed, fields) && IsField(forms[j], allowed, fields)
    ensures forms[i].items[0].name != forms[j].items[0].name
  {
    hide AllNamed;
    assert IsField(forms[i], allowed, fields) && IsField(forms[j], allowed, fields);
    assert forms[i].items[0] != forms[j].items[0];
  }

  lemma AcceptedAreCollected(forms: seq<Form>, allowed: seq<string>)
    requires FieldsFrom(forms, allowed, map[]).Ok?
    ensures Collects(forms, allowed, FieldsFrom(forms, allowed, map[]).value)
  {
    hide FieldsFrom;
    FieldsExactly(forms, allowed, map[]);
    var fields := FieldsFrom(forms, allowed, map[]).value;
    FieldsHold(forms, allowed, map[], 0);
    forall i | 0 <= i < |forms| ensures IsField(forms[i], allowed, fields) {
      FieldsHold(forms, allowed, map[], i);
      assert NamesField(forms[i], allowed);
    }
    forall i, j | 0 <= i < j < |forms| ensures forms[i].items[0] != forms[j].items[0] {
      assert IsField(forms[i], allowed, fields) && IsField(forms[j], allowed, fields);
      assert Head(forms[i]) != Head(forms[j]);
    }
    forall name | name in fields ensures exists i :: 0 <= i < |forms| && Names(forms[i], name) {
      var form :| form in forms && Head(form).Ok? && Head(form).value == name;
      var i :| 0 <= i < |forms| && forms[i] == form;
      assert Names(forms[i], name);
    }
  }

  lemma FieldOnce(forms: seq<Form>, allowed: seq<string>, f: Fields, g: Fields, name: string)
    requires Collects(forms, allowed, f) && Collects(forms, allowed, g) && name in f
    ensures name in g && f[name] == g[name]
  {
    hide AllNamed;
    var i := WhereNamed(forms, f, name);
    assert IsField(forms[i], allowed, f) && IsField(forms[i], allowed, g);
  }

  lemma CollectedOnce(forms: seq<Form>, allowed: seq<string>, f: Fields, g: Fields)
    requires Collects(forms, allowed, f) && Collects(forms, allowed, g)
    ensures f == g
  {
    hide Collects;
    forall name | name in f ensures name in g && f[name] == g[name] {
      FieldOnce(forms, allowed, f, g, name);
    }
    forall name | name in g ensures name in f {
      FieldOnce(forms, allowed, g, f, name);
    }
    assert f.Keys == g.Keys;
  }

  lemma CollectsExactly(forms: seq<Form>, allowed: seq<string>, fields: Fields)
    ensures FieldsFrom(forms, allowed, map[]) == Ok(fields) <==> Collects(forms, allowed, fields)
  {
    hide FieldsFrom, Collects, GoodFields;
    if FieldsFrom(forms, allowed, map[]).Ok? {
      AcceptedAreCollected(forms, allowed);
    }
    if Collects(forms, allowed, fields) {
      CollectedAreGood(forms, allowed, fields);
      FieldsExactly(forms, allowed, map[]);
      CollectedOnce(forms, allowed, fields, FieldsFrom(forms, allowed, map[]).value);
    }
  }

  /** A field that is given has these arguments; one that is left out means its default. */
  predicate Given(fields: Fields, name: string, args: seq<Form>, isDefault: bool) {
    if name in fields then fields[name] == args else isDefault
  }

  lemma TextExactly(fields: Fields, name: string, text: string, default: string)
    ensures RequiredText(fields, name) == Ok(text) <==> Given(fields, name, [Text(text)], false)
    ensures TextOr(fields, name, default) == Ok(text) <==> Given(fields, name, [Text(text)], text == default)
  {
    if name in fields && |fields[name]| == 1 {
      assert fields[name] == [fields[name][0]];
    }
  }

  lemma NullableExactly(fields: Fields, name: string, value: Option<string>)
    ensures NullableText(fields, name) == Ok(value) <==> Given(fields, name, [OptionalForm(value)], value == None)
  {
    if name in fields && |fields[name]| == 1 {
      assert fields[name] == [fields[name][0]];
    }
  }

  lemma BoolExactly(fields: Fields, name: string, flag: bool)
    ensures BoolOr(fields, name, false) == Ok(flag)
            <==> Given(fields, name, [Symbol(if flag then "#t" else "#f")], flag == false)
  {
    if name in fields && |fields[name]| == 1 {
      assert fields[name] == [fields[name][0]];
    }
  }

  lemma ConditionExactly(fields: Fields, p: Predicate)
    ensures PredicateOr(fields, Always) == Ok(p) <==> Given(fields, "predicate", [PredicateForm(p)], p == Always)
  {
    hide ParsePredicate, PredicateForm;
    if "predicate" in fields && |fields["predicate"]| == 1 {
      assert fields["predicate"] == [fields["predicate"][0]];
      PredicateParsesExactly(fields["predicate"][0], p);
    }
  }

  function Args(fields: Fields, name: string): seq<Form> {
    if name in fields then fields[name] else []
  }

  // ----- Subviews and views ----------------------------------------------------------------------------------

  predicate SubviewHas(fields: Fields, s: Subview) {
    && Given(fields, "id", [Text(s.id)], false)
    && Given(fields, "name", [Text(s.name)], s.name == "")
    && Given(fields, "sort-field", [OptionalForm(s.sortField)], s.sortField == None)
    && Given(fields, "predicate", [PredicateForm(s.condition)], s.condition == Always)
  }

  ghost predicate SubviewSays(form: Form, s: Subview) {
    Names(form, "subview")
    && exists fields :: Collects(form.items[1..], SUBVIEW_FIELDS, fields) && SubviewHas(fields, s)
  }

  lemma SubviewFieldsExactly(fields: Fields, s: Subview)
    ensures SubviewFrom(fields) == Ok(s) <==> SubviewHas(fields, s)
  {
    hide RequiredText, TextOr, NullableText, PredicateOr, Given;
    TextExactly(fields, "id", s.id, "");
    TextExactly(fields, "name", s.name, "");
    NullableExactly(fields, "sort-field", s.sortField);
    ConditionExactly(fields, s.condition);
  }

  lemma CallExactly(form: Form, name: string)
    ensures ArgsOf(form, name).Ok? <==> Names(form, name)
    ensures Names(form, name) ==> ArgsOf(form, name) == Ok(form.items[1..])
  {
  }

  /** A form is read as a subview exactly when it says so. */
  lemma SubviewParsesExactly(form: Form, s: Subview)
    ensures ParseSubview(form) == Ok(s) <==> SubviewSays(form, s)
  {
    hide SubviewFrom, SubviewHas, FieldsFrom, Collects, ArgsOf;
    CallExactly(form, "subview");
    if Names(form, "subview") {
      forall fields ensures FieldsFrom(form.items[1..], SUBVIEW_FIELDS, map[]) == Ok(fields)
                            <==> Collects(form.items[1..], SUBVIEW_FIELDS, fields)
      {
        CollectsExactly(form.items[1..], SUBVIEW_FIELDS, fields);
      }
      forall fields ensures SubviewFrom(fields) == Ok(s) <==> SubviewHas(fields, s) {
        SubviewFieldsExactly(fields, s);
      }
    }
  }

  ghost predicate SubviewsSay(forms: seq<Form>, ss: seq<Subview>) {
    |forms| == |ss| && forall i :: 0 <= i < |forms| ==> SubviewSays(forms[i], ss[i])
  }

  lemma {:induction false} SubviewsParseExactly(forms: seq<Form>, ss: seq<Subview>)
    ensures ParseSubviews(forms) == Ok(ss) <==> SubviewsSay(forms, ss)
  {
    hide ParseSubview, SubviewSays;
    if forms != [] && ss != [] {
      SubviewParsesExactly(forms[0], ss[0]);
      SubviewsParseExactly(forms[1..], ss[1..]);
      assert ss == [ss[0]] + ss[1..] && forms == [forms[0]] + forms[1..];
    }
  }

  /** Every field of a view but its identifier may be left out. */
  ghost predicate ViewHas(fields: Fields, v: View) {
    && Given(fields, "id", [Text(v.id)], false)
    && Given(fields, "name", [Text(v.name)], v.name == "")
    && Given(fields, "key", [OptionalForm(v.key)], v.key == None)
    && Given(fields, "show-tags", [Symbol(if v.showTags then "#t" else "#f")], v.showTags == false)
    && Given(fields, "title-field", [Text(v.titleField)], v.titleField == "title")
    && Given(fields, "subtitle-field", [OptionalForm(v.subtitleField)], v.subtitleField == None)
    && Given(fields, "sort-field", [OptionalForm(v.sortField)], v.sortField == None)
    && Given(fields, "descending", [Symbol(if v.descending then "#t" else "#f")], v.descending == false)
    && Given(fields, "preview", [OptionalForm(v.preview)], v.preview == None)
    && Given(fields, "predicate", [PredicateForm(v.condition)], v.condition == Always)
    && SubviewsSay(Args(fields, "subviews"), v.subviews)
  }

  ghost predicate ViewSays(form: Form, v: View) {
    Names(form, "view") && exists fields :: Collects(form.items[1..], VIEW_FIELDS, fields) && ViewHas(fields, v)
  }

  lemma ViewFieldsExactly(fields: Fields, v: View)
    ensures ViewFrom(fields) == Ok(v) <==> ViewHas(fields, v)
  {
    hide RequiredText, TextOr, NullableText, BoolOr, PredicateOr, Given, ParseSubviews, SubviewsSay;
    TextExactly(fields, "id", v.id, "");
    TextExactly(fields, "name", v.name, "");
    NullableExactly(fields, "key", v.key);
    BoolExactly(fields, "show-tags", v.showTags);
    TextExactly(fields, "title-field", v.titleField, "title");
    NullableExactly(fields, "subtitle-field", v.subtitleField);
    NullableExactly(fields, "sort-field", v.sortField);
    BoolExactly(fields, "descending", v.descending);
    NullableExactly(fields, "preview", v.preview);
    ConditionExactly(fields, v.condition);
    SubviewsParseExactly(Args(fields, "subviews"), v.subviews);
  }

  /** A form is read as a view exactly when it says so. */
  lemma ViewParsesExactly(form: Form, v: View)
    ensures ParseView(form) == Ok(v) <==> ViewSays(form, v)
  {
    hide ViewFrom, ViewHas, FieldsFrom, Collects, ArgsOf;
    CallExactly(form, "view");
    if Names(form, "view") {
      forall fields ensures FieldsFrom(form.items[1..], VIEW_FIELDS, map[]) == Ok(fields)
                            <==> Collects(form.items[1..], VIEW_FIELDS, fields)
      {
        CollectsExactly(form.items[1..], VIEW_FIELDS, fields);
      }
      forall fields ensures ViewFrom(fields) == Ok(v) <==> ViewHas(fields, v) {
        ViewFieldsExactly(fields, v);
      }
    }
  }

  ghost predicate ViewsSay(forms: seq<Form>, vs: seq<View>) {
    |forms| == |vs| && forall i :: 0 <= i < |forms| ==> ViewSays(forms[i], vs[i])
  }

  lemma {:induction false} ViewsParseExactly(forms: seq<Form>, vs: seq<View>)
    ensures ParseViews(forms) == Ok(vs) <==> ViewsSay(forms, vs)
  {
    hide ParseView, ViewSays;
    if forms != [] && vs != [] {
      ViewParsesExactly(forms[0], vs[0]);
      ViewsParseExactly(forms[1..], vs[1..]);
      assert vs == [vs[0]] + vs[1..] && forms == [forms[0]] + forms[1..];
    }
  }

  // ----- Frontmatter values ----------------------------------------------------------------------------------

  /** Numbers may be written in any way that reads as them; entries may come in any order. */
  ghost predicate ValueSays(form: Form, v: FrontmatterValue, floats: FloatText)
    decreases form
  {
    match v
    case Null => form == CallForm("null", [])
    case Bool(flag) => form == CallForm("bool", [Symbol(if flag then "#t" else "#f")])
    case Integer(n) =>
      && Names(form, "integer") && |form.items| == 2 && form.items[1].Symbol?
      && ReadInt(form.items[1].name, -0x8000_0000_0000_0000, 0x7FFF_FFFF_FFFF_FFFF) == Some(n)
    case Float(f) =>
      && Names(form, "float") && |form.items| == 2 && form.items[1].Symbol?
      && floats.read(form.items[1].name) == Some(f) && IsFinite(f)
    case Str(text) => form == CallForm("string", [Text(text)])
    case Sequence(values) => Names(form, "sequence") && ValuesSay(form.items[1..], values, floats)
    case Mapping(entries) => Names(form, "mapping") && EntriesSay(form.items[1..], map[], entries, floats)
  }

  ghost predicate ValuesSay(forms: seq<Form>, vs: seq<FrontmatterValue>, floats: FloatText)
    decreases forms
  {
    |forms| == |vs| && forall i :: 0 <= i < |forms| ==> ValueSays(forms[i], vs[i], floats)
  }

  predicate IsEntry(form: Form) {
    Names(form, "entry") && |form.items| == 3 && form.items[1].Text?
  }

  ghost predicate EntriesSay(forms: seq<Form>, before: map<string, FrontmatterValue>,
      entries: map<string, FrontmatterValue>, floats: FloatText)
    decreases forms
  {
    if forms == [] then entries == before
    else
      && IsEntry(forms[0])
      && var key := forms[0].items[1].text;
         && key !in before && key in entries
         && ValueSays(forms[0].items[2], entries[key], floats)
         && EntriesSay(forms[1..], before[key := entries[key]], entries, floats)
  }

  lemma {:induction false} ValueParsesExactly(form: Form, v: FrontmatterValue, floats: FloatText)
    ensures ParseValue(form, floats) == Ok(v) <==> ValueSays(form, v, floats)
    decreases form
  {
    if form.List? && form.items != [] {
      var args := form.items[1..];
      assert form.items == [form.items[0]] + args;
      if |args| == 1 {
        assert args == [args[0]];
      }
      if v.Sequence? {
        ValuesParseExactly(args, v.values, floats);
      }
      if v.Mapping? {
        EntriesParseExactly(args, map[], v.entries, floats);
      }
    }
  }

  lemma {:induction false} ValuesParseExactly(forms: seq<Form>, vs: seq<FrontmatterValue>, floats: FloatText)
    ensures ParseValues(forms, floats) == Ok(vs) <==> ValuesSay(forms, vs, floats)
    decreases forms
  {
    hide ParseValue, ValueSays;
    if forms != [] && vs != [] {
      ValueParsesExactly(forms[0], vs[0], floats);
      ValuesParseExactly(forms[1..], vs[1..], floats);
      assert vs == [vs[0]] + vs[1..] && forms == [forms[0]] + forms[1..];
    }
  }

  lemma {:induction false} EntriesParseExactly(forms: seq<Form>, before: map<string, FrontmatterValue>,
      entries: map<string, FrontmatterValue>, floats: FloatText)
    ensures ParseEntries(forms, before, floats) == Ok(entries) <==> EntriesSay(forms, before, entries, floats)
    decreases forms
  {
    hide ParseValue, ValueSays;
    if forms != [] && IsEntry(forms[0]) {
      var key := forms[0].items[1].text;
      var value := ParseValue(forms[0].items[2], floats);
      if value.Ok? {
        EntriesParseExactly(forms[1..], before[key := value.value], entries, floats);
        if ParseEntries(forms[1..], before[key := value.value], floats).Ok? {
          ParsedEntriesKeep(forms[1..], before[key := value.value], floats);
        }
      }
      if key in entries {
        ValueParsesExactly(forms[0].items[2], entries[key], floats);
      }
    }
  }

  lemma {:induction false} ParsedEntriesKeep(forms: seq<Form>, before: map<string, FrontmatterValue>, floats: FloatText)
    requires ParseEntries(forms, before, floats).Ok?
    ensures var entries := ParseEntries(forms, before, floats).value;
            forall k :: k in before ==> k in entries && entries[k] == before[k]
    decreases forms
  {
    hide ParseValue;
    if forms != [] {
      var key := TextOf(forms[0].items[1]).value;
      ParsedEntriesKeep(forms[1..], before[key := ParseValue(forms[0].items[2], floats).value], floats);
    }
  }

  // ----- Effects and plugins ---------------------------------------------------------------------------------

  ghost predicate EffectSays(form: Form, e: ActionEffect, floats: FloatText) {
    match e
    case AddTag(tag) => form == CallForm("add-tag", [Text(tag)])
    case RemoveTag(tag) => form == CallForm("remove-tag", [Text(tag)])
    case SetFieldNow(field) => form == CallForm("set-field", [Text(field), CallForm("now", [])])
    case SetField(field, value) =>
      && Names(form, "set-field") && |form.items| == 3 && form.items[1] == Text(field)
      && form.items[2] != CallForm("now", []) && ValueSays(form.items[2], value, floats)
    case AppendBody(text) => form == CallForm("append-body", [Text(text)])
  }

  lemma IsCall(form: Form, name: string, args: seq<Form>)
    ensures form == CallForm(name, args) <==> Names(form, name) && form.items[1..] == args
  {
    if Names(form, name) {
      assert form.items == [form.items[0]] + form.items[1..];
    }
  }

  lemma NowExactly(form: Form)
    ensures IsNow(form) <==> form == CallForm("now", [])
  {
  }

  lemma EffectParsesExactly(form: Form, e: ActionEffect, floats: FloatText)
    ensures ParseEffect(form, floats) == Ok(e) <==> EffectSays(form, e, floats)
  {
    hide ParseValue, ValueSays, CallForm, IsNow;
    if form.List? && form.items != [] {
      var args := form.items[1..];
      if |args| == 2 {
        assert args == [args[0], args[1]];
        NowExactly(args[1]);
      } else if |args| == 1 {
        assert args == [args[0]];
      }
      match e {
        case AddTag(tag) => IsCall(form, "add-tag", [Text(tag)]);
        case RemoveTag(tag) => IsCall(form, "remove-tag", [Text(tag)]);
        case SetFieldNow(field) => IsCall(form, "set-field", [Text(field), CallForm("now", [])]);
        case SetField(field, value) =>
          if |args| == 2 {
            ValueParsesExactly(args[1], value, floats);
          }
        case AppendBody(text) => IsCall(form, "append-body", [Text(text)]);
      }
    } else {
      NotACall(form);
    }
  }

  lemma NotACall(form: Form)
    requires !form.List? || form.items == []
    ensures forall name, args :: form != CallForm(name, args)
  {
  }

  ghost predicate EffectsSay(forms: seq<Form>, es: seq<ActionEffect>, floats: FloatText) {
    |forms| == |es| && forall i :: 0 <= i < |forms| ==> EffectSays(forms[i], es[i], floats)
  }

  lemma {:induction false} EffectsParseExactly(forms: seq<Form>, es: seq<ActionEffect>, floats: FloatText)
    ensures ParseEffects(forms, floats) == Ok(es) <==> EffectsSay(forms, es, floats)
  {
    hide ParseEffect, EffectSays;
    if forms != [] && es != [] {
      EffectParsesExactly(forms[0], es[0], floats);
      EffectsParseExactly(forms[1..], es[1..], floats);
      assert es == [es[0]] + es[1..] && forms == [forms[0]] + forms[1..];
    }
  }

  function CapabilityName(c: Capability): string {
    match c
    case CreateNote => "create-note"
    case MutateNote => "mutate-note"
    case Network => "network"
    case ReadSecret => "read-secret"
  }

  /** Each form names one of the capabilities and each of them is named. */
  ghost predicate CapabilitiesSay(forms: seq<Form>, cs: set<Capability>) {
    && (forall form :: form in forms ==> exists c :: c in cs && form == Symbol(CapabilityName(c)))
    && (forall c :: c in cs ==> Symbol(CapabilityName(c)) in forms)
  }

  lemma CapabilityExactly(form: Form, c: Capability)
    ensures CapabilityOf(form) == Ok(c) <==> form == Symbol(CapabilityName(c))
  {
  }

  lemma CapabilityKnown(form: Form) returns (c: Capability)
    requires CapabilityOf(form).Ok?
    ensures form == Symbol(CapabilityName(c)) && CapabilityOf(form) == Ok(c)
  {
    c := CapabilityOf(form).value;
    CapabilityExactly(form, c);
  }

  lemma {:induction false} CapabilitiesSound(forms: seq<Form>)
    requires CapabilitiesOf(forms).Ok?
    ensures CapabilitiesSay(forms, CapabilitiesOf(forms).value)
  {
    hide CapabilityOf, CapabilityName;
    if forms != [] {
      var c := CapabilityKnown(forms[0]);
      CapabilitiesSound(forms[1..]);
      assert forms == [forms[0]] + forms[1..];
    }
  }

  ghost predicate IsCapability(form: Form) {
    exists c :: form == Symbol(CapabilityName(c))
  }

  lemma {:induction false} CapabilitiesAccepted(forms: seq<Form>)
    requires forall form :: form in forms ==> IsCapability(form)
    ensures CapabilitiesOf(forms).Ok?
  {
    hide CapabilityOf, CapabilityName;
    if forms != [] {
      assert IsCapability(forms[0]);
      var c :| forms[0] == Symbol(CapabilityName(c));
      CapabilityExactly(forms[0], c);
      CapabilitiesAccepted(forms[1..]);
    }
  }

  lemma CapabilitiesOnce(forms: seq<Form>, cs: set<Capability>, ds: set<Capability>)
    requires CapabilitiesSay(forms, cs) && CapabilitiesSay(forms, ds)
    ensures cs == ds
  {
    forall c | c in cs ensures c in ds {
      assert Symbol(CapabilityName(c)) in forms;
    }
    forall c | c in ds ensures c in cs {
      assert Symbol(CapabilityName(c)) in forms;
    }
  }

  lemma CapabilitiesExactly(forms: seq<Form>, cs: set<Capability>)
    ensures CapabilitiesOf(forms) == Ok(cs) <==> CapabilitiesSay(forms, cs)
  {
    hide CapabilitiesOf, CapabilityName;
    if CapabilitiesOf(forms).Ok? {
      CapabilitiesSound(forms);
    }
    if CapabilitiesSay(forms, cs) {
      CapabilitiesAccepted(forms);
      CapabilitiesSound(forms);
      CapabilitiesOnce(forms, cs, CapabilitiesOf(forms).value);
    }
  }

  ghost predicate PluginSays(form: Form, p: ActionPlugin) {
    match p
    case CaptureUrl => form == CallForm("capture-url", [])
    case TagPicker => form == CallForm("tag-picker", [])
    case Steel(path, entrypoint, prompt, capabilities) =>
      && Names(form, "steel") && |form.items| == 5
      && form.items[1] == Text(path) && form.items[2] == Text(entrypoint) && form.items[3] == Text(prompt)
      && form.items[4].List? && CapabilitiesSay(form.items[4].items, capabilities)
  }

  lemma PluginParsesExactly(form: Form, p: ActionPlugin)
    ensures ParsePlugin(form) == Ok(p) <==> PluginSays(form, p)
  {
    hide CapabilitiesOf, CapabilitiesSay;
    if form.List? && form.items != [] {
      var args := form.items[1..];
      assert form.items == [form.items[0]] + args;
      if |args| == 4 && args[3].List? && p.Steel? {
        CapabilitiesExactly(args[3].items, p.capabilities);
      }
    }
  }

  // ----- Actions, templates and grants -----------------------------------------------------------------------

  ghost predicate PluginGiven(fields: Fields, plugin: Option<ActionPlugin>) {
    if "plugin" !in fields then plugin == None
    else |fields["plugin"]| == 1 && plugin.Some? && PluginSays(fields["plugin"][0], plugin.value)
  }

  lemma PluginFieldExactly(fields: Fields, plugin: Option<ActionPlugin>)
    ensures PluginFrom(fields) == Ok(plugin) <==> PluginGiven(fields, plugin)
  {
    hide ParsePlugin, PluginSays;
    if "plugin" in fields && |fields["plugin"]| == 1 && plugin.Some? {
      PluginParsesExactly(fields["plugin"][0], plugin.value);
    }
  }

  ghost predicate ActionHas(fields: Fields, a: Action, floats: FloatText) {
    && Given(fields, "id", [Text(a.id)], false)
    && Given(fields, "description", [Text(a.description)], a.description == "")
    && Given(fields, "predicate", [PredicateForm(a.condition)], a.condition == Always)
    && EffectsSay(Args(fields, "effects"), a.effects, floats)
    && PluginGiven(fields, a.plugin)
  }

  ghost predicate ActionSays(form: Form, a: Action, floats: FloatText) {
    && Names(form, "action")
    && exists fields :: Collects(form.items[1..], ACTION_FIELDS, fields) && ActionHas(fields, a, floats)
  }

  lemma ActionFieldsExactly(fields: Fields, a: Action, floats: FloatText)
    ensures ActionFrom(fields, floats) == Ok(a) <==> ActionHas(fields, a, floats)
  {
    hide RequiredText, TextOr, PredicateOr, Given, ParseEffects, EffectsSay, PluginFrom, PluginGiven;
    TextExactly(fields, "id", a.id, "");
    TextExactly(fields, "description", a.description, "");
    ConditionExactly(fields, a.condition);
    EffectsParseExactly(Args(fields, "effects"), a.effects, floats);
    PluginFieldExactly(fields, a.plugin);
  }

  /** A form is read as an action exactly when it says so. */
  lemma ActionParsesExactly(form: Form, a: Action, floats: FloatText)
    ensures ParseAction(form, floats) == Ok(a) <==> ActionSays(form, a, floats)
  {
    hide ActionFrom, ActionHas, FieldsFrom, Collects, ArgsOf;
    CallExactly(form, "action");
    if Names(form, "action") {
      forall fields ensures FieldsFrom(form.items[1..], ACTION_FIELDS, map[]) == Ok(fields)
                            <==> Collects(form.items[1..], ACTION_FIELDS, fields)
      {
        CollectsExactly(form.items[1..], ACTION_FIELDS, fields);
      }
      forall fields ensures ActionFrom(fields, floats) == Ok(a) <==> ActionHas(fields, a, floats) {
        ActionFieldsExactly(fields, a, floats);
      }
    }
  }

  ghost predicate ActionsSay(forms: seq<Form>, as': seq<Action>, floats: FloatText) {
    |forms| == |as'| && forall i :: 0 <= i < |forms| ==> ActionSays(forms[i], as'[i], floats)
  }

  lemma {:induction false} ActionsParseExactly(forms: seq<Form>, as': seq<Action>, floats: FloatText)
    ensures ParseActions(forms, floats) == Ok(as') <==> ActionsSay(forms, as', floats)
  {
    hide ParseAction, ActionSays;
    if forms != [] && as' != [] {
      ActionParsesExactly(forms[0], as'[0], floats);
      ActionsParseExactly(forms[1..], as'[1..], floats);
      assert as' == [as'[0]] + as'[1..] && forms == [forms[0]] + forms[1..];
    }
  }

  predicate TemplateHas(fields: Fields, t: Template) {
    && Given(fields, "id", [Text(t.id)], false)
    && Given(fields, "path", [Text(t.path)], false)
    && Given(fields, "content", [Text(t.content)], false)
  }

  ghost predicate TemplateSays(form: Form, t: Template) {
    && Names(form, "template")
    && exists fields :: Collects(form.items[1..], TEMPLATE_FIELDS, fields) && TemplateHas(fields, t)
  }

  lemma TemplateParsesExactly(form: Form, t: Template)
    ensures ParseTemplate(form) == Ok(t) <==> TemplateSays(form, t)
  {
    hide FieldsFrom, Collects, ArgsOf, RequiredText, Given;
    CallExactly(form, "template");
    if Names(form, "template") {
      forall fields ensures FieldsFrom(form.items[1..], TEMPLATE_FIELDS, map[]) == Ok(fields)
                            <==> Collects(form.items[1..], TEMPLATE_FIELDS, fields)
      {
        CollectsExactly(form.items[1..], TEMPLATE_FIELDS, fields);
      }
      forall fields
        ensures RequiredText(fields, "id") == Ok(t.id) <==> Given(fields, "id", [Text(t.id)], false)
        ensures RequiredText(fields, "path") == Ok(t.path) <==> Given(fields, "path", [Text(t.path)], false)
        ensures RequiredText(fields, "content") == Ok(t.content) <==> Given(fields, "content", [Text(t.content)], false)
      {
        TextExactly(fields, "id", t.id, "");
        TextExactly(fields, "path", t.path, "");
        TextExactly(fields, "content", t.content, "");
      }
    }
  }

  ghost predicate TemplatesSay(forms: seq<Form>, ts: seq<Template>) {
    |forms| == |ts| && forall i :: 0 <= i < |forms| ==> TemplateSays(forms[i], ts[i])
  }

  lemma {:induction false} TemplatesParseExactly(forms: seq<Form>, ts: seq<Template>)
    ensures ParseTemplates(forms) == Ok(ts) <==> TemplatesSay(forms, ts)
  {
    hide ParseTemplate, TemplateSays;
    if forms != [] && ts != [] {
      TemplateParsesExactly(forms[0], ts[0]);
      TemplatesParseExactly(forms[1..], ts[1..]);
      assert ts == [ts[0]] + ts[1..] && forms == [forms[0]] + forms[1..];
    }
  }

  ghost predicate GrantHas(fields: Fields, g: Grant) {
    && Given(fields, "action", [Text(g.action)], false)
    && "capabilities" in fields && CapabilitiesSay(fields["capabilities"], g.capabilities)
  }

  ghost predicate GrantSays(form: Form, g: Grant) {
    && Names(form, "grant")
    && exists fields :: Collects(form.items[1..], GRANT_FIELDS, fields) && GrantHas(fields, g)
  }

  lemma GrantParsesExactly(form: Form, g: Grant)
    ensures ParseGrant(form) == Ok(g) <==> GrantSays(form, g)
  {
    hide FieldsFrom, Collects, ArgsOf, RequiredText, Given, CapabilitiesOf, CapabilitiesSay;
    CallExactly(form, "grant");
    if Names(form, "grant") {
      forall fields ensures FieldsFrom(form.items[1..], GRANT_FIELDS, map[]) == Ok(fields)
                            <==> Collects(form.items[1..], GRANT_FIELDS, fields)
      {
        CollectsExactly(form.items[1..], GRANT_FIELDS, fields);
      }
      forall fields
        ensures RequiredText(fields, "action") == Ok(g.action) <==> Given(fields, "action", [Text(g.action)], false)
        ensures "capabilities" in fields ==>
          (CapabilitiesOf(fields["capabilities"]) == Ok(g.capabilities)
           <==> CapabilitiesSay(fields["capabilities"], g.capabilities))
      {
        TextExactly(fields, "action", g.action, "");
        if "capabilities" in fields { CapabilitiesExactly(fields["capabilities"], g.capabilities); }
      }
    }
  }

  /** The grants of a workspace, one after the other: no action has two. */
  ghost predicate GrantsSay(forms: seq<Form>, before: Grants, grants: Grants) {
    if forms == [] then grants == before
    else exists g :: GrantSays(forms[0], g) && g.action !in before
                     && GrantsSay(forms[1..], before[g.action := g.capabilities], grants)
  }

  lemma {:induction false} GrantsParseExactly(forms: seq<Form>, before: Grants, grants: Grants)
    ensures ParseGrantsFrom(forms, before) == Ok(grants) <==> GrantsSay(forms, before, grants)
  {
    hide ParseGrant, GrantSays;
    if forms != [] {
      forall g ensures ParseGrant(forms[0]) == Ok(g) <==> GrantSays(forms[0], g) {
        GrantParsesExactly(forms[0], g);
      }
      if ParseGrant(forms[0]).Ok? {
        var g := ParseGrant(forms[0]).value;
        GrantsParseExactly(forms[1..], before[g.action := g.capabilities], grants);
      }
    }
  }

  // ----- The workspace ---------------------------------------------------------------------------------------

  ghost predicate NumberGiven(fields: Fields, name: string, n: nat, max: nat, isDefault: bool) {
    if name !in fields then isDefault
    else |fields[name]| == 1 && fields[name][0].Symbol? && ReadNat(fields[name][0].name, max) == Some(n)
  }

  ghost predicate WorkspaceHas(fields: Fields, w: Workspace, floats: FloatText) {
    && NumberGiven(fields, "schema", w.schema, 65535, false)
    && Given(fields, "default-view", [Text(w.defaultView)], w.defaultView == "all")
    && NumberGiven(fields, "query-limit", w.queryLimit, 18446744073709551615, w.queryLimit == 500)
    && ViewsSay(Args(fields, "views"), w.views)
    && ActionsSay(Args(fields, "actions"), w.actions, floats)
    && TemplatesSay(Args(fields, "templates"), w.templates)
    && GrantsSay(Args(fields, "capability-grants"), map[], w.grants)
  }

  ghost predicate WorkspaceSays(form: Form, root: string, w: Workspace, floats: FloatText) {
    && Names(form, root)
    && exists fields :: Collects(form.items[1..], WORKSPACE_FIELDS, fields) && WorkspaceHas(fields, w, floats)
  }

  lemma NumberExactly(fields: Fields, name: string, n: nat, max: nat)
    ensures OptionalNat(fields, name, max) == Ok(Some(n)) <==> NumberGiven(fields, name, n, max, false)
    ensures OptionalNat(fields, name, max) == Ok(None) <==> name !in fields
  {
    hide ReadNat;
  }

  lemma WorkspaceFieldsExactly(fields: Fields, w: Workspace, floats: FloatText)
    ensures WorkspaceFrom(fields, floats) == Ok(w) <==> WorkspaceHas(fields, w, floats)
  {
    hide TextOr, OptionalNat, Given, ParseViews, ViewsSay, ParseActions, ActionsSay, ParseTemplates, TemplatesSay,
      ParseGrantsFrom, GrantsSay, ReadNat;
    NumberExactly(fields, "schema", w.schema, 65535);
    TextExactly(fields, "default-view", w.defaultView, "all");
    NumberExactly(fields, "query-limit", w.queryLimit, 18446744073709551615);
    ViewsParseExactly(Args(fields, "views"), w.views);
    ActionsParseExactly(Args(fields, "actions"), w.actions, floats);
    TemplatesParseExactly(Args(fields, "templates"), w.templates);
    GrantsParseExactly(Args(fields, "capability-grants"), map[], w.grants);
  }

  /** A form decodes to a workspace exactly when it says so and the workspace is valid. */
  lemma WorkspaceDecodesExactly(form: Form, root: string, w: Workspace, floats: FloatText)
    ensures DecodeWorkspace(form, root, floats) == Ok(w)
            <==> WorkspaceSays(form, root, w, floats) && Validate(w).Ok?
  {
    hide WorkspaceFrom, WorkspaceHas, FieldsFrom, Collects, ArgsOf, Validate;
    CallExactly(form, root);
    if Names(form, root) {
      forall fields ensures FieldsFrom(form.items[1..], WORKSPACE_FIELDS, map[]) == Ok(fields)
                            <==> Collects(form.items[1..], WORKSPACE_FIELDS, fields)
      {
        CollectsExactly(form.items[1..], WORKSPACE_FIELDS, fields);
      }
      forall fields ensures WorkspaceFrom(fields, floats) == Ok(w) <==> WorkspaceHas(fields, w, floats) {
        WorkspaceFieldsExactly(fields, w, floats);
      }
    }
  }

  /** The parser accepts exactly the texts within the limit that are one form, with nothing but ignored text
      after it, and that say a valid workspace. */
  lemma ConfigParsesExactly(source: string, root: string, w: Workspace, floats: FloatText)
    ensures ParseConfig(source, root, floats) == Ok(w) <==>
            && Utf8Length(source) <= MAX_CONFIG_BYTES
            && Validate(w).Ok?
            && exists form, rest :: ReadForm(source) == Ok(Parsed(form, rest)) && SkipIgnored(rest) == []
                                    && WorkspaceSays(form, root, w, floats)
  {
    hide Utf8Length, ReadForm, SkipIgnored, DecodeWorkspace, WorkspaceSays, Validate;
    if ReadForm(source).Ok? {
      var form := ReadForm(source).value;
      WorkspaceDecodesExactly(form.value, root, w, floats);
      assert ReadForm(source) == Ok(Parsed(form.value, form.rest));
    }
  }
}
