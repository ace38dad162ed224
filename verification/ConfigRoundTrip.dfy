/** Parsing a printed workspace configuration gives the configuration back. */
module ConfigRoundTrip {
  import opened Results
  import opened Sequences
  import opened Strings
  import opened FrontmatterValues
  import opened Decimals
  import opened Behavior
  import opened JsonStrings
  import opened Lexer
  import opened Forms
  import opened Layout
  import opened ConfigDecoder
  import opened ConfigParser
  import ConfigPrinter
  import opened ConfigTerms

  // ----- Fields --------------------------------------------------------------------------------------------

  function FieldForms(names: seq<string>, args: seq<seq<Form>>): (forms: seq<Form>)
    requires |names| == |args|
    ensures |forms| == |names|
  {
    seq(|names|, i requires 0 <= i < |names| => CallForm(names[i], args[i]))
  }

  ghost predicate HasFields(fields: Fields, names: seq<string>, args: seq<seq<Form>>)
    requires |names| == |args|
  {
    && (forall i :: 0 <= i < |names| ==> names[i] in fields && fields[names[i]] == args[i])
    && (forall n :: n in fields ==> n in names)
  }

  lemma {:induction false} FieldsAreCollected(names: seq<string>, args: seq<seq<Form>>, allowed: seq<string>, k: nat,
      before: Fields)
    requires |names| == |args| && k <= |names| && NoRepeats(names) && forall n :: n in names ==> n in allowed
    requires HasFields(before, names[..k], args[..k])
    ensures FieldsFrom(FieldForms(names, args)[k..], allowed, before).Ok?
    ensures HasFields(FieldsFrom(FieldForms(names, args)[k..], allowed, before).value, names, args)
    decreases |names| - k
  {
    var forms := FieldForms(names, args);
    if k == |names| {
      assert names[..k] == names && args[..k] == args;
    } else {
      var next := before[names[k] := args[k]];
      CallFormParts(names[k], args[k]);
      assert names[..k + 1] == names[..k] + [names[k]];
      assert forms[k..][0] == forms[k] && forms[k..][1..] == forms[k + 1..];
      FieldsAreCollected(names, args, allowed, k + 1, next);
    }
  }

  /** Distinct allowed fields are all found, each with its own arguments. */
  lemma FieldsReadBack(names: seq<string>, args: seq<seq<Form>>, allowed: seq<string>) returns (fields: Fields)
    requires |names| == |args| && NoRepeats(names) && forall n :: n in names ==> n in allowed
    ensures FieldsFrom(FieldForms(names, args), allowed, map[]) == Ok(fields)
    ensures HasFields(fields, names, args)
  {
    FieldsAreCollected(names, args, allowed, 0, map[]);
    assert FieldForms(names, args)[0..] == FieldForms(names, args);
    fields := FieldsFrom(FieldForms(names, args), allowed, map[]).value;
  }

  lemma FieldDenotes(name: string, text: string, form: Form)
    requires IsWord(name) && Denotes(text, form)
    ensures Denotes(ConfigPrinter.Field(name, text), CallForm(name, [form]))
  {
    UnaryDenotes(name, text, form);
  }

  // ----- Subviews and views --------------------------------------------------------------------------------

  function SubviewArgs(s: Subview): seq<seq<Form>> {
    [[Text(s.id)], [Text(s.name)], [OptionalForm(s.sortField)], [PredicateForm(s.condition)]]
  }

  function SubviewForm(s: Subview): Form {
    CallForm("subview", FieldForms(SUBVIEW_FIELDS, SubviewArgs(s)))
  }

  lemma SubviewDenotes(s: Subview)
    ensures Denotes(ConfigPrinter.SubviewText(s), SubviewForm(s))
  {
    hide Denotes, ConfigPrinter.Field;
    QuoteDenotes(s.id);
    QuoteDenotes(s.name);
    OptionalDenotes(s.sortField);
    PredicateDenotes(s.condition);
    SubviewWords();
    FieldDenotes("id", Quote(s.id), Text(s.id));
    FieldDenotes("name", Quote(s.name), Text(s.name));
    FieldDenotes("sort-field", QuotedOrFalse(s.sortField), OptionalForm(s.sortField));
    FieldDenotes("predicate", ConfigPrinter.PredicateText(s.condition), PredicateForm(s.condition));
    CallDenotes("subview", AT10,
                [ConfigPrinter.Field("id", Quote(s.id)), ConfigPrinter.Field("name", Quote(s.name)),
                 ConfigPrinter.Field("sort-field", QuotedOrFalse(s.sortField)),
                 ConfigPrinter.Field("predicate", ConfigPrinter.PredicateText(s.condition))],
                FieldForms(SUBVIEW_FIELDS, SubviewArgs(s)));
  }

  lemma SubviewWords()
    ensures IsWord("subview") && IsWord("id") && IsWord("name") && IsWord("sort-field") && IsWord("predicate")
    ensures NoRepeats(SUBVIEW_FIELDS)
  {
  }

  lemma SubviewParses(s: Subview)
    ensures ParseSubview(SubviewForm(s)) == Ok(s)
  {
    hide PredicateForm, ParsePredicate;
    SubviewWords();
    var fields := FieldsReadBack(SUBVIEW_FIELDS, SubviewArgs(s), SUBVIEW_FIELDS);
    CallFormParts("subview", FieldForms(SUBVIEW_FIELDS, SubviewArgs(s)));
    PredicateParses(s.condition);
    assert SUBVIEW_FIELDS[0] == "id" && SUBVIEW_FIELDS[1] == "name";
    assert SUBVIEW_FIELDS[2] == "sort-field" && SUBVIEW_FIELDS[3] == "predicate";
    assert NullableText(fields, "sort-field") == Ok(s.sortField);
    assert PredicateOr(fields, Always) == Ok(s.condition);
  }

  function SubviewForms(ss: seq<Subview>): seq<Form> {
    seq(|ss|, i requires 0 <= i < |ss| => SubviewForm(ss[i]))
  }

  lemma {:induction false} SubviewsReadBack(ss: seq<Subview>)
    ensures AllDenote(ConfigPrinter.SubviewTexts(ss), SubviewForms(ss))
    ensures ParseSubviews(SubviewForms(ss)) == Ok(ss)
  {
    hide Denotes, SubviewForm, ConfigPrinter.SubviewText, ParseSubview;
    forall i | 0 <= i < |ss| ensures Denotes(ConfigPrinter.SubviewTexts(ss)[i], SubviewForms(ss)[i]) {
      SubviewDenotes(ss[i]);
    }
    if ss != [] {
      SubviewParses(ss[0]);
      SubviewsReadBack(ss[1..]);
      assert SubviewForms(ss)[1..] == SubviewForms(ss[1..]);
      assert ss == [ss[0]] + ss[1..];
    }
  }

  function ViewArgs(v: View): seq<seq<Form>> {
    [[Text(v.id)], [Text(v.name)], [OptionalForm(v.key)], [Symbol(ConfigPrinter.BoolText(v.showTags))],
     [Text(v.titleField)], [OptionalForm(v.subtitleField)], [OptionalForm(v.sortField)],
     [Symbol(ConfigPrinter.BoolText(v.descending))], [OptionalForm(v.preview)], [PredicateForm(v.condition)],
     SubviewForms(v.subviews)]
  }

  function ViewForm(v: View): Form {
    CallForm("view", FieldForms(VIEW_FIELDS, ViewArgs(v)))
  }

  lemma ViewNamesDistinct()
    ensures NoRepeats(VIEW_FIELDS)
  {
  }

  lemma ViewWords()
    ensures IsWord("view") && forall i :: 0 <= i < |VIEW_FIELDS| ==> IsWord(VIEW_FIELDS[i])
  {
    hide IsWord;
    ViewWordsFront();
    ViewWordsBack();
  }

  lemma ViewWordsFront()
    ensures IsWord("view") && IsWord("id") && IsWord("name") && IsWord("key") && IsWord("show-tags")
            && IsWord("title-field")
  {
  }

  lemma ViewWordsBack()
    ensures IsWord("subtitle-field") && IsWord("sort-field") && IsWord("descending") && IsWord("preview")
    ensures IsWord("predicate") && IsWord("subviews")
  {
  }

  lemma ViewHeaderDenotes(v: View)
    ensures AllDenote(ConfigPrinter.ViewHeader(v), FieldForms(VIEW_FIELDS, ViewArgs(v))[..10])
  {
    hide Denotes, ConfigPrinter.Field, IsWord;
    ViewWords();
    QuoteDenotes(v.id);
    QuoteDenotes(v.name);
    OptionalDenotes(v.key);
    BoolReadsBack(v.showTags);
    QuoteDenotes(v.titleField);
    OptionalDenotes(v.subtitleField);
    OptionalDenotes(v.sortField);
    BoolReadsBack(v.descending);
    OptionalDenotes(v.preview);
    PredicateDenotes(v.condition);
    FieldDenotes(VIEW_FIELDS[0], Quote(v.id), Text(v.id));
    FieldDenotes(VIEW_FIELDS[1], Quote(v.name), Text(v.name));
    FieldDenotes(VIEW_FIELDS[2], QuotedOrFalse(v.key), OptionalForm(v.key));
    FieldDenotes(VIEW_FIELDS[3], ConfigPrinter.BoolText(v.showTags), Symbol(ConfigPrinter.BoolText(v.showTags)));
    FieldDenotes(VIEW_FIELDS[4], Quote(v.titleField), Text(v.titleField));
    FieldDenotes(VIEW_FIELDS[5], QuotedOrFalse(v.subtitleField), OptionalForm(v.subtitleField));
    FieldDenotes(VIEW_FIELDS[6], QuotedOrFalse(v.sortField), OptionalForm(v.sortField));
    FieldDenotes(VIEW_FIELDS[7], ConfigPrinter.BoolText(v.descending), Symbol(ConfigPrinter.BoolText(v.descending)));
    FieldDenotes(VIEW_FIELDS[8], QuotedOrFalse(v.preview), OptionalForm(v.preview));
    FieldDenotes(VIEW_FIELDS[9], ConfigPrinter.PredicateText(v.condition), PredicateForm(v.condition));
  }

  lemma ViewDenotes(v: View)
    ensures Denotes(ConfigPrinter.ViewText(v), ViewForm(v))
  {
    hide Denotes, IsWord, Call, ConfigPrinter.ViewHeader, ConfigPrinter.SubviewTexts, SubviewForms;
    var forms := FieldForms(VIEW_FIELDS, ViewArgs(v));
    var subviews := Call("subviews", AT8, ConfigPrinter.SubviewTexts(v.subviews));
    ViewWords();
    ViewHeaderDenotes(v);
    SubviewsReadBack(v.subviews);
    assert VIEW_FIELDS[10] == "subviews";
    CallDenotes("subviews", AT8, ConfigPrinter.SubviewTexts(v.subviews), SubviewForms(v.subviews));
    assert Denotes(subviews, forms[10]);
    CallDenotes("view", AT6, ConfigPrinter.ViewHeader(v) + [subviews], forms);
  }

  lemma ViewParses(v: View)
    ensures ParseView(ViewForm(v)) == Ok(v)
  {
    hide PredicateForm, ParsePredicate, FieldsFrom, ParseSubviews, SubviewForms;
    ViewNamesDistinct();
    var fields := FieldsReadBack(VIEW_FIELDS, ViewArgs(v), VIEW_FIELDS);
    CallFormParts("view", FieldForms(VIEW_FIELDS, ViewArgs(v)));
    ViewFieldsParse(v, fields);
  }

  lemma OptionalTextFound(fields: Fields, name: string, value: Option<string>)
    requires name in fields && fields[name] == [OptionalForm(value)]
    ensures NullableText(fields, name) == Ok(value)
  {
  }

  lemma TextFound(fields: Fields, name: string, text: string, default: string)
    requires name in fields && fields[name] == [Text(text)]
    ensures RequiredText(fields, name) == Ok(text) && TextOr(fields, name, default) == Ok(text)
  {
  }

  lemma BoolFound(fields: Fields, name: string, b: bool)
    requires name in fields && fields[name] == [Symbol(ConfigPrinter.BoolText(b))]
    ensures BoolOr(fields, name, false) == Ok(b)
  {
    BoolReadsBack(b);
  }

  lemma PredicateFound(fields: Fields, p: Predicate)
    requires "predicate" in fields && fields["predicate"] == [PredicateForm(p)]
    ensures PredicateOr(fields, Always) == Ok(p)
  {
    PredicateParses(p);
  }

  lemma ViewFieldsAt(v: View, fields: Fields)
    requires HasFields(fields, VIEW_FIELDS, ViewArgs(v))
    ensures "id" in fields && fields["id"] == [Text(v.id)] && "name" in fields && fields["name"] == [Text(v.name)]
    ensures "key" in fields && fields["key"] == [OptionalForm(v.key)]
    ensures "show-tags" in fields && fields["show-tags"] == [Symbol(ConfigPrinter.BoolText(v.showTags))]
    ensures "title-field" in fields && fields["title-field"] == [Text(v.titleField)]
    ensures "subtitle-field" in fields && fields["subtitle-field"] == [OptionalForm(v.subtitleField)]
    ensures "sort-field" in fields && fields["sort-field"] == [OptionalForm(v.sortField)]
    ensures "descending" in fields && fields["descending"] == [Symbol(ConfigPrinter.BoolText(v.descending))]
    ensures "preview" in fields && fields["preview"] == [OptionalForm(v.preview)]
    ensures "predicate" in fields && fields["predicate"] == [PredicateForm(v.condition)]
    ensures FormsOf(fields, "subviews") == SubviewForms(v.subviews)
  {
    hide PredicateForm, SubviewForms, OptionalForm, ConfigPrinter.BoolText;
    var names, args := VIEW_FIELDS, ViewArgs(v);
    assert names[0] == "id" && names[1] == "name" && names[2] == "key" && names[3] == "show-tags";
    assert names[4] == "title-field" && names[5] == "subtitle-field" && names[6] == "sort-field";
    assert names[7] == "descending" && names[8] == "preview" && names[9] == "predicate" && names[10] == "subviews";
    assert forall i :: 0 <= i < |names| ==> fields[names[i]] == args[i];
  }

  lemma ViewFieldsParse(v: View, fields: Fields)
    requires HasFields(fields, VIEW_FIELDS, ViewArgs(v))
    ensures ViewFrom(fields) == Ok(v)
  {
    hide PredicateForm, ParsePredicate, ParseSubviews, SubviewForms, NullableText, RequiredText, TextOr, BoolOr,
      PredicateOr, HasFields, ViewArgs, FormsOf;
    ViewFieldsAt(v, fields);
    TextFound(fields, "id", v.id, "");
    TextFound(fields, "name", v.name, "");
    OptionalTextFound(fields, "key", v.key);
    BoolFound(fields, "show-tags", v.showTags);
    TextFound(fields, "title-field", v.titleField, "title");
    OptionalTextFound(fields, "subtitle-field", v.subtitleField);
    OptionalTextFound(fields, "sort-field", v.sortField);
    BoolFound(fields, "descending", v.descending);
    OptionalTextFound(fields, "preview", v.preview);
    PredicateFound(fields, v.condition);
    SubviewsReadBack(v.subviews);
  }

  function ViewForms(vs: seq<View>): seq<Form> {
    seq(|vs|, i requires 0 <= i < |vs| => ViewForm(vs[i]))
  }

  lemma {:induction false} ViewsReadBack(vs: seq<View>)
    ensures AllDenote(ConfigPrinter.ViewTexts(vs), ViewForms(vs))
    ensures ParseViews(ViewForms(vs)) == Ok(vs)
  {
    hide Denotes, ViewForm, ConfigPrinter.ViewText, ParseView;
    forall i | 0 <= i < |vs| ensures Denotes(ConfigPrinter.ViewTexts(vs)[i], ViewForms(vs)[i]) {
      ViewDenotes(vs[i]);
    }
    if vs != [] {
      ViewParses(vs[0]);
      ViewsReadBack(vs[1..]);
      assert ViewForms(vs)[1..] == ViewForms(vs[1..]);
      assert vs == [vs[0]] + vs[1..];
    }
  }

  // ----- Actions -------------------------------------------------------------------------------------------

  predicate FiniteAction(a: Action) {
    forall i :: 0 <= i < |a.effects| ==> FiniteEffect(a.effects[i])
  }

  /** The fields an action is printed with: the plugin comes last and only if there is one. */
  function ActionNames(a: Action): seq<string> {
    if a.plugin.Some? then ACTION_FIELDS else ACTION_FIELDS[..4]
  }

  function ActionArgs(a: Action, floats: FloatText): seq<seq<Form>> {
    [[Text(a.id)], [Text(a.description)], [PredicateForm(a.condition)], EffectForms(a.effects, floats)]
    + if a.plugin.Some? then [[PluginForm(a.plugin.value)]] else []
  }

  function ActionForm(a: Action, floats: FloatText): Form {
    CallForm("action", FieldForms(ActionNames(a), ActionArgs(a, floats)))
  }

  lemma ActionWords()
    ensures IsWord("action") && forall i :: 0 <= i < |ACTION_FIELDS| ==> IsWord(ACTION_FIELDS[i])
    ensures NoRepeats(ACTION_FIELDS)
  {
    assert IsWord("id") && IsWord("description") && IsWord("predicate") && IsWord("effects") && IsWord("plugin");
  }

  lemma ActionHeaderDenotes(a: Action, floats: FloatText)
    requires Faithful(floats) && FiniteAction(a)
    ensures AllDenote(ConfigPrinter.ActionHeader(a)
                      + [Call("effects", AT8, ConfigPrinter.EffectTexts(a.effects, floats))],
                      FieldForms(ActionNames(a), ActionArgs(a, floats))[..4])
  {
    hide Denotes, ConfigPrinter.Field, IsWord, EffectForms, ConfigPrinter.EffectTexts, Call;
    ActionWords();
    QuoteDenotes(a.id);
    QuoteDenotes(a.description);
    PredicateDenotes(a.condition);
    EffectsReadBack(a.effects, floats);
    FieldDenotes(ACTION_FIELDS[0], Quote(a.id), Text(a.id));
    FieldDenotes(ACTION_FIELDS[1], Quote(a.description), Text(a.description));
    FieldDenotes(ACTION_FIELDS[2], ConfigPrinter.PredicateText(a.condition), PredicateForm(a.condition));
    CallDenotes(ACTION_FIELDS[3], AT8, ConfigPrinter.EffectTexts(a.effects, floats),
      EffectForms(a.effects, floats));
  }

  lemma ActionDenotes(a: Action, floats: FloatText)
    requires Faithful(floats) && FiniteAction(a)
    ensures Denotes(ConfigPrinter.ActionText(a, floats), ActionForm(a, floats))
  {
    hide Denotes, IsWord, Call, ConfigPrinter.ActionHeader, EffectForms, ConfigPrinter.EffectTexts;
    var forms := FieldForms(ActionNames(a), ActionArgs(a, floats));
    var most := ConfigPrinter.ActionHeader(a)
      + [Call("effects", AT8, ConfigPrinter.EffectTexts(a.effects, floats))];
    ActionWords();
    ActionHeaderDenotes(a, floats);
    if a.plugin.Some? {
      PluginReadsBack(a.plugin.value);
      FieldDenotes(ACTION_FIELDS[4], ConfigPrinter.PluginText(a.plugin.value), PluginForm(a.plugin.value));
    } else {
      assert forms[..4] == forms && most + [] == most;
    }
    CallDenotes("action", AT6, most + ConfigPrinter.PluginField(a.plugin), forms);
  }

  lemma PluginFound(fields: Fields, plugin: Option<ActionPlugin>)
    requires match plugin
             case None => "plugin" !in fields
             case Some(p) => "plugin" in fields && fields["plugin"] == [PluginForm(p)]
    ensures PluginFrom(fields) == Ok(plugin)
  {
    if plugin.Some? {
      PluginReadsBack(plugin.value);
    }
  }

  lemma ActionFieldsParse(a: Action, fields: Fields, floats: FloatText)
    requires Faithful(floats) && FiniteAction(a)
    requires HasFields(fields, ActionNames(a), ActionArgs(a, floats))
    ensures ActionFrom(fields, floats) == Ok(a)
  {
    hide PredicateForm, ParsePredicate, ParseEffects, EffectForms, RequiredText, TextOr, PredicateOr, PluginFrom,
      PluginForm;
    var names, args := ActionNames(a), ActionArgs(a, floats);
    assert names[0] == "id" && names[1] == "description" && names[2] == "predicate" && names[3] == "effects";
    assert forall i :: 0 <= i < |names| ==> fields[names[i]] == args[i];
    TextFound(fields, names[0], a.id, "");
    TextFound(fields, names[1], a.description, "");
    PredicateFound(fields, a.condition);
    EffectsReadBack(a.effects, floats);
    assert FormsOf(fields, "effects") == EffectForms(a.effects, floats);
    if a.plugin.Some? {
      assert names[4] == "plugin";
    } else {
      assert "plugin" !in names;
    }
    PluginFound(fields, a.plugin);
  }

  lemma ActionParses(a: Action, floats: FloatText)
    requires Faithful(floats) && FiniteAction(a)
    ensures ParseAction(ActionForm(a, floats), floats) == Ok(a)
  {
    hide PredicateForm, FieldsFrom, EffectForms, ActionFrom;
    ActionWords();
    var fields := FieldsReadBack(ActionNames(a), ActionArgs(a, floats), ACTION_FIELDS);
    CallFormParts("action", FieldForms(ActionNames(a), ActionArgs(a, floats)));
    ActionFieldsParse(a, fields, floats);
  }

  function ActionForms(as': seq<Action>, floats: FloatText): seq<Form> {
    seq(|as'|, i requires 0 <= i < |as'| => ActionForm(as'[i], floats))
  }

  lemma {:induction false} ActionsReadBack(as': seq<Action>, floats: FloatText)
    requires Faithful(floats) && forall i :: 0 <= i < |as'| ==> FiniteAction(as'[i])
    ensures AllDenote(ConfigPrinter.ActionTexts(as', floats), ActionForms(as', floats))
    ensures ParseActions(ActionForms(as', floats), floats) == Ok(as')
  {
    hide Denotes, ActionForm, ConfigPrinter.ActionText, ParseAction, Faithful, FiniteAction;
    forall i | 0 <= i < |as'| ensures Denotes(ConfigPrinter.ActionTexts(as', floats)[i], ActionForms(as', floats)[i]) {
      ActionDenotes(as'[i], floats);
    }
    if as' != [] {
      ActionParses(as'[0], floats);
      ActionsReadBack(as'[1..], floats);
      assert ActionForms(as', floats)[1..] == ActionForms(as'[1..], floats);
      assert as' == [as'[0]] + as'[1..];
    }
  }

  // ----- Templates -----------------------------------------------------------------------------------------

  function TemplateArgs(t: Template): seq<seq<Form>> {
    [[Text(t.id)], [Text(t.path)], [Text(t.content)]]
  }

  function TemplateForm(t: Template): Form {
    CallForm("template", FieldForms(TEMPLATE_FIELDS, TemplateArgs(t)))
  }

  lemma TemplateReadsBack(t: Template)
    ensures Denotes(ConfigPrinter.TemplateText(t), TemplateForm(t)) && ParseTemplate(TemplateForm(t)) == Ok(t)
  {
    hide Denotes, ConfigPrinter.Field, FieldsFrom, RequiredText;
    assert IsWord("template") && IsWord("id") && IsWord("path") && IsWord("content");
    assert NoRepeats(TEMPLATE_FIELDS);
    QuoteDenotes(t.id);
    QuoteDenotes(t.path);
    QuoteDenotes(t.content);
    FieldDenotes("id", Quote(t.id), Text(t.id));
    FieldDenotes("path", Quote(t.path), Text(t.path));
    FieldDenotes("content", Quote(t.content), Text(t.content));
    CallDenotes("template", AT6,
                [ConfigPrinter.Field("id", Quote(t.id)), ConfigPrinter.Field("path", Quote(t.path)),
                 ConfigPrinter.Field("content", Quote(t.content))],
                FieldForms(TEMPLATE_FIELDS, TemplateArgs(t)));
    var fields := FieldsReadBack(TEMPLATE_FIELDS, TemplateArgs(t), TEMPLATE_FIELDS);
    CallFormParts("template", FieldForms(TEMPLATE_FIELDS, TemplateArgs(t)));
    assert fields[TEMPLATE_FIELDS[0]] == TemplateArgs(t)[0] && fields[TEMPLATE_FIELDS[1]] == TemplateArgs(t)[1]
           && fields[TEMPLATE_FIELDS[2]] == TemplateArgs(t)[2];
    TextFound(fields, "id", t.id, "");
    TextFound(fields, "path", t.path, "");
    TextFound(fields, "content", t.content, "");
  }

  function TemplateForms(ts: seq<Template>): seq<Form> {
    seq(|ts|, i requires 0 <= i < |ts| => TemplateForm(ts[i]))
  }

  lemma {:induction false} TemplatesReadBack(ts: seq<Template>)
    ensures AllDenote(ConfigPrinter.TemplateTexts(ts), TemplateForms(ts))
    ensures ParseTemplates(TemplateForms(ts)) == Ok(ts)
  {
    hide Denotes, TemplateForm, ConfigPrinter.TemplateText, ParseTemplate;
    forall i | 0 <= i < |ts| ensures Denotes(ConfigPrinter.TemplateTexts(ts)[i], TemplateForms(ts)[i]) {
      TemplateReadsBack(ts[i]);
    }
    if ts != [] {
      TemplateReadsBack(ts[0]);
      TemplatesReadBack(ts[1..]);
      assert TemplateForms(ts)[1..] == TemplateForms(ts[1..]);
      assert ts == [ts[0]] + ts[1..];
    }
  }

  // ----- Grants --------------------------------------------------------------------------------------------

  function GrantArgs(action: string, capabilities: set<Capability>): seq<seq<Form>> {
    [[Text(action)], CapabilityForms(ConfigPrinter.Listed(capabilities))]
  }

  function GrantForm(action: string, capabilities: set<Capability>): Form {
    CallForm("grant", FieldForms(GRANT_FIELDS, GrantArgs(action, capabilities)))
  }

  lemma GrantDenotes(action: string, capabilities: set<Capability>)
    ensures Denotes(ConfigPrinter.GrantText(action, capabilities), GrantForm(action, capabilities))
  {
    hide Denotes, ConfigPrinter.Field, ConfigPrinter.Listed, ConfigPrinter.CapabilityTexts, CapabilityForms, Call;
    var listed := ConfigPrinter.Listed(capabilities);
    assert IsWord("grant") && IsWord("action") && IsWord("capabilities");
    QuoteDenotes(action);
    CapabilitiesDenote(listed);
    FieldDenotes("action", Quote(action), Text(action));
    CallDenotes("capabilities", " ", ConfigPrinter.CapabilityTexts(listed), CapabilityForms(listed));
    CallDenotes("grant", AT6,
                [ConfigPrinter.Field("action", Quote(action)),
                 Call("capabilities", " ", ConfigPrinter.CapabilityTexts(listed))],
                FieldForms(GRANT_FIELDS, GrantArgs(action, capabilities)));
  }

  lemma GrantParses(action: string, capabilities: set<Capability>)
    ensures ParseGrant(GrantForm(action, capabilities)) == Ok(Grant(action, capabilities))
  {
    hide ConfigPrinter.Listed, CapabilityForms, CapabilitiesOf, FieldsFrom, RequiredText;
    var args := GrantArgs(action, capabilities);
    assert NoRepeats(GRANT_FIELDS);
    var fields := FieldsReadBack(GRANT_FIELDS, args, GRANT_FIELDS);
    CallFormParts("grant", FieldForms(GRANT_FIELDS, args));
    assert fields[GRANT_FIELDS[0]] == args[0] && fields[GRANT_FIELDS[1]] == args[1];
    TextFound(fields, "action", action, "");
    CapabilitiesParse(ConfigPrinter.Listed(capabilities));
    ListedReadBack(capabilities);
  }

  function GrantForms(keys: seq<string>, grants: Grants): seq<Form>
    requires forall k :: k in keys ==> k in grants
  {
    seq(|keys|, i requires 0 <= i < |keys| => GrantForm(keys[i], grants[keys[i]]))
  }

  lemma GrantsDenote(keys: seq<string>, grants: Grants)
    requires forall k :: k in keys ==> k in grants
    ensures AllDenote(ConfigPrinter.GrantTexts(keys, grants), GrantForms(keys, grants))
  {
    hide Denotes, GrantForm, ConfigPrinter.GrantText;
    forall i | 0 <= i < |keys| ensures Denotes(ConfigPrinter.GrantTexts(keys, grants)[i], GrantForms(keys, grants)[i]) {
      GrantDenotes(keys[i], grants[keys[i]]);
    }
  }

  lemma {:induction false} GrantsParse(keys: seq<string>, grants: Grants, before: Grants)
    requires NoRepeats(keys) && forall k :: k in keys ==> k in grants && k !in before
    ensures ParseGrantsFrom(GrantForms(keys, grants), before) == Ok(before + Picked(keys, grants))
    decreases |keys|
  {
    hide GrantForm, ParseGrant, Picked;
    if keys == [] {
      PickedNone(grants, before);
    } else {
      GrantParses(keys[0], grants[keys[0]]);
      GrantsParse(keys[1..], grants, before[keys[0] := grants[keys[0]]]);
      assert GrantForms(keys, grants)[1..] == GrantForms(keys[1..], grants);
      PickedCons(keys, grants, before);
    }
  }

  lemma GrantsReadBack(grants: Grants)
    ensures AllDenote(ConfigPrinter.GrantTexts(SortedKeys(grants.Keys), grants),
            GrantForms(SortedKeys(grants.Keys), grants))
    ensures ParseGrantsFrom(GrantForms(SortedKeys(grants.Keys), grants), map[]) == Ok(grants)
  {
    hide Less, SortedKeys, GrantForms, ParseGrantsFrom, ConfigPrinter.GrantTexts;
    SortedKeysDistinct(grants.Keys);
    GrantsDenote(SortedKeys(grants.Keys), grants);
    GrantsParse(SortedKeys(grants.Keys), grants, map[]);
    PickedAll(grants);
  }

  // ----- The workspace -------------------------------------------------------------------------------------

  predicate FiniteWorkspace(w: Workspace) {
    forall i :: 0 <= i < |w.actions| ==> FiniteAction(w.actions[i])
  }

  function WorkspaceArgs(w: Workspace, floats: FloatText): seq<seq<Form>> {
    [[Symbol(PrintNat(w.schema))], [Text(w.defaultView)], [Symbol(PrintNat(w.queryLimit))],
     ViewForms(w.views), ActionForms(w.actions, floats), TemplateForms(w.templates),
     GrantForms(SortedKeys(w.grants.Keys), w.grants)]
  }

  function WorkspaceForm(w: Workspace, root: string, floats: FloatText): Form {
    CallForm(root, FieldForms(WORKSPACE_FIELDS, WorkspaceArgs(w, floats)))
  }

  lemma RootIsWord(module': bool)
    ensures IsWord(ConfigPrinter.RootName(module'))
  {
    assert IsWord("workspace-config") && IsWord("workspace-module");
  }

  lemma WorkspaceWords()
    ensures forall i :: 0 <= i < |WORKSPACE_FIELDS| ==> IsWord(WORKSPACE_FIELDS[i])
  {
    hide IsWord;
    WorkspaceWordsFront();
    WorkspaceWordsBack();
  }

  lemma WorkspaceWordsFront()
    ensures IsWord("schema") && IsWord("default-view") && IsWord("query-limit") && IsWord("views")
  {
  }

  lemma WorkspaceWordsBack()
    ensures IsWord("actions") && IsWord("templates") && IsWord("capability-grants")
  {
  }

  lemma WorkspaceNamesDistinct()
    ensures NoRepeats(WORKSPACE_FIELDS)
  {
  }

  function Lists(w: Workspace, floats: FloatText): seq<string> {
    [Call("views", AT4, ConfigPrinter.ViewTexts(w.views)),
     Call("actions", AT4, ConfigPrinter.ActionTexts(w.actions, floats)),
     Call("templates", AT4, ConfigPrinter.TemplateTexts(w.templates)),
     Call("capability-grants", AT4, ConfigPrinter.GrantTexts(SortedKeys(w.grants.Keys), w.grants))]
  }

  lemma ListDenotes(name: string, texts: seq<string>, forms: seq<Form>)
    requires IsWord(name) && AllDenote(texts, forms)
    ensures Denotes(Call(name, AT4, texts), CallForm(name, forms))
  {
    hide IsWord, Denotes;
    CallDenotes(name, AT4, texts, forms);
  }

  lemma ListsDenote(w: Workspace, floats: FloatText)
    requires Faithful(floats) && FiniteWorkspace(w)
    ensures AllDenote(Lists(w, floats), FieldForms(WORKSPACE_FIELDS, WorkspaceArgs(w, floats))[3..])
  {
    hide Denotes, IsWord, Call, SortedKeys, Less, ConfigPrinter.ViewTexts, ConfigPrinter.ActionTexts,
      ConfigPrinter.TemplateTexts, ConfigPrinter.GrantTexts, ViewForms, ActionForms, TemplateForms, GrantForms,
      PrintNat, Faithful;
    WorkspaceWordsFront();
    WorkspaceWordsBack();
    var keys := SortedKeys(w.grants.Keys);
    ListDenotes("views", ConfigPrinter.ViewTexts(w.views), ViewForms(w.views)) by {
      ViewsReadBack(w.views);
    }
    ListDenotes("actions", ConfigPrinter.ActionTexts(w.actions, floats), ActionForms(w.actions, floats)) by {
      ActionsReadBack(w.actions, floats);
    }
    ListDenotes("templates", ConfigPrinter.TemplateTexts(w.templates), TemplateForms(w.templates)) by {
      TemplatesReadBack(w.templates);
    }
    ListDenotes("capability-grants", ConfigPrinter.GrantTexts(keys, w.grants), GrantForms(keys, w.grants)) by {
      GrantsReadBack(w.grants);
    }
  }

  lemma HeaderDenotes(w: Workspace, floats: FloatText)
    ensures AllDenote(ConfigPrinter.ConfigHeader(w), FieldForms(WORKSPACE_FIELDS, WorkspaceArgs(w, floats))[..3])
  {
    hide Denotes, ConfigPrinter.Field, IsWord, SortedKeys, Less, ViewForms, ActionForms, TemplateForms, GrantForms,
      PrintNat;
    WorkspaceWords();
    NatIsWord(w.schema);
    NatIsWord(w.queryLimit);
    WordDenotes(PrintNat(w.schema));
    WordDenotes(PrintNat(w.queryLimit));
    QuoteDenotes(w.defaultView);
    FieldDenotes(WORKSPACE_FIELDS[0], PrintNat(w.schema), Symbol(PrintNat(w.schema)));
    FieldDenotes(WORKSPACE_FIELDS[1], Quote(w.defaultView), Text(w.defaultView));
    FieldDenotes(WORKSPACE_FIELDS[2], PrintNat(w.queryLimit), Symbol(PrintNat(w.queryLimit)));
  }

  lemma AllDenoteAppend(texts: seq<string>, texts': seq<string>, forms: seq<Form>)
    requires |forms| == |texts| + |texts'| && AllDenote(texts, forms[..|texts|]) && AllDenote(texts', forms[|texts|..])
    ensures AllDenote(texts + texts', forms)
  {
    hide Denotes;
    forall i | 0 <= i < |forms| ensures Denotes((texts + texts')[i], forms[i]) {
      if i < |texts| {
        assert Denotes(texts[i], forms[..|texts|][i]);
      } else {
        assert Denotes(texts'[i - |texts|], forms[|texts|..][i - |texts|]);
      }
    }
  }

  /** The printed configuration without its final line break. */
  function ConfigBody(w: Workspace, module': bool, floats: FloatText): string {
    Call(ConfigPrinter.RootName(module'), AT2, ConfigPrinter.ConfigHeader(w) + Lists(w, floats))
  }

  lemma ConfigDenotes(w: Workspace, module': bool, floats: FloatText)
    requires Faithful(floats) && FiniteWorkspace(w)
    ensures Denotes(ConfigBody(w, module', floats), WorkspaceForm(w, ConfigPrinter.RootName(module'), floats))
    ensures ConfigPrinter.ConfigText(w, module', floats) == ConfigBody(w, module', floats) + "\n"
  {
    hide Denotes, IsWord, Call, Lists, ConfigPrinter.ConfigHeader, WorkspaceArgs, Faithful, FiniteWorkspace;
    RootIsWord(module');
    HeaderDenotes(w, floats);
    ListsDenote(w, floats);
    HeaderLength(w);
    WorkspaceArgsLength(w, floats);
    AllDenoteAppend(ConfigPrinter.ConfigHeader(w), Lists(w, floats),
      FieldForms(WORKSPACE_FIELDS, WorkspaceArgs(w, floats)));
    CallDenotes(ConfigPrinter.RootName(module'), AT2, ConfigPrinter.ConfigHeader(w) + Lists(w, floats),
                FieldForms(WORKSPACE_FIELDS, WorkspaceArgs(w, floats)));
    TextIsBody(w, module', floats);
  }

  lemma HeaderLength(w: Workspace)
    ensures |ConfigPrinter.ConfigHeader(w)| == 3
    ensures forall floats :: |Lists(w, floats)| == 4
  {
  }

  lemma TextIsBody(w: Workspace, module': bool, floats: FloatText)
    ensures ConfigPrinter.ConfigText(w, module', floats) == ConfigBody(w, module', floats) + "\n"
  {
    hide Call, ConfigPrinter.ConfigHeader, ConfigPrinter.ViewTexts, ConfigPrinter.ActionTexts,
      ConfigPrinter.TemplateTexts, ConfigPrinter.GrantTexts, SortedKeys, Less;
  }

  lemma NatFound(fields: Fields, name: string, n: nat, max: nat)
    requires name in fields && fields[name] == [Symbol(PrintNat(n))] && n <= max
    ensures OptionalNat(fields, name, max) == Ok(Some(n))
  {
    ReadNatOfPrint(n, max);
  }

  lemma WorkspaceFieldsAt(w: Workspace, fields: Fields, floats: FloatText)
    requires HasFields(fields, WORKSPACE_FIELDS, WorkspaceArgs(w, floats))
    ensures "schema" in fields && fields["schema"] == [Symbol(PrintNat(w.schema))]
    ensures "default-view" in fields && fields["default-view"] == [Text(w.defaultView)]
    ensures "query-limit" in fields && fields["query-limit"] == [Symbol(PrintNat(w.queryLimit))]
    ensures FormsOf(fields, "views") == ViewForms(w.views)
    ensures FormsOf(fields, "actions") == ActionForms(w.actions, floats)
    ensures FormsOf(fields, "templates") == TemplateForms(w.templates)
    ensures FormsOf(fields, "capability-grants") == GrantForms(SortedKeys(w.grants.Keys), w.grants)
  {
    hide PrintNat, SortedKeys, ViewForms, ActionForms, TemplateForms, GrantForms;
    var names, args := WORKSPACE_FIELDS, WorkspaceArgs(w, floats);
    assert names[0] == "schema" && names[1] == "default-view" && names[2] == "query-limit" && names[3] == "views";
    assert names[4] == "actions" && names[5] == "templates" && names[6] == "capability-grants";
    assert forall i :: 0 <= i < |names| ==> fields[names[i]] == args[i];
  }

  lemma WorkspaceFieldsParse(w: Workspace, fields: Fields, floats: FloatText)
    requires Faithful(floats) && FiniteWorkspace(w)
    requires HasFields(fields, WORKSPACE_FIELDS, WorkspaceArgs(w, floats))
    ensures WorkspaceFrom(fields, floats) == Ok(w)
  {
    hide PrintNat, SortedKeys, Less, ViewForms, ActionForms, TemplateForms, GrantForms, ParseViews, ParseActions,
      ParseTemplates, ParseGrantsFrom, TextOr, OptionalNat, Faithful, FiniteWorkspace, HasFields, FormsOf,
      WorkspaceArgs;
    WorkspaceFieldsAt(w, fields, floats);
    NatFound(fields, "schema", w.schema, 0xFFFF);
    TextFound(fields, "default-view", w.defaultView, "all");
    NatFound(fields, "query-limit", w.queryLimit, 0xFFFF_FFFF_FFFF_FFFF);
    ViewsReadBack(w.views);
    ActionsAreFinite(w, floats);
    TemplatesReadBack(w.templates);
    GrantsReadBack(w.grants);
  }

  lemma ActionsAreFinite(w: Workspace, floats: FloatText)
    requires Faithful(floats) && FiniteWorkspace(w)
    ensures ParseActions(ActionForms(w.actions, floats), floats) == Ok(w.actions)
  {
    ActionsReadBack(w.actions, floats);
  }

  lemma WorkspaceDecodes(w: Workspace, root: string, floats: FloatText)
    requires Faithful(floats) && FiniteWorkspace(w)
    ensures DecodeWorkspace(WorkspaceForm(w, root, floats), root, floats)
         == match Validate(w) case Err(e) => Err(InvalidBehavior(e)) case Ok(_) => Ok(w)
  {
    hide FieldsFrom, WorkspaceFrom, WorkspaceArgs, Validate, Faithful, FiniteWorkspace;
    WorkspaceNamesDistinct();
    WorkspaceArgsLength(w, floats);
    var fields := FieldsReadBack(WORKSPACE_FIELDS, WorkspaceArgs(w, floats), WORKSPACE_FIELDS);
    CallFormParts(root, FieldForms(WORKSPACE_FIELDS, WorkspaceArgs(w, floats)));
    WorkspaceFieldsParse(w, fields, floats);
  }

  lemma WorkspaceArgsLength(w: Workspace, floats: FloatText)
    ensures |WorkspaceArgs(w, floats)| == |WORKSPACE_FIELDS|
  {
  }

  // ----- The theorems --------------------------------------------------------------------------------------

  /** What parsing a printed configuration gives, in every case. */
  lemma PrintedParses(w: Workspace, module': bool, floats: FloatText)
    requires Faithful(floats) && FiniteWorkspace(w)
    ensures var text := ConfigPrinter.ConfigText(w, module', floats);
            ParseConfig(text, ConfigPrinter.RootName(module'), floats)
            == (if Utf8Length(text) > MAX_CONFIG_BYTES then Err(TooLarge)
                else match Validate(w) case Err(e) => Err(InvalidBehavior(e)) case Ok(_) => Ok(w))
  {
    hide Utf8Length, Validate, DecodeWorkspace, WorkspaceForm, ConfigBody, ConfigPrinter.ConfigText, Faithful,
      FiniteWorkspace;
    var text, body := ConfigPrinter.ConfigText(w, module', floats), ConfigBody(w, module', floats);
    var form := WorkspaceForm(w, ConfigPrinter.RootName(module'), floats);
    ConfigDenotes(w, module', floats);
    assert ReadsAs(body, form, "\n");
    assert SkipIgnored("\n") == [];
    WorkspaceDecodes(w, ConfigPrinter.RootName(module'), floats);
  }

  /** Configuration round trip: a printed workspace parses back to exactly itself, for any nesting
      of predicates and values and any strings, precisely when it is valid and fits the limit. */
  lemma ConfigRoundTrips(w: Workspace, module': bool, floats: FloatText)
    requires Faithful(floats) && FiniteWorkspace(w)
    ensures var text := ConfigPrinter.ConfigText(w, module', floats);
            (ParseConfig(text, ConfigPrinter.RootName(module'), floats) == Ok(w)
             <==> Validate(w).Ok? && Utf8Length(text) <= MAX_CONFIG_BYTES)
  {
    hide Utf8Length, Validate, ParseConfig, ConfigPrinter.ConfigText, Faithful, FiniteWorkspace;
    PrintedParses(w, module', floats);
  }

  /** Two finite workspaces with the same text are the same workspace. */
  lemma PrintingLosesNothing(v: Workspace, w: Workspace, module': bool, floats: FloatText)
    requires Faithful(floats) && FiniteWorkspace(v) && FiniteWorkspace(w)
    requires ConfigPrinter.ConfigText(v, module', floats) == ConfigPrinter.ConfigText(w, module', floats)
    ensures v == w
  {
    hide ConfigBody, ConfigPrinter.ConfigText, Faithful, FiniteWorkspace, WorkspaceArgs, WorkspaceFrom, FieldsFrom;
    var root := ConfigPrinter.RootName(module');
    ConfigDenotes(v, module', floats);
    ConfigDenotes(w, module', floats);
    assert ConfigBody(v, module', floats) == ConfigBody(w, module', floats) by {
      var text := ConfigPrinter.ConfigText(v, module', floats);
      assert ConfigBody(v, module', floats) == text[..|text| - 1];
      assert ConfigBody(w, module', floats) == text[..|text| - 1];
    }
    assert ReadsAs(ConfigBody(v, module', floats), WorkspaceForm(v, root, floats), "");
    assert ReadsAs(ConfigBody(w, module', floats), WorkspaceForm(w, root, floats), "");
    WorkspaceArgsLength(v, floats);
    WorkspaceArgsLength(w, floats);
    CallFormParts(root, FieldForms(WORKSPACE_FIELDS, WorkspaceArgs(v, floats)));
    CallFormParts(root, FieldForms(WORKSPACE_FIELDS, WorkspaceArgs(w, floats)));
    WorkspaceNamesDistinct();
    var fields := FieldsReadBack(WORKSPACE_FIELDS, WorkspaceArgs(v, floats), WORKSPACE_FIELDS);
    var fields' := FieldsReadBack(WORKSPACE_FIELDS, WorkspaceArgs(w, floats), WORKSPACE_FIELDS);
    WorkspaceFieldsParse(v, fields, floats);
    WorkspaceFieldsParse(w, fields', floats);
  }

  // ----- Reformatting --------------------------------------------------------------------------------------

  lemma {:induction false} ParsedValueFinite(form: Form, floats: FloatText)
    requires ParseValue(form, floats).Ok?
    ensures Finite(ParseValue(form, floats).value)
    decreases form
  {
    var name := Head(form).value;
    if name == "sequence" {
      ParsedValuesFinite(form.items[1..], floats);
    } else if name == "mapping" {
      ParsedEntriesFinite(form.items[1..], map[], floats);
    }
  }

  lemma {:induction false} ParsedValuesFinite(forms: seq<Form>, floats: FloatText)
    requires ParseValues(forms, floats).Ok?
    ensures var vs := ParseValues(forms, floats).value; forall i :: 0 <= i < |vs| ==> Finite(vs[i])
    decreases forms
  {
    if forms != [] {
      ParsedValueFinite(forms[0], floats);
      ParsedValuesFinite(forms[1..], floats);
    }
  }

  lemma {:induction false} ParsedEntriesFinite(forms: seq<Form>, before: map<string, FrontmatterValue>,
      floats: FloatText)
    requires ParseEntries(forms, before, floats).Ok?
    requires forall k :: k in before ==> Finite(before[k])
    ensures var entries := ParseEntries(forms, before, floats).value; forall k :: k in entries ==> Finite(entries[k])
    decreases forms
  {
    if forms != [] {
      var items := forms[0].items;
      ParsedValueFinite(items[2], floats);
      ParsedEntriesFinite(forms[1..], before[TextOf(items[1]).value := ParseValue(items[2], floats).value], floats);
    }
  }

  lemma {:induction false} ParsedEffectsFinite(forms: seq<Form>, floats: FloatText)
    requires ParseEffects(forms, floats).Ok?
    ensures var es := ParseEffects(forms, floats).value; forall i :: 0 <= i < |es| ==> FiniteEffect(es[i])
    decreases forms
  {
    if forms != [] {
      ParsedEffectsFinite(forms[1..], floats);
      var e := ParseEffect(forms[0], floats).value;
      if e.SetField? {
        ParsedValueFinite(forms[0].items[1..][1], floats);
      }
    }
  }

  lemma {:induction false} ParsedActionsFinite(forms: seq<Form>, floats: FloatText)
    requires ParseActions(forms, floats).Ok?
    ensures var as' := ParseActions(forms, floats).value; forall i :: 0 <= i < |as'| ==> FiniteAction(as'[i])
    decreases forms
  {
    hide ParseEffects, FieldsFrom, TextOr, RequiredText, PredicateOr, PluginFrom;
    if forms != [] {
      ParsedActionsFinite(forms[1..], floats);
      var fields := FieldsFrom(forms[0].items[1..], ACTION_FIELDS, map[]).value;
      ParsedEffectsFinite(FormsOf(fields, "effects"), floats);
    }
  }

  lemma ParsedWorkspaceFinite(source: string, root: string, floats: FloatText)
    requires ParseConfig(source, root, floats).Ok?
    ensures FiniteWorkspace(ParseConfig(source, root, floats).value)
    ensures Validate(ParseConfig(source, root, floats).value).Ok?
  {
    hide Utf8Length, ReadForm, FieldsFrom, ParseActions, ParseViews, ParseTemplates, ParseGrantsFrom, Validate, TextOr,
      OptionalNat;
    var form := ReadForm(source).value.value;
    var fields := FieldsFrom(form.items[1..], WORKSPACE_FIELDS, map[]).value;
    ParsedActionsFinite(FormsOf(fields, "actions"), floats);
  }

  /** Printing normalizes: whatever source was accepted, however it was written, its canonical
      text is accepted with the same meaning, unless it outgrows the limit. */
  lemma ReformattingKeepsMeaning(source: string, module': bool, floats: FloatText)
    requires Faithful(floats) && ParseConfig(source, ConfigPrinter.RootName(module'), floats).Ok?
    ensures var w := ParseConfig(source, ConfigPrinter.RootName(module'), floats).value;
            var text := ConfigPrinter.ConfigText(w, module', floats);
            (Utf8Length(text) <= MAX_CONFIG_BYTES ==>
               ParseConfig(text, ConfigPrinter.RootName(module'), floats) == Ok(w))
  {
    hide Utf8Length, ParseConfig, Validate, ConfigPrinter.ConfigText, Faithful, FiniteWorkspace;
    ParsedWorkspaceFinite(source, ConfigPrinter.RootName(module'), floats);
    PrintedParses(ParseConfig(source, ConfigPrinter.RootName(module'), floats).value, module', floats);
  }
}
