/** Fields that hold their default may be left out of a configuration, in any selection and any order. */
module ConfigDefaults {
  import opened Results
  import opened Sequences
  import opened Strings
  import opened Decimals
  import opened Behavior
  import opened JsonStrings
  import opened Lexer
  import opened Forms
  import opened Layout
  import opened ConfigDecoder
  import opened ConfigParser
  import ConfigPrinter
  import opened ConfigTerms
  import opened ConfigRoundTrip
  import opened ConfigMeaning

  /** Some of the fields, each with its own arguments, in any order; only those that hold their default are
      left out. */
  ghost predicate Selected(names: seq<string>, args: seq<seq<Form>>, all: seq<string>, values: seq<seq<Form>>,
      defaults: seq<bool>)
  {
    && |names| == |args| && |all| == |values| == |defaults| && NoRepeats(names)
    && (forall i :: 0 <= i < |names| ==> exists k :: 0 <= k < |all| && names[i] == all[k] && args[i] == values[k])
    && (forall k :: 0 <= k < |all| && !defaults[k] ==> all[k] in names)
  }

  /** What the selected fields mean for each of all fields. */
  ghost predicate EachGiven(fields: Fields, all: seq<string>, values: seq<seq<Form>>, defaults: seq<bool>) {
    && |all| == |values| == |defaults|
    && forall k :: 0 <= k < |all| ==>
         && Given(fields, all[k], values[k], defaults[k])
         && (Args(fields, all[k]) == values[k] || (defaults[k] && Args(fields, all[k]) == []))
  }

  lemma SelectedGiven(names: seq<string>, args: seq<seq<Form>>, all: seq<string>, values: seq<seq<Form>>,
      defaults: seq<bool>, fields: Fields, k: nat)
    requires Selected(names, args, all, values, defaults) && NoRepeats(all) && k < |all|
    requires HasFields(fields, names, args)
    ensures Given(fields, all[k], values[k], defaults[k])
    ensures Args(fields, all[k]) == values[k] || (defaults[k] && Args(fields, all[k]) == [])
  {
    if all[k] in fields {
      var i :| 0 <= i < |names| && names[i] == all[k];
      var l :| 0 <= l < |all| && names[i] == all[l] && args[i] == values[l];
      assert l == k;
    }
  }

  lemma SelectedFields(names: seq<string>, args: seq<seq<Form>>, all: seq<string>, values: seq<seq<Form>>,
      defaults: seq<bool>, allowed: seq<string>) returns (fields: Fields)
    requires Selected(names, args, all, values, defaults) && NoRepeats(all) && forall n :: n in all ==> n in allowed
    ensures |names| == |args| && FieldsFrom(FieldForms(names, args), allowed, map[]) == Ok(fields)
    ensures EachGiven(fields, all, values, defaults) && forall n :: n in fields ==> n in all
  {
    forall n | n in names ensures n in all {
      var i :| 0 <= i < |names| && names[i] == n;
      var k :| 0 <= k < |all| && names[i] == all[k] && args[i] == values[k];
    }
    fields := FieldsReadBack(names, args, allowed);
    forall k: nat | k < |all|
      ensures Given(fields, all[k], values[k], defaults[k])
      ensures Args(fields, all[k]) == values[k] || (defaults[k] && Args(fields, all[k]) == [])
    {
      SelectedGiven(names, args, all, values, defaults, fields, k);
    }
  }

  // ----- Subviews and views ----------------------------------------------------------------------------------

  function SubviewDefaults(s: Subview): seq<bool> {
    [false, s.name == "", s.sortField == None, s.condition == Always]
  }

  /** A subview may leave out an empty name, an absent sort field and the condition that always holds. */
  lemma SubviewWithoutDefaults(s: Subview, names: seq<string>, args: seq<seq<Form>>)
    requires Selected(names, args, SUBVIEW_FIELDS, SubviewArgs(s), SubviewDefaults(s))
    ensures ParseSubview(CallForm("subview", FieldForms(names, args))) == Ok(s)
  {
    hide Selected, FieldsFrom, SubviewFrom, PredicateForm, OptionalForm, Given, Args;
    SubviewWords();
    var all := SUBVIEW_FIELDS;
    var fields := SelectedFields(names, args, all, SubviewArgs(s), SubviewDefaults(s), all);
    assert all[0] == "id" && all[1] == "name" && all[2] == "sort-field" && all[3] == "predicate";
    SubviewFieldsExactly(fields, s);
    CallFormParts("subview", FieldForms(names, args));
  }

  function ViewDefaults(v: View): seq<bool> {
    [false, v.name == "", v.key == None, v.showTags == false, v.titleField == "title", v.subtitleField == None,
     v.sortField == None, v.descending == false, v.preview == None, v.condition == Always, v.subviews == []]
  }

  lemma ViewValues(v: View)
    ensures |VIEW_FIELDS| == 11 && |ViewArgs(v)| == 11
    ensures VIEW_FIELDS[0] == "id" && VIEW_FIELDS[1] == "name" && VIEW_FIELDS[2] == "key"
    ensures VIEW_FIELDS[3] == "show-tags" && VIEW_FIELDS[4] == "title-field" && VIEW_FIELDS[5] == "subtitle-field"
    ensures VIEW_FIELDS[6] == "sort-field" && VIEW_FIELDS[7] == "descending" && VIEW_FIELDS[8] == "preview"
    ensures VIEW_FIELDS[9] == "predicate" && VIEW_FIELDS[10] == "subviews"
    ensures ViewArgs(v)[0] == [Text(v.id)] && ViewArgs(v)[1] == [Text(v.name)]
    ensures ViewArgs(v)[2] == [OptionalForm(v.key)]
    ensures ViewArgs(v)[3] == [Symbol(if v.showTags then "#t" else "#f")] && ViewArgs(v)[4] == [Text(v.titleField)]
    ensures ViewArgs(v)[5] == [OptionalForm(v.subtitleField)] && ViewArgs(v)[6] == [OptionalForm(v.sortField)]
    ensures ViewArgs(v)[7] == [Symbol(if v.descending then "#t" else "#f")]
    ensures ViewArgs(v)[8] == [OptionalForm(v.preview)] && ViewArgs(v)[9] == [PredicateForm(v.condition)]
    ensures ViewArgs(v)[10] == SubviewForms(v.subviews)
  {
    hide PredicateForm, OptionalForm, SubviewForms;
  }

  lemma ViewGiven(v: View, fields: Fields)
    requires EachGiven(fields, VIEW_FIELDS, ViewArgs(v), ViewDefaults(v))
    ensures ViewHas(fields, v)
  {
    hide ViewArgs, Given, Args, SubviewForms, PredicateForm, OptionalForm, SubviewsSay;
    ViewValues(v);
    var all := VIEW_FIELDS;
    assert forall k :: 0 <= k < 11 ==> Given(fields, all[k], ViewArgs(v)[k], ViewDefaults(v)[k]);
    SubviewsReadBack(v.subviews);
    SubviewsParseExactly(Args(fields, all[10]), v.subviews);
  }

  /** A view may leave out whatever holds its default: no name, key, fields or preview, no tags shown, the
      title taken from `title`, ascending order, the condition that always holds, no subviews. */
  lemma ViewWithoutDefaults(v: View, names: seq<string>, args: seq<seq<Form>>)
    requires Selected(names, args, VIEW_FIELDS, ViewArgs(v), ViewDefaults(v))
    ensures ParseView(CallForm("view", FieldForms(names, args))) == Ok(v)
  {
    hide Selected, FieldsFrom, ViewFrom, ViewArgs, ViewDefaults, ViewHas, EachGiven;
    ViewNamesDistinct();
    var fields := SelectedFields(names, args, VIEW_FIELDS, ViewArgs(v), ViewDefaults(v), VIEW_FIELDS);
    ViewGiven(v, fields);
    ViewFieldsExactly(fields, v);
    CallFormParts("view", FieldForms(names, args));
  }

  // ----- Actions ---------------------------------------------------------------------------------------------

  function ActionDefaults(a: Action): seq<bool> {
    [false, a.description == "", a.condition == Always, a.effects == []] + if a.plugin.Some? then [false] else []
  }

  lemma ActionValues(a: Action, floats: FloatText)
    ensures |ActionNames(a)| == |ActionArgs(a, floats)| >= 4
    ensures ActionNames(a)[0] == "id" && ActionNames(a)[1] == "description"
    ensures ActionNames(a)[2] == "predicate" && ActionNames(a)[3] == "effects"
    ensures ActionArgs(a, floats)[0] == [Text(a.id)] && ActionArgs(a, floats)[1] == [Text(a.description)]
    ensures ActionArgs(a, floats)[2] == [PredicateForm(a.condition)]
    ensures ActionArgs(a, floats)[3] == EffectForms(a.effects, floats)
    ensures if a.plugin.Some?
            then |ActionNames(a)| == 5 && ActionNames(a)[4] == "plugin"
                 && ActionArgs(a, floats)[4] == [PluginForm(a.plugin.value)]
            else "plugin" !in ActionNames(a)
  {
    hide PredicateForm, EffectForms, PluginForm;
  }

  lemma ActionGiven(a: Action, fields: Fields, floats: FloatText)
    requires Faithful(floats) && FiniteAction(a)
    requires EachGiven(fields, ActionNames(a), ActionArgs(a, floats), ActionDefaults(a))
    requires forall n :: n in fields ==> n in ActionNames(a)
    ensures ActionHas(fields, a, floats)
  {
    hide PredicateForm, EffectForms, PluginForm, EffectsSay, PluginSays, Faithful, FiniteAction, ActionNames,
      ActionArgs, ParseEffects;
    var all := ActionNames(a);
    ActionValues(a, floats);
    assert forall k :: 0 <= k < |all| ==> Given(fields, all[k], ActionArgs(a, floats)[k], ActionDefaults(a)[k]);
    ActionEffectsFinite(a);
    EffectsReadBack(a.effects, floats);
    EffectsParseExactly(Args(fields, all[3]), a.effects, floats);
    if a.plugin.Some? {
      PluginReadsBack(a.plugin.value);
      PluginParsesExactly(PluginForm(a.plugin.value), a.plugin.value);
    }
  }

  lemma ActionEffectsFinite(a: Action)
    requires FiniteAction(a)
    ensures forall i :: 0 <= i < |a.effects| ==> FiniteEffect(a.effects[i])
  {
  }

  /** An action may leave out an empty description, the condition that always holds and empty effects. */
  lemma ActionWithoutDefaults(a: Action, floats: FloatText, names: seq<string>, args: seq<seq<Form>>)
    requires Faithful(floats) && FiniteAction(a)
    requires Selected(names, args, ActionNames(a), ActionArgs(a, floats), ActionDefaults(a))
    ensures ParseAction(CallForm("action", FieldForms(names, args)), floats) == Ok(a)
  {
    hide Selected, FieldsFrom, ActionFrom, ActionArgs, ActionDefaults, ActionHas, EachGiven, Faithful, FiniteAction;
    ActionWords();
    var fields := SelectedFields(names, args, ActionNames(a), ActionArgs(a, floats), ActionDefaults(a),
      ACTION_FIELDS);
    ActionGiven(a, fields, floats);
    ActionFieldsExactly(fields, a, floats);
    CallFormParts("action", FieldForms(names, args));
  }

  // ----- The workspace ---------------------------------------------------------------------------------------

  function WorkspaceDefaults(w: Workspace): seq<bool> {
    [false, w.defaultView == "all", w.queryLimit == 500, w.views == [], w.actions == [], w.templates == [],
     w.grants == map[]]
  }

  lemma WorkspaceValues(w: Workspace, floats: FloatText)
    ensures |WORKSPACE_FIELDS| == 7 && |WorkspaceArgs(w, floats)| == 7
    ensures WORKSPACE_FIELDS[0] == "schema" && WORKSPACE_FIELDS[1] == "default-view"
    ensures WORKSPACE_FIELDS[2] == "query-limit" && WORKSPACE_FIELDS[3] == "views" && WORKSPACE_FIELDS[4] == "actions"
    ensures WORKSPACE_FIELDS[5] == "templates" && WORKSPACE_FIELDS[6] == "capability-grants"
    ensures WorkspaceArgs(w, floats)[0] == [Symbol(PrintNat(w.schema))]
    ensures WorkspaceArgs(w, floats)[1] == [Text(w.defaultView)]
    ensures WorkspaceArgs(w, floats)[2] == [Symbol(PrintNat(w.queryLimit))]
    ensures WorkspaceArgs(w, floats)[3] == ViewForms(w.views)
    ensures WorkspaceArgs(w, floats)[4] == ActionForms(w.actions, floats)
    ensures WorkspaceArgs(w, floats)[5] == TemplateForms(w.templates)
    ensures WorkspaceArgs(w, floats)[6] == GrantForms(SortedKeys(w.grants.Keys), w.grants)
  {
    hide PrintNat, ViewForms, ActionForms, TemplateForms, GrantForms, SortedKeys;
  }

  lemma NumberIsGiven(fields: Fields, name: string, n: nat, max: nat, isDefault: bool)
    requires Given(fields, name, [Symbol(PrintNat(n))], isDefault) && n <= max
    ensures NumberGiven(fields, name, n, max, isDefault)
  {
    ReadNatOfPrint(n, max);
  }

  lemma WorkspaceGiven(w: Workspace, fields: Fields, floats: FloatText)
    requires Faithful(floats) && FiniteWorkspace(w)
    requires EachGiven(fields, WORKSPACE_FIELDS, WorkspaceArgs(w, floats), WorkspaceDefaults(w))
    ensures WorkspaceHas(fields, w, floats)
  {
    hide WorkspaceArgs, Given, Args, PrintNat, ViewForms, ActionForms, TemplateForms, GrantForms, SortedKeys, Less,
      ViewsSay, ActionsSay, TemplatesSay, GrantsSay, Faithful, NumberGiven;
    WorkspaceValues(w, floats);
    var all := WORKSPACE_FIELDS;
    assert forall k :: 0 <= k < 7 ==> Given(fields, all[k], WorkspaceArgs(w, floats)[k], WorkspaceDefaults(w)[k]);
    NumberIsGiven(fields, all[0], w.schema, 65535, false);
    NumberIsGiven(fields, all[2], w.queryLimit, 18446744073709551615, w.queryLimit == 500);
    ViewsReadBack(w.views);
    ViewsParseExactly(Args(fields, all[3]), w.views);
    ActionsReadBack(w.actions, floats);
    ActionsParseExactly(Args(fields, all[4]), w.actions, floats);
    TemplatesReadBack(w.templates);
    TemplatesParseExactly(Args(fields, all[5]), w.templates);
    GrantsReadBack(w.grants);
    GrantsParseExactly(Args(fields, all[6]), map[], w.grants);
  }

  /** A workspace may leave out the default view `all`, the query limit 500 and whatever it has none of. */
  lemma WorkspaceWithoutDefaults(w: Workspace, root: string, floats: FloatText, names: seq<string>,
      args: seq<seq<Form>>)
    requires Faithful(floats) && FiniteWorkspace(w) && Validate(w).Ok?
    requires Selected(names, args, WORKSPACE_FIELDS, WorkspaceArgs(w, floats), WorkspaceDefaults(w))
    ensures DecodeWorkspace(CallForm(root, FieldForms(names, args)), root, floats) == Ok(w)
  {
    hide Selected, FieldsFrom, WorkspaceFrom, WorkspaceArgs, WorkspaceDefaults, WorkspaceHas, EachGiven, Faithful,
      FiniteWorkspace, Validate;
    WorkspaceNamesDistinct();
    var fields := SelectedFields(names, args, WORKSPACE_FIELDS, WorkspaceArgs(w, floats), WorkspaceDefaults(w),
      WORKSPACE_FIELDS);
    WorkspaceGiven(w, fields, floats);
    WorkspaceFieldsExactly(fields, w, floats);
    CallFormParts(root, FieldForms(names, args));
  }

  // ----- The root --------------------------------------------------------------------------------------------

  /** A workspace and a module of one are told apart by the name their text starts with. */
  lemma RootOfText(w: Workspace, floats: FloatText)
    ensures "(workspace-config\n" <= ConfigPrinter.ConfigText(w, false, floats)
    ensures "(workspace-module\n" <= ConfigPrinter.ConfigText(w, true, floats)
  {
    hide ConfigPrinter.ConfigHeader, SortedKeys, Less, Call, ConfigPrinter.ViewTexts, ConfigPrinter.ActionTexts,
      ConfigPrinter.TemplateTexts, ConfigPrinter.GrantTexts;
    HeaderLength(w);
    RootThenLine("workspace-config", "(workspace-config\n", ConfigPrinter.ConfigHeader(w));
    RootThenLine("workspace-module", "(workspace-module\n", ConfigPrinter.ConfigHeader(w));
  }

  lemma RootThenLine(root: string, start: string, header: seq<string>)
    requires "(" + root + "\n" == start && header != []
    ensures forall others: seq<string> :: start <= Call(root, AT2, header + others)
  {
    forall others: seq<string> ensures start <= Call(root, AT2, header + others) {
      var texts := header + others;
      assert Spread(AT2, texts) == AT2 + texts[0] + Spread(AT2, texts[1..]);
      assert AT2[0] == '\n';
    }
  }

  // ----- An instance -----------------------------------------------------------------------------------------

  const MINIMAL := "(workspace-config " + "(schema 1) " + "(views " + "(view " + "(id \"inbox\")" + ")))"

  function MinimalForm(): Form {
    CallForm("workspace-config",
             [CallForm("schema", [Symbol("1")]),
              CallForm("views", [CallForm("view", [CallForm("id", [Text("inbox")])])])])
  }

  function MinimalWorkspace(): Workspace {
    Workspace(1, "all", [View("inbox", "", None, false, "title", None, None, false, None, Always, [])], [], [], map[],
              500)
  }

  lemma MinimalReads()
    ensures ReadForm(MINIMAL) == Ok(Parsed(MinimalForm(), ""))
  {
    hide Denotes, ReadForm;
    var id := Call("id", " ", [Quote("inbox")]);
    var view := Call("view", " ", [id]);
    var views := Call("views", " ", [view]);
    var schema := Call("schema", " ", ["1"]);
    assert IsWord("id") && IsWord("view") && IsWord("views") && IsWord("schema") && IsWord("1");
    assert IsWord("workspace-config");
    QuoteDenotes("inbox");
    UnaryDenotes("id", Quote("inbox"), Text("inbox"));
    UnaryDenotes("view", id, CallForm("id", [Text("inbox")]));
    UnaryDenotes("views", view, CallForm("view", [CallForm("id", [Text("inbox")])]));
    WordDenotes("1");
    UnaryDenotes("schema", "1", Symbol("1"));
    BinaryDenotes("workspace-config", schema, CallForm("schema", [Symbol("1")]), views,
                  CallForm("views", [CallForm("view", [CallForm("id", [Text("inbox")])])]));
    MinimalText();
    DenotedAlone(MINIMAL, MinimalForm());
  }

  lemma DenotedAlone(text: string, form: Form)
    requires Denotes(text, form)
    ensures ReadForm(text) == Ok(Parsed(form, ""))
  {
    hide ReadForm;
    assert ReadsAs(text, form, "");
    assert text + "" == text;
  }

  lemma CallOne(name: string, a: string)
    ensures Call(name, " ", [a]) == "(" + name + " " + a + ")"
  {
    assert Spread(" ", [a]) == " " + a + Spread(" ", []);
  }

  lemma CallTwo(name: string, a: string, b: string)
    ensures Call(name, " ", [a, b]) == "(" + name + " " + a + " " + b + ")"
  {
    assert Spread(" ", [a, b]) == " " + a + Spread(" ", [b]);
    assert Spread(" ", [b]) == " " + b + Spread(" ", []);
  }

  lemma MinimalPieces()
    ensures "(" + "id" + " " + "\"inbox\"" + ")" == "(id \"inbox\")"
    ensures "(" + "view" + " " == "(view " && "(" + "views" + " " == "(views "
    ensures "(" + "schema" + " " + "1" + ")" + " " == "(schema 1) "
    ensures "(" + "workspace-config" + " " == "(workspace-config " && ")" + ")" + ")" == ")))"
  {
  }

  lemma MinimalJoined(id: string, schema: string)
    requires id == "(id \"inbox\")" && schema + " " == "(schema 1) "
    ensures "(workspace-config " + schema + " " + ("(views " + ("(view " + id + ")") + ")") + ")" == MINIMAL
  {
    var w, vs, v := "(workspace-config ", "(views ", "(view ";
    assert ")" + ")" + ")" == ")))";
    Joined(w, schema, " ", vs, v, id, ")", ")))");
  }

  lemma Joined(w: string, s: string, gap: string, vs: string, v: string, id: string, end: string, ends: string)
    requires end + end + end == ends
    ensures w + s + gap + (vs + (v + id + end) + end) + end == w + (s + gap) + vs + v + id + ends
  {
  }

  lemma MinimalText()
    ensures Call("workspace-config", " ",
                 [Call("schema", " ", ["1"]),
                  Call("views", " ", [Call("view", " ", [Call("id", " ", [Quote("inbox")])])])])
         == MINIMAL
  {
    hide Call, Quote;
    var id := Call("id", " ", [Quote("inbox")]);
    var view := Call("view", " ", [id]);
    var views := Call("views", " ", [view]);
    var schema := Call("schema", " ", ["1"]);
    MinimalPieces();
    InboxQuoted();
    CallOne("id", Quote("inbox"));
    CallOne("view", id);
    CallOne("views", view);
    CallOne("schema", "1");
    CallTwo("workspace-config", schema, views);
    MinimalJoined(id, schema);
  }

  lemma InboxQuoted()
    ensures Quote("inbox") == "\"inbox\""
  {
  }

  lemma OneField(form: Form, name: string, args: seq<Form>, allowed: seq<string>)
    requires name in allowed && form == CallForm(name, args)
    ensures Collects([form], allowed, map[name := args])
  {
    CallFormParts(name, args);
    assert Names([form][0], name);
  }

  lemma MinimalViewSays()
    ensures ViewSays(CallForm("view", [CallForm("id", [Text("inbox")])]), MinimalWorkspace().views[0])
  {
    hide Collects;
    var form := CallForm("view", [CallForm("id", [Text("inbox")])]);
    var fields: Fields := map["id" := [Text("inbox")]];
    assert VIEW_FIELDS[0] == "id";
    OneField(CallForm("id", [Text("inbox")]), "id", [Text("inbox")], VIEW_FIELDS);
    CallFormParts("view", [CallForm("id", [Text("inbox")])]);
    assert ViewHas(fields, MinimalWorkspace().views[0]);
  }

  lemma TwoFields(first: Form, name: string, args: seq<Form>, second: Form, name': string, args': seq<Form>,
      allowed: seq<string>)
    requires name in allowed && name' in allowed && name != name'
    requires first == CallForm(name, args) && second == CallForm(name', args')
    ensures Collects([first, second], allowed, map[name := args, name' := args'])
  {
    CallFormParts(name, args);
    CallFormParts(name', args');
    assert Names([first, second][0], name) && Names([first, second][1], name');
  }

  lemma MinimalSays(floats: FloatText)
    ensures WorkspaceSays(MinimalForm(), "workspace-config", MinimalWorkspace(), floats)
  {
    hide Collects, ViewSays;
    var view := CallForm("view", [CallForm("id", [Text("inbox")])]);
    var fields: Fields := map["schema" := [Symbol("1")], "views" := [view]];
    assert WORKSPACE_FIELDS[0] == "schema" && WORKSPACE_FIELDS[3] == "views";
    TwoFields(CallForm("schema", [Symbol("1")]), "schema", [Symbol("1")], CallForm("views", [view]), "views", [view],
              WORKSPACE_FIELDS);
    CallFormParts("workspace-config", [CallForm("schema", [Symbol("1")]), CallForm("views", [view])]);
    MinimalViewSays();
    assert ReadNat("1", 65535) == Some(1);
    assert WorkspaceHas(fields, MinimalWorkspace(), floats);
  }

  lemma {:induction false} AtMostFourBytes(s: string)
    ensures Utf8Length(s) <= 4 * |s|
  {
    if s != [] { AtMostFourBytes(s[1..]); }
  }

  lemma MinimalIsSmall()
    ensures Utf8Length(MINIMAL) <= MAX_CONFIG_BYTES
  {
    AtMostFourBytes(MINIMAL);
  }

  lemma MinimalIsValid()
    ensures Validate(MinimalWorkspace()).Ok?
  {
    ValidateExactly(MinimalWorkspace());
  }

  /** The text with nothing but what is required and one identifier. */
  lemma MinimalParses(floats: FloatText)
    ensures ParseConfig(MINIMAL, "workspace-config", floats) == Ok(MinimalWorkspace())
  {
    hide ReadForm, DecodeWorkspace, WorkspaceSays, Validate, Utf8Length, SkipIgnored;
    MinimalReads();
    MinimalSays(floats);
    MinimalIsSmall();
    MinimalIsValid();
    assert SkipIgnored("") == [];
    ConfigParsesExactly(MINIMAL, "workspace-config", MinimalWorkspace(), floats);
  }
}
