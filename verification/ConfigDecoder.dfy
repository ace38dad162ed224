/** From forms to behaviour: the decoder behind the workspace configuration parser. */
module ConfigDecoder {
  import opened Integers
  import opened Results
  import opened FrontmatterValues
  import opened Decimals
  import opened Forms
  import opened Behavior

  datatype ConfigError =
    | TooLarge
    | Malformed(form: FormError)
    | TrailingForm
    | ExpectedList
    | EmptyList
    | ExpectedName
    | ExpectedText
    | ExpectedBool
    | ExpectedNumber
    | ExpectedCall(expected: string, found: string)
    | UnknownField(field: string)
    | DuplicateField(field: string)
    | MissingField(field: string)
    | NotSingle(field: string)
    | InvalidForm(name: string)
    | NotFinite
    | MalformedEntry
    | DuplicateKey(key: string)
    | UnknownCapability(name: string)
    | DuplicateGrant(action: string)
    | InvalidBehavior(error: BehaviorError)

  /** How floating point numbers are printed and read back. */
  datatype FloatText = FloatText(show: F64 -> string, read: string -> Option<F64>)

  // ----- Single forms ------------------------------------------------------------------------------------

  function Name(form: Form): Result<string, ConfigError> {
    if form.Symbol? then Ok(form.name) else Err(ExpectedName)
  }

  function TextOf(form: Form): Result<string, ConfigError> {
    if form.Text? then Ok(form.text) else Err(ExpectedText)
  }

  /** The name a list form starts with. */
  function Head(form: Form): (r: Result<string, ConfigError>)
    ensures r.Ok? ==> form.List? && form.items != [] && form.items[0] == Symbol(r.value)
  {
    if !form.List? then Err(ExpectedList)
    else if form.items == [] then Err(EmptyList)
    else Name(form.items[0])
  }

  function ArgsOf(form: Form, expected: string): (r: Result<seq<Form>, ConfigError>)
  {
    var name :- Head(form);
    if name == expected then Ok(form.items[1..]) else Err(ExpectedCall(expected, name))
  }

  function BoolOf(form: Form): Result<bool, ConfigError> {
    var name :- Name(form);
    if name == "#t" then Ok(true) else if name == "#f" then Ok(false) else Err(ExpectedBool)
  }

  function NatOf(form: Form, max: nat): (r: Result<nat, ConfigError>)
    ensures r.Ok? ==> r.value <= max
  {
    var name :- Name(form);
    match ReadNat(name, max)
    case Some(n) => Ok(n)
    case None => Err(ExpectedNumber)
  }

  function IntegerOf(form: Form): Result<I64, ConfigError> {
    var name :- Name(form);
    match ReadInt(name, -0x8000_0000_0000_0000, 0x7FFF_FFFF_FFFF_FFFF)
    case Some(n) => Ok(n)
    case None => Err(ExpectedNumber)
  }

  function FloatOf(form: Form, floats: FloatText): (r: Result<F64, ConfigError>)
    ensures r.Ok? ==> IsFinite(r.value)
  {
    var name :- Name(form);
    match floats.read(name)
    case Some(f) => if IsFinite(f) then Ok(f) else Err(NotFinite)
    case None => Err(NotFinite)
  }

  function CapabilityOf(form: Form): Result<Capability, ConfigError> {
    var name :- Name(form);
    if name == "create-note" then Ok(CreateNote)
    else if name == "mutate-note" then Ok(MutateNote)
    else if name == "network" then Ok(Network)
    else if name == "read-secret" then Ok(ReadSecret)
    else Err(UnknownCapability(name))
  }

  function CapabilitiesOf(forms: seq<Form>): Result<set<Capability>, ConfigError> {
    if forms == [] then Ok({})
    else
      var first :- CapabilityOf(forms[0]);
      var others :- CapabilitiesOf(forms[1..]);
      Ok({first} + others)
  }

  // ----- Fields --------------------------------------------------------------------------------------------

  type Fields = map<string, seq<Form>>

  function FieldsFrom(forms: seq<Form>, allowed: seq<string>, fields: Fields): Result<Fields, ConfigError> {
    if forms == [] then Ok(fields)
    else
      var name :- Head(forms[0]);
      if name !in allowed then Err(UnknownField(name))
      else if name in fields then Err(DuplicateField(name))
      else FieldsFrom(forms[1..], allowed, fields[name := forms[0].items[1..]])
  }

  /** `native_fields`: every form is an allowed field and no field comes twice. */
  method NativeFields(forms: seq<Form>, allowed: seq<string>) returns (r: Result<Fields, ConfigError>)
    ensures r == FieldsFrom(forms, allowed, map[])
  {
    var fields: Fields := map[];
    for i := 0 to |forms|
      invariant FieldsFrom(forms, allowed, map[]) == FieldsFrom(forms[i..], allowed, fields)
    {
      assert forms[i..][1..] == forms[i + 1..];
      var name := Head(forms[i]);
      if name.Err? {
        return Err(name.error);
      }
      if name.value !in allowed {
        return Err(UnknownField(name.value));
      }
      if name.value in fields {
        return Err(DuplicateField(name.value));
      }
      fields := fields[name.value := forms[i].items[1..]];
    }
    return Ok(fields);
  }

  predicate NamesField(form: Form, allowed: seq<string>) {
    Head(form).Ok? && Head(form).value in allowed
  }

  ghost predicate GoodFields(forms: seq<Form>, allowed: seq<string>, before: Fields) {
    && (forall i :: 0 <= i < |forms| ==> NamesField(forms[i], allowed) && Head(forms[i]).value !in before)
    && (forall i, j :: 0 <= i < j < |forms| ==> Head(forms[i]) != Head(forms[j]))
  }

  /** Fields are accepted exactly when each form names an allowed field and all of them are new
      and different. */
  lemma {:induction false} FieldsExactly(forms: seq<Form>, allowed: seq<string>, before: Fields)
    ensures FieldsFrom(forms, allowed, before).Ok? <==> GoodFields(forms, allowed, before)
    decreases |forms|
  {
    if forms != [] && NamesField(forms[0], allowed) && Head(forms[0]).value !in before {
      hide GoodFields;
      FieldsExactly(forms[1..], allowed, before[Head(forms[0]).value := forms[0].items[1..]]);
    }
  }

  /** Accepted fields keep what was there before and have the arguments of their own form each. */
  lemma {:induction false} FieldsHold(forms: seq<Form>, allowed: seq<string>, before: Fields, i: nat)
    requires FieldsFrom(forms, allowed, before).Ok?
    ensures var fields := FieldsFrom(forms, allowed, before).value;
            && (forall n :: n in before ==> n in fields && fields[n] == before[n])
            && (i < |forms| ==> Head(forms[i]).Ok? && Head(forms[i]).value in fields
                                && fields[Head(forms[i]).value] == forms[i].items[1..])
            && fields.Keys == before.Keys + set form | form in forms && Head(form).Ok? :: Head(form).value
    decreases |forms|
  {
    if forms != [] {
      hide Head;
      var rest, next := forms[1..], before[Head(forms[0]).value := forms[0].items[1..]];
      assert forms == [forms[0]] + rest;
      FieldsHold(rest, allowed, next, if i > 0 then i - 1 else 0);
    }
  }

  function Single(fields: Fields, name: string): Result<Option<Form>, ConfigError> {
    if name !in fields then Ok(None)
    else if |fields[name]| == 1 then Ok(Some(fields[name][0]))
    else Err(NotSingle(name))
  }

  function OptionalText(fields: Fields, name: string): Result<Option<string>, ConfigError> {
    var form :- Single(fields, name);
    match form
    case None => Ok(None)
    case Some(f) => var text :- TextOf(f); Ok(Some(text))
  }

  function RequiredText(fields: Fields, name: string): Result<string, ConfigError> {
    var text :- OptionalText(fields, name);
    match text
    case None => Err(MissingField(name))
    case Some(t) => Ok(t)
  }

  function TextOr(fields: Fields, name: string, default: string): Result<string, ConfigError> {
    var text :- OptionalText(fields, name);
    Ok(if text.Some? then text.value else default)
  }

  function NullableText(fields: Fields, name: string): Result<Option<string>, ConfigError> {
    var form :- Single(fields, name);
    match form
    case None => Ok(None)
    case Some(f) =>
      if f == Symbol("#f") then Ok(None)
      else var text :- TextOf(f); Ok(Some(text))
  }

  function BoolOr(fields: Fields, name: string, default: bool): Result<bool, ConfigError> {
    var form :- Single(fields, name);
    match form
    case None => Ok(default)
    case Some(f) => BoolOf(f)
  }

  function OptionalNat(fields: Fields, name: string, max: nat): (r: Result<Option<nat>, ConfigError>)
    ensures r.Ok? && r.value.Some? ==> r.value.value <= max
  {
    var form :- Single(fields, name);
    match form
    case None => Ok(None)
    case Some(f) => var n :- NatOf(f, max); Ok(Some(n))
  }

  function FormsOf(fields: Fields, name: string): seq<Form> {
    if name in fields then fields[name] else []
  }

  // ----- Predicates ----------------------------------------------------------------------------------------

  function ParsePredicate(form: Form): Result<Predicate, ConfigError> {
    var name :- Head(form);
    var args := form.items[1..];
    if name == "always" && |args| == 0 then Ok(Always)
    else if name == "field-equals" && |args| == 2 then
      var field :- TextOf(args[0]);
      var value :- TextOf(args[1]);
      Ok(FieldEquals(field, value))
    else if name == "has-tag" && |args| == 1 then
      var tag :- TextOf(args[0]);
      Ok(HasTag(tag))
    else if name == "not" && |args| == 1 then
      var inner :- ParsePredicate(form.items[1]);
      Ok(Not(inner))
    else if name == "all" then
      var inner :- ParsePredicates(args);
      Ok(AllOf(inner))
    else if name == "any" then
      var inner :- ParsePredicates(args);
      Ok(AnyOf(inner))
    else Err(InvalidForm(name))
  }

  function ParsePredicates(forms: seq<Form>): Result<seq<Predicate>, ConfigError> {
    if forms == [] then Ok([])
    else
      var first :- ParsePredicate(forms[0]);
      var others :- ParsePredicates(forms[1..]);
      Ok([first] + others)
  }

  function PredicateOr(fields: Fields, default: Predicate): Result<Predicate, ConfigError> {
    var form :- Single(fields, "predicate");
    match form
    case None => Ok(default)
    case Some(f) => ParsePredicate(f)
  }

  // ----- Frontmatter values and effects --------------------------------------------------------------------

  function ParseValue(form: Form, floats: FloatText): Result<FrontmatterValue, ConfigError>
    decreases form
  {
    var name :- Head(form);
    var args := form.items[1..];
    if name == "null" && |args| == 0 then Ok(Null)
    else if name == "bool" && |args| == 1 then
      var flag :- BoolOf(args[0]);
      Ok(Bool(flag))
    else if name == "integer" && |args| == 1 then
      var n :- IntegerOf(args[0]);
      Ok(Integer(n))
    else if name == "float" && |args| == 1 then
      var f :- FloatOf(args[0], floats);
      Ok(Float(f))
    else if name == "string" && |args| == 1 then
      var text :- TextOf(args[0]);
      Ok(Str(text))
    else if name == "sequence" then
      var values :- ParseValues(args, floats);
      Ok(Sequence(values))
    else if name == "mapping" then
      var entries :- ParseEntries(args, map[], floats);
      Ok(Mapping(entries))
    else Err(InvalidForm(name))
  }

  function ParseValues(forms: seq<Form>, floats: FloatText): Result<seq<FrontmatterValue>, ConfigError>
    decreases forms
  {
    if forms == [] then Ok([])
    else
      var first :- ParseValue(forms[0], floats);
      var others :- ParseValues(forms[1..], floats);
      Ok([first] + others)
  }

  /** The entries of a mapping, added to those before them. */
  function ParseEntries(forms: seq<Form>, before: map<string, FrontmatterValue>, floats: FloatText)
    : Result<map<string, FrontmatterValue>, ConfigError>
    decreases forms
  {
    if forms == [] then Ok(before)
    else
      var form := forms[0];
      var name :- Head(form);
      if |form.items| != 3 then Err(MalformedEntry)
      else if name != "entry" then Err(MalformedEntry)
      else
        var key :- TextOf(form.items[1]);
        var value :- ParseValue(form.items[2], floats);
        if key in before then Err(DuplicateKey(key))
        else ParseEntries(forms[1..], before[key := value], floats)
  }

  predicate IsNow(form: Form) {
    form.List? && form.items == [Symbol("now")]
  }

  function ParseEffect(form: Form, floats: FloatText): Result<ActionEffect, ConfigError> {
    var name :- Head(form);
    var args := form.items[1..];
    if name == "add-tag" && |args| == 1 then
      var tag :- TextOf(args[0]);
      Ok(AddTag(tag))
    else if name == "remove-tag" && |args| == 1 then
      var tag :- TextOf(args[0]);
      Ok(RemoveTag(tag))
    else if name == "set-field" && |args| == 2 then
      var field :- TextOf(args[0]);
      if IsNow(args[1]) then Ok(SetFieldNow(field))
      else
        var value :- ParseValue(args[1], floats);
        Ok(SetField(field, value))
    else if name == "append-body" && |args| == 1 then
      var text :- TextOf(args[0]);
      Ok(AppendBody(text))
    else Err(InvalidForm(name))
  }

  function ParseEffects(forms: seq<Form>, floats: FloatText): Result<seq<ActionEffect>, ConfigError> {
    if forms == [] then Ok([])
    else
      var first :- ParseEffect(forms[0], floats);
      var others :- ParseEffects(forms[1..], floats);
      Ok([first] + others)
  }

  // ----- Descriptors ---------------------------------------------------------------------------------------

  const SUBVIEW_FIELDS := ["id", "name", "sort-field", "predicate"]
  const VIEW_FIELDS :=
    ["id", "name", "key", "show-tags", "title-field", "subtitle-field", "sort-field", "descending", "preview",
     "predicate", "subviews"]
  const ACTION_FIELDS := ["id", "description", "predicate", "effects", "plugin"]
  const TEMPLATE_FIELDS := ["id", "path", "content"]
  const GRANT_FIELDS := ["action", "capabilities"]
  const WORKSPACE_FIELDS :=
    ["schema", "default-view", "query-limit", "views", "actions", "templates", "capability-grants"]

  function ParseSubview(form: Form): Result<Subview, ConfigError> {
    var args :- ArgsOf(form, "subview");
    var fields :- FieldsFrom(args, SUBVIEW_FIELDS, map[]);
    SubviewFrom(fields)
  }

  function SubviewFrom(fields: Fields): Result<Subview, ConfigError> {
    var id :- RequiredText(fields, "id");
    var name :- TextOr(fields, "name", "");
    var sortField :- NullableText(fields, "sort-field");
    var condition :- PredicateOr(fields, Always);
    Ok(Subview(id, name, sortField, condition))
  }

  function ParseSubviews(forms: seq<Form>): Result<seq<Subview>, ConfigError> {
    if forms == [] then Ok([])
    else
      var first :- ParseSubview(forms[0]);
      var others :- ParseSubviews(forms[1..]);
      Ok([first] + others)
  }

  function ParseView(form: Form): Result<View, ConfigError> {
    var args :- ArgsOf(form, "view");
    var fields :- FieldsFrom(args, VIEW_FIELDS, map[]);
    ViewFrom(fields)
  }

  function ViewFrom(fields: Fields): Result<View, ConfigError> {
    var id :- RequiredText(fields, "id");
    var name :- TextOr(fields, "name", "");
    var key :- NullableText(fields, "key");
    var showTags :- BoolOr(fields, "show-tags", false);
    var titleField :- TextOr(fields, "title-field", "title");
    var subtitleField :- NullableText(fields, "subtitle-field");
    var sortField :- NullableText(fields, "sort-field");
    var descending :- BoolOr(fields, "descending", false);
    var preview :- NullableText(fields, "preview");
    var condition :- PredicateOr(fields, Always);
    var subviews :- ParseSubviews(FormsOf(fields, "subviews"));
    Ok(View(id, name, key, showTags, titleField, subtitleField, sortField, descending, preview, condition, subviews))
  }

  function ParseViews(forms: seq<Form>): Result<seq<View>, ConfigError> {
    if forms == [] then Ok([])
    else
      var first :- ParseView(forms[0]);
      var others :- ParseViews(forms[1..]);
      Ok([first] + others)
  }

  function ParsePlugin(form: Form): Result<ActionPlugin, ConfigError> {
    var name :- Head(form);
    var args := form.items[1..];
    if name == "capture-url" && |args| == 0 then Ok(CaptureUrl)
    else if name == "tag-picker" && |args| == 0 then Ok(TagPicker)
    else if name == "steel" && |args| == 4 && args[0].Text? && args[1].Text? && args[2].Text? && args[3].List? then
      var capabilities :- CapabilitiesOf(args[3].items);
      Ok(Steel(args[0].text, args[1].text, args[2].text, capabilities))
    else Err(InvalidForm(name))
  }

  function PluginFrom(fields: Fields): Result<Option<ActionPlugin>, ConfigError> {
    var form :- Single(fields, "plugin");
    match form
    case None => Ok(None)
    case Some(f) => var plugin :- ParsePlugin(f); Ok(Some(plugin))
  }

  function ParseAction(form: Form, floats: FloatText): Result<Action, ConfigError> {
    var args :- ArgsOf(form, "action");
    var fields :- FieldsFrom(args, ACTION_FIELDS, map[]);
    ActionFrom(fields, floats)
  }

  function ActionFrom(fields: Fields, floats: FloatText): Result<Action, ConfigError> {
    var id :- RequiredText(fields, "id");
    var description :- TextOr(fields, "description", "");
    var condition :- PredicateOr(fields, Always);
    var effects :- ParseEffects(FormsOf(fields, "effects"), floats);
    var plugin :- PluginFrom(fields);
    Ok(Action(id, description, condition, effects, plugin))
  }

  function ParseActions(forms: seq<Form>, floats: FloatText): Result<seq<Action>, ConfigError> {
    if forms == [] then Ok([])
    else
      var first :- ParseAction(forms[0], floats);
      var others :- ParseActions(forms[1..], floats);
      Ok([first] + others)
  }

  function ParseTemplate(form: Form): Result<Template, ConfigError> {
    var args :- ArgsOf(form, "template");
    var fields :- FieldsFrom(args, TEMPLATE_FIELDS, map[]);
    var id :- RequiredText(fields, "id");
    var path :- RequiredText(fields, "path");
    var content :- RequiredText(fields, "content");
    Ok(Template(id, path, content))
  }

  function ParseTemplates(forms: seq<Form>): Result<seq<Template>, ConfigError> {
    if forms == [] then Ok([])
    else
      var first :- ParseTemplate(forms[0]);
      var others :- ParseTemplates(forms[1..]);
      Ok([first] + others)
  }

  datatype Grant = Grant(action: string, capabilities: set<Capability>)

  type Grants = map<string, set<Capability>>

  function ParseGrant(form: Form): Result<Grant, ConfigError> {
    var args :- ArgsOf(form, "grant");
    var fields :- FieldsFrom(args, GRANT_FIELDS, map[]);
    var action :- RequiredText(fields, "action");
    if "capabilities" !in fields then Err(MissingField("capabilities"))
    else
      var capabilities :- CapabilitiesOf(fields["capabilities"]);
      Ok(Grant(action, capabilities))
  }

  function ParseGrantsFrom(forms: seq<Form>, grants: Grants): Result<Grants, ConfigError> {
    if forms == [] then Ok(grants)
    else
      var grant :- ParseGrant(forms[0]);
      if grant.action in grants then Err(DuplicateGrant(grant.action))
      else ParseGrantsFrom(forms[1..], grants[grant.action := grant.capabilities])
  }

  /** The loop over the capability grants. */
  method ParseGrants(forms: seq<Form>) returns (r: Result<Grants, ConfigError>)
    ensures r == ParseGrantsFrom(forms, map[])
  {
    var grants: Grants := map[];
    for i := 0 to |forms|
      invariant ParseGrantsFrom(forms, map[]) == ParseGrantsFrom(forms[i..], grants)
    {
      assert forms[i..][1..] == forms[i + 1..];
      var grant := ParseGrant(forms[i]);
      if grant.Err? {
        return Err(grant.error);
      }
      if grant.value.action in grants {
        return Err(DuplicateGrant(grant.value.action));
      }
      grants := grants[grant.value.action := grant.value.capabilities];
    }
    return Ok(grants);
  }

  // ----- The workspace -------------------------------------------------------------------------------------

  function WorkspaceFrom(fields: Fields, floats: FloatText): Result<Workspace, ConfigError> {
    var schema :- OptionalNat(fields, "schema", 0xFFFF);
    if schema == None then Err(MissingField("schema"))
    else
      var defaultView :- TextOr(fields, "default-view", "all");
      var queryLimit :- OptionalNat(fields, "query-limit", 0xFFFF_FFFF_FFFF_FFFF);
      var views :- ParseViews(FormsOf(fields, "views"));
      var actions :- ParseActions(FormsOf(fields, "actions"), floats);
      var templates :- ParseTemplates(FormsOf(fields, "templates"));
      var grants :- ParseGrantsFrom(FormsOf(fields, "capability-grants"), map[]);
      Ok(Workspace(schema.value, defaultView, views, actions, templates, grants,
                   if queryLimit.Some? then queryLimit.value else DEFAULT_QUERY_LIMIT))
  }

  function DecodeWorkspace(form: Form, expected: string, floats: FloatText): Result<Workspace, ConfigError> {
    var root :- ArgsOf(form, expected);
    var fields :- FieldsFrom(root, WORKSPACE_FIELDS, map[]);
    var workspace :- WorkspaceFrom(fields, floats);
    match Validate(workspace)
    case Err(e) => Err(InvalidBehavior(e))
    case Ok(_) => Ok(workspace)
  }
}
