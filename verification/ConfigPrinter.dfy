/** The printer of workspace configurations. */
module ConfigPrinter {
  import opened Results
  import opened Strings
  import opened FrontmatterValues
  import opened Decimals
  import opened Behavior
  import opened JsonStrings
  import opened Layout
  import opened ConfigDecoder

  function Field(name: string, value: string): string {
    Call(name, " ", [value])
  }

  function BoolText(value: bool): string {
    if value then "#t" else "#f"
  }

  function CapabilityText(c: Capability): string {
    match c
    case CreateNote => "create-note"
    case MutateNote => "mutate-note"
    case Network => "network"
    case ReadSecret => "read-secret"
  }

  /** Capabilities in the order in which a `BTreeSet` holds them. */
  function Listed(capabilities: set<Capability>): (s: seq<Capability>)
  {
    (if CreateNote in capabilities then [CreateNote] else [])
    + (if MutateNote in capabilities then [MutateNote] else [])
    + (if Network in capabilities then [Network] else [])
    + (if ReadSecret in capabilities then [ReadSecret] else [])
  }

  lemma ListedAll(capabilities: set<Capability>, c: Capability)
    ensures c in Listed(capabilities) <==> c in capabilities
  {
    match c {
      case CreateNote =>
      case MutateNote =>
      case Network =>
      case ReadSecret =>
    }
  }

  function CapabilityTexts(cs: seq<Capability>): seq<string> {
    seq(|cs|, i requires 0 <= i < |cs| => CapabilityText(cs[i]))
  }

  // ----- Predicates, values, effects ----------------------------------------------------------------------

  function PredicateText(p: Predicate): string {
    match p
    case Always => Call("always", " ", [])
    case FieldEquals(field, value) => Call("field-equals", " ", [Quote(field), Quote(value)])
    case HasTag(tag) => Call("has-tag", " ", [Quote(tag)])
    case Not(inner) => Call("not", " ", [PredicateText(inner)])
    case AllOf(inner) => Call("all", " ", PredicateTexts(inner))
    case AnyOf(inner) => Call("any", " ", PredicateTexts(inner))
  }

  function PredicateTexts(ps: seq<Predicate>): (texts: seq<string>)
    ensures |texts| == |ps|
  {
    if ps == [] then [] else [PredicateText(ps[0])] + PredicateTexts(ps[1..])
  }

  function ValueText(v: FrontmatterValue, floats: FloatText): string
    decreases v
  {
    match v
    case Null => Call("null", " ", [])
    case Bool(flag) => Call("bool", " ", [BoolText(flag)])
    case Integer(n) => Call("integer", " ", [PrintInt(n)])
    case Float(f) => Call("float", " ", [floats.show(f)])
    case Str(text) => Call("string", " ", [Quote(text)])
    case Sequence(values) => Call("sequence", " ", ValueTexts(values, floats))
    case Mapping(entries) => Call("mapping", " ", EntryTexts(SortedKeys(entries.Keys), v, floats))
  }

  function ValueTexts(vs: seq<FrontmatterValue>, floats: FloatText): (texts: seq<string>)
    ensures |texts| == |vs|
    decreases vs
  {
    if vs == [] then [] else [ValueText(vs[0], floats)] + ValueTexts(vs[1..], floats)
  }

  /** The entries of a mapping under the given keys. */
  function EntryTexts(keys: seq<string>, v: FrontmatterValue, floats: FloatText): (texts: seq<string>)
    requires v.Mapping? && forall k :: k in keys ==> k in v.entries
    ensures |texts| == |keys|
    decreases v, |keys|
  {
    if keys == [] then []
    else [EntryText(keys[0], v, floats)] + EntryTexts(keys[1..], v, floats)
  }

  function EntryText(key: string, v: FrontmatterValue, floats: FloatText): string
    requires v.Mapping? && key in v.entries
    decreases v, 0
  {
    Call("entry", " ", [Quote(key), ValueText(v.entries[key], floats)])
  }

  function EffectText(e: ActionEffect, floats: FloatText): string {
    match e
    case AddTag(tag) => Call("add-tag", " ", [Quote(tag)])
    case RemoveTag(tag) => Call("remove-tag", " ", [Quote(tag)])
    case SetField(field, value) => Call("set-field", " ", [Quote(field), ValueText(value, floats)])
    case SetFieldNow(field) => Call("set-field", " ", [Quote(field), Call("now", " ", [])])
    case AppendBody(text) => Call("append-body", " ", [Quote(text)])
  }

  function EffectTexts(es: seq<ActionEffect>, floats: FloatText): seq<string> {
    seq(|es|, i requires 0 <= i < |es| => EffectText(es[i], floats))
  }

  function PluginText(p: ActionPlugin): string {
    match p
    case CaptureUrl => Call("capture-url", " ", [])
    case TagPicker => Call("tag-picker", " ", [])
    case Steel(path, entrypoint, prompt, capabilities) =>
      Call("steel", " ", [Quote(path), Quote(entrypoint), Quote(prompt), Group(CapabilityTexts(Listed(capabilities)))])
  }

  // ----- Descriptors ---------------------------------------------------------------------------------------

  function SubviewText(s: Subview): string {
    Call("subview", AT10,
         [Field("id", Quote(s.id)), Field("name", Quote(s.name)), Field("sort-field", QuotedOrFalse(s.sortField)),
          Field("predicate", PredicateText(s.condition))])
  }

  function SubviewTexts(ss: seq<Subview>): seq<string> {
    seq(|ss|, i requires 0 <= i < |ss| => SubviewText(ss[i]))
  }

  function ViewHeader(v: View): seq<string> {
    [Field("id", Quote(v.id)),
     Field("name", Quote(v.name)),
     Field("key", QuotedOrFalse(v.key)),
     Field("show-tags", BoolText(v.showTags)),
     Field("title-field", Quote(v.titleField)),
     Field("subtitle-field", QuotedOrFalse(v.subtitleField)),
     Field("sort-field", QuotedOrFalse(v.sortField)),
     Field("descending", BoolText(v.descending)),
     Field("preview", QuotedOrFalse(v.preview)),
     Field("predicate", PredicateText(v.condition))]
  }

  function ViewText(v: View): string {
    Call("view", AT6, ViewHeader(v) + [Call("subviews", AT8, SubviewTexts(v.subviews))])
  }

  function ViewTexts(vs: seq<View>): seq<string> {
    seq(|vs|, i requires 0 <= i < |vs| => ViewText(vs[i]))
  }

  function ActionHeader(a: Action): seq<string> {
    [Field("id", Quote(a.id)), Field("description", Quote(a.description)),
     Field("predicate", PredicateText(a.condition))]
  }

  function PluginField(plugin: Option<ActionPlugin>): seq<string> {
    match plugin
    case None => []
    case Some(p) => [Field("plugin", PluginText(p))]
  }

  function ActionText(a: Action, floats: FloatText): string {
    Call("action", AT6,
         ActionHeader(a) + [Call("effects", AT8, EffectTexts(a.effects, floats))] + PluginField(a.plugin))
  }

  function ActionTexts(as': seq<Action>, floats: FloatText): seq<string> {
    seq(|as'|, i requires 0 <= i < |as'| => ActionText(as'[i], floats))
  }

  function TemplateText(t: Template): string {
    Call("template", AT6, [Field("id", Quote(t.id)), Field("path", Quote(t.path)), Field("content", Quote(t.content))])
  }

  function TemplateTexts(ts: seq<Template>): seq<string> {
    seq(|ts|, i requires 0 <= i < |ts| => TemplateText(ts[i]))
  }

  function GrantText(action: string, capabilities: set<Capability>): string {
    Call("grant", AT6,
         [Field("action", Quote(action)), Call("capabilities", " ", CapabilityTexts(Listed(capabilities)))])
  }

  function GrantTexts(keys: seq<string>, grants: Grants): seq<string>
    requires forall k :: k in keys ==> k in grants
  {
    seq(|keys|, i requires 0 <= i < |keys| => GrantText(keys[i], grants[keys[i]]))
  }

  // ----- The whole configuration ---------------------------------------------------------------------------

  function RootName(module': bool): string {
    if module' then "workspace-module" else "workspace-config"
  }

  function ConfigHeader(w: Workspace): seq<string> {
    [Field("schema", PrintNat(w.schema)), Field("default-view", Quote(w.defaultView)),
     Field("query-limit", PrintNat(w.queryLimit))]
  }

  function ConfigText(w: Workspace, module': bool, floats: FloatText): string {
    Call(RootName(module'), AT2,
         ConfigHeader(w)
         + [Call("views", AT4, ViewTexts(w.views)),
            Call("actions", AT4, ActionTexts(w.actions, floats)),
            Call("templates", AT4, TemplateTexts(w.templates)),
            Call("capability-grants", AT4, GrantTexts(SortedKeys(w.grants.Keys), w.grants))])
    + "\n"
  }

  // ----- The printing loops --------------------------------------------------------------------------------

  lemma {:induction false} SpreadAppend(separator: string, xs: seq<string>, ys: seq<string>)
    ensures Spread(separator, xs + ys) == Spread(separator, xs) + Spread(separator, ys)
  {
    if xs == [] {
      assert xs + ys == ys;
    } else {
      assert (xs + ys)[1..] == xs[1..] + ys;
      SpreadAppend(separator, xs[1..], ys);
    }
  }

  lemma SpreadPush(separator: string, xs: seq<string>, i: nat)
    requires i < |xs|
    ensures Spread(separator, xs[..i + 1]) == Spread(separator, xs[..i]) + (separator + xs[i])
  {
    assert xs[..i + 1] == xs[..i] + [xs[i]];
    SpreadAppend(separator, xs[..i], [xs[i]]);
    assert Spread(separator, [xs[i]]) == separator + xs[i] + Spread(separator, []);
  }

  lemma SpreadOne(separator: string, x: string)
    ensures Spread(separator, [x]) == separator + x
  {
  }

  /** A call whose arguments are a header, one list and perhaps more. */
  lemma CallLayout(name: string, separator: string, header: seq<string>, list: string, more: seq<string>)
    ensures Call(name, separator, header + [list] + more)
         == "(" + name + Spread(separator, header) + (separator + list) + Spread(separator, more) + ")"
  {
    hide Spread;
    SpreadAppend(separator, header + [list], more);
    SpreadAppend(separator, header, [list]);
    SpreadOne(separator, list);
    var rest := Spread(separator, more);
    assert Spread(separator, header + [list]) == Spread(separator, header) + (separator + list);
  }

  lemma SpreadNone(separator: string, xs: seq<string>)
    ensures Spread(separator, xs[..0]) == ""
  {
  }

  method EncodeSubviews(subviews: seq<Subview>) returns (output: string)
    ensures output == Call("subviews", AT8, SubviewTexts(subviews))
  {
    hide Spread, SubviewText;
    output := "(subviews";
    ghost var texts := SubviewTexts(subviews);
    SpreadNone(AT8, texts);
    for i := 0 to |subviews|
      invariant output == "(subviews" + Spread(AT8, texts[..i])
    {
      SpreadPush(AT8, texts, i);
      output := output + (AT8 + SubviewText(subviews[i]));
    }
    assert texts[..|texts|] == texts;
    output := output + ")";
  }

  method EncodeView(v: View) returns (output: string)
    ensures output == AT4 + ViewText(v)
  {
    hide Spread, ViewHeader;
    var subviews := EncodeSubviews(v.subviews);
    output := AT4 + ("(view" + Spread(AT6, ViewHeader(v)) + (AT6 + subviews) + ")");
    CallLayout("view", AT6, ViewHeader(v), subviews, []);
    assert ViewHeader(v) + [subviews] + [] == ViewHeader(v) + [subviews];
    SpreadNone(AT6, []);
  }

  method EncodeEffects(effects: seq<ActionEffect>, floats: FloatText) returns (output: string)
    ensures output == Call("effects", AT8, EffectTexts(effects, floats))
  {
    hide Spread, EffectText;
    output := "(effects";
    ghost var texts := EffectTexts(effects, floats);
    SpreadNone(AT8, texts);
    for i := 0 to |effects|
      invariant output == "(effects" + Spread(AT8, texts[..i])
    {
      SpreadPush(AT8, texts, i);
      output := output + (AT8 + EffectText(effects[i], floats));
    }
    assert texts[..|texts|] == texts;
    output := output + ")";
  }

  method EncodeAction(a: Action, floats: FloatText) returns (output: string)
    ensures output == AT4 + ActionText(a, floats)
  {
    hide Spread, ActionHeader, PluginText, Field, EffectTexts;
    var effects := EncodeEffects(a.effects, floats);
    var plugin := EncodePluginField(a.plugin);
    CallLayout("action", AT6, ActionHeader(a), effects, PluginField(a.plugin));
    hide Call;
    output := AT4 + ("(" + "action" + Spread(AT6, ActionHeader(a)) + (AT6 + effects) + plugin + ")");
  }

  method EncodePluginField(plugin: Option<ActionPlugin>) returns (output: string)
    ensures output == Spread(AT6, PluginField(plugin))
  {
    hide Spread, PluginText;
    output := "";
    SpreadNone(AT6, []);
    if plugin.Some? {
      SpreadOne(AT6, Field("plugin", PluginText(plugin.value)));
      output := AT6 + Field("plugin", PluginText(plugin.value));
    }
  }

  method EncodeCapabilities(capabilities: set<Capability>) returns (output: string)
    ensures output == Call("capabilities", " ", CapabilityTexts(Listed(capabilities)))
  {
    hide Spread, CapabilityText, Listed;
    output := "(capabilities";
    var listed := Listed(capabilities);
    ghost var texts := CapabilityTexts(listed);
    SpreadNone(" ", texts);
    for i := 0 to |listed|
      invariant output == "(capabilities" + Spread(" ", texts[..i])
    {
      SpreadPush(" ", texts, i);
      output := output + (" " + CapabilityText(listed[i]));
    }
    assert texts[..|texts|] == texts;
    output := output + ")";
  }

  method EncodeGrant(action: string, capabilities: set<Capability>) returns (output: string)
    ensures output == AT4 + GrantText(action, capabilities)
  {
    hide Spread, Field, Listed, Quote;
    var list := EncodeCapabilities(capabilities);
    var field := Field("action", Quote(action));
    output := AT4 + ("(grant" + (AT6 + field) + (AT6 + list) + ")");
    CallLayout("grant", AT6, [field], list, []);
    SpreadNone(AT6, []);
    SpreadOne(AT6, field);
    assert [field] + [list] + [] == [field, list];
  }

  method EncodeViews(views: seq<View>) returns (output: string)
    ensures output == Call("views", AT4, ViewTexts(views))
  {
    hide Spread, ViewText;
    output := "(views";
    ghost var texts := ViewTexts(views);
    SpreadNone(AT4, texts);
    for i := 0 to |views|
      invariant output == "(views" + Spread(AT4, texts[..i])
    {
      SpreadPush(AT4, texts, i);
      var text := EncodeView(views[i]);
      output := output + text;
    }
    assert texts[..|texts|] == texts;
    output := output + ")";
  }

  method EncodeActions(actions: seq<Action>, floats: FloatText) returns (output: string)
    ensures output == Call("actions", AT4, ActionTexts(actions, floats))
  {
    hide Spread, ActionText;
    output := "(actions";
    ghost var texts := ActionTexts(actions, floats);
    SpreadNone(AT4, texts);
    for i := 0 to |actions|
      invariant output == "(actions" + Spread(AT4, texts[..i])
    {
      SpreadPush(AT4, texts, i);
      var text := EncodeAction(actions[i], floats);
      output := output + text;
    }
    assert texts[..|texts|] == texts;
    output := output + ")";
  }

  method EncodeTemplates(templates: seq<Template>) returns (output: string)
    ensures output == Call("templates", AT4, TemplateTexts(templates))
  {
    hide Spread, TemplateText;
    output := "(templates";
    ghost var texts := TemplateTexts(templates);
    SpreadNone(AT4, texts);
    for i := 0 to |templates|
      invariant output == "(templates" + Spread(AT4, texts[..i])
    {
      SpreadPush(AT4, texts, i);
      output := output + (AT4 + TemplateText(templates[i]));
    }
    assert texts[..|texts|] == texts;
    output := output + ")";
  }

  method EncodeGrants(grants: Grants) returns (output: string)
    ensures output == Call("capability-grants", AT4, GrantTexts(SortedKeys(grants.Keys), grants))
  {
    hide Spread, GrantText, Less, SortedKeys;
    output := "(capability-grants";
    var keys := SortedKeys(grants.Keys);
    ghost var texts := GrantTexts(keys, grants);
    SpreadNone(AT4, texts);
    for i := 0 to |keys|
      invariant output == "(capability-grants" + Spread(AT4, texts[..i])
    {
      SpreadPush(AT4, texts, i);
      var text := EncodeGrant(keys[i], grants[keys[i]]);
      output := output + text;
    }
    assert texts[..|texts|] == texts;
    output := output + ")";
  }

  /** `encode_config`. */
  method EncodeConfig(w: Workspace, module': bool, floats: FloatText) returns (output: string)
    ensures output == ConfigText(w, module', floats)
  {
    hide Spread, ConfigHeader, ViewTexts, ActionTexts, TemplateTexts, GrantTexts, SortedKeys, Less, RootName;
    output := "(" + RootName(module') + Spread(AT2, ConfigHeader(w));
    var views := EncodeViews(w.views);
    var actions := EncodeActions(w.actions, floats);
    var templates := EncodeTemplates(w.templates);
    var grants := EncodeGrants(w.grants);
    output := output + (AT2 + views) + (AT2 + actions) + (AT2 + templates) + (AT2 + grants) + ")\n";
    FourMore(ConfigHeader(w), views, actions, templates, grants);
  }

  lemma FourMore(header: seq<string>, a: string, b: string, c: string, d: string)
    ensures Spread(AT2, header + [a, b, c, d])
         == Spread(AT2, header) + (AT2 + a) + (AT2 + b) + (AT2 + c) + (AT2 + d)
  {
    SpreadAppend(AT2, header, [a, b, c, d]);
    assert [a, b, c, d][1..] == [b, c, d] && [b, c, d][1..] == [c, d];
    SpreadOne(AT2, d);
    assert Spread(AT2, [c, d]) == AT2 + c + Spread(AT2, [d]);
  }
}
