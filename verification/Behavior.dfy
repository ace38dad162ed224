/** The declarative behaviour of a workspace and its validation. */
module Behavior {
  import opened Integers
  import opened Results
  import opened FrontmatterValues

  const BEHAVIOR_SCHEMA: U16 := 1
  const DEFAULT_QUERY_LIMIT: Usize := 500

  datatype Predicate =
    | Always
    | FieldEquals(field: string, value: string)
    | HasTag(tag: string)
    | Not(condition: Predicate)
    | AllOf(predicates: seq<Predicate>)
    | AnyOf(predicates: seq<Predicate>)

  datatype Capability = CreateNote | MutateNote | Network | ReadSecret

  datatype ActionPlugin =
    | CaptureUrl
    | TagPicker
    | Steel(path: string, entrypoint: string, prompt: string, capabilities: set<Capability>)

  datatype ActionEffect =
    | AddTag(tag: string)
    | RemoveTag(tag: string)
    | SetField(field: string, value: FrontmatterValue)
    | SetFieldNow(field: string)
    | AppendBody(text: string)

  datatype Subview = Subview(id: string, name: string, sortField: Option<string>, condition: Predicate)

  datatype View = View(
    id: string,
    name: string,
    key: Option<string>,
    showTags: bool,
    titleField: string,
    subtitleField: Option<string>,
    sortField: Option<string>,
    descending: bool,
    preview: Option<string>,
    condition: Predicate,
    subviews: seq<Subview>)

  datatype Action = Action(
    id: string,
    description: string,
    condition: Predicate,
    effects: seq<ActionEffect>,
    plugin: Option<ActionPlugin>)

  datatype Template = Template(id: string, path: string, content: string)

  datatype Workspace = Workspace(
    schema: U16,
    defaultView: string,
    views: seq<View>,
    actions: seq<Action>,
    templates: seq<Template>,
    grants: map<string, set<Capability>>,
    queryLimit: Usize)

  datatype Kind = ViewId | ActionId | TemplateId | SubviewId

  datatype BehaviorError =
    | UnsupportedSchema(schema: U16)
    | Duplicate(kind: Kind, id: string)
    | UnknownView(view: string)
    | UnknownSubview(subview: string)
    | InvalidQueryLimit

  // ----- Validation ------------------------------------------------------------------------------------

  /** The first identifier that is empty or repeats an earlier one fails. */
  function Unique(kind: Kind, ids: seq<string>, seen: set<string>): Result<(), BehaviorError> {
    if ids == [] then Ok(())
    else if ids[0] == "" || ids[0] in seen then Err(Duplicate(kind, ids[0]))
    else Unique(kind, ids[1..], seen + {ids[0]})
  }

  function ViewIds(views: seq<View>): seq<string> {
    seq(|views|, i requires 0 <= i < |views| => views[i].id)
  }

  function SubviewIds(subviews: seq<Subview>): seq<string> {
    seq(|subviews|, i requires 0 <= i < |subviews| => subviews[i].id)
  }

  function ActionIds(actions: seq<Action>): seq<string> {
    seq(|actions|, i requires 0 <= i < |actions| => actions[i].id)
  }

  function TemplateIds(templates: seq<Template>): seq<string> {
    seq(|templates|, i requires 0 <= i < |templates| => templates[i].id)
  }

  function UniqueSubviews(views: seq<View>): Result<(), BehaviorError> {
    if views == [] then Ok(())
    else
      var _ :- Unique(SubviewId, SubviewIds(views[0].subviews), {});
      UniqueSubviews(views[1..])
  }

  function Validate(w: Workspace): Result<(), BehaviorError> {
    if w.schema != BEHAVIOR_SCHEMA then Err(UnsupportedSchema(w.schema))
    else if !(1 <= w.queryLimit <= DEFAULT_QUERY_LIMIT) then Err(InvalidQueryLimit)
    else
      var _ :- Unique(ViewId, ViewIds(w.views), {});
      var _ :- Unique(ActionId, ActionIds(w.actions), {});
      var _ :- Unique(TemplateId, TemplateIds(w.templates), {});
      var _ :- UniqueSubviews(w.views);
      if w.defaultView != "all" && w.defaultView !in ViewIds(w.views) then Err(UnknownView(w.defaultView))
      else Ok(())
  }

  /** `unique`: the loop over a growing set of seen identifiers. */
  method CheckUnique(kind: Kind, ids: seq<string>) returns (r: Result<(), BehaviorError>)
    ensures r == Unique(kind, ids, {})
  {
    var seen: set<string> := {};
    for i := 0 to |ids|
      invariant Unique(kind, ids, {}) == Unique(kind, ids[i..], seen)
    {
      if ids[i] == "" || ids[i] in seen {
        return Err(Duplicate(kind, ids[i]));
      }
      assert ids[i..][1..] == ids[i + 1..];
      seen := seen + {ids[i]};
    }
    return Ok(());
  }

  predicate DistinctIds(ids: seq<string>) {
    (forall i :: 0 <= i < |ids| ==> ids[i] != "") && forall i, j :: 0 <= i < j < |ids| ==> ids[i] != ids[j]
  }

  lemma {:induction false} UniqueExactly(kind: Kind, ids: seq<string>, seen: set<string>)
    ensures Unique(kind, ids, seen).Ok? <==> DistinctIds(ids) && forall i :: 0 <= i < |ids| ==> ids[i] !in seen
    decreases |ids|
  {
    if ids != [] && ids[0] != "" && ids[0] !in seen {
      var rest := ids[1..];
      UniqueExactly(kind, rest, seen + {ids[0]});
      assert ids == [ids[0]] + rest;
      if Unique(kind, ids, seen).Ok? {
        forall i, j | 0 <= i < j < |ids| ensures ids[i] != ids[j] {
          if i == 0 {
            assert rest[j - 1] !in seen + {ids[0]};
          } else {
            assert rest[i - 1] != rest[j - 1];
          }
        }
      } else if DistinctIds(ids) {
        assert exists i :: 0 <= i < |rest| && (rest[i] in seen + {ids[0]});
      }
    }
  }

  lemma {:induction false} UniqueSubviewsExactly(views: seq<View>)
    ensures UniqueSubviews(views).Ok? <==> forall i :: 0 <= i < |views| ==> DistinctIds(SubviewIds(views[i].subviews))
    decreases |views|
  {
    if views != [] {
      UniqueExactly(SubviewId, SubviewIds(views[0].subviews), {});
      UniqueSubviewsExactly(views[1..]);
      assert views == [views[0]] + views[1..];
    }
  }

  /** Validation accepts exactly the current schema, a bounded query limit, identifiers that are
      distinct and not empty, and a default view that exists. */
  lemma ValidateExactly(w: Workspace)
    ensures Validate(w).Ok? <==>
            && w.schema == BEHAVIOR_SCHEMA && 1 <= w.queryLimit <= DEFAULT_QUERY_LIMIT
            && DistinctIds(ViewIds(w.views))
            && DistinctIds(ActionIds(w.actions))
            && DistinctIds(TemplateIds(w.templates))
            && (forall i :: 0 <= i < |w.views| ==> DistinctIds(SubviewIds(w.views[i].subviews)))
            && (w.defaultView == "all" || exists i :: 0 <= i < |w.views| && w.views[i].id == w.defaultView)
  {
    UniqueExactly(ViewId, ViewIds(w.views), {});
    UniqueExactly(ActionId, ActionIds(w.actions), {});
    UniqueExactly(TemplateId, TemplateIds(w.templates), {});
    UniqueSubviewsExactly(w.views);
    assert w.defaultView in ViewIds(w.views) <==> exists i :: 0 <= i < |w.views| && w.views[i].id == w.defaultView by {
      if w.defaultView in ViewIds(w.views) {
        var i :| 0 <= i < |w.views| && ViewIds(w.views)[i] == w.defaultView;
        assert w.views[i].id == w.defaultView;
      }
      if exists i :: 0 <= i < |w.views| && w.views[i].id == w.defaultView {
        var i :| 0 <= i < |w.views| && w.views[i].id == w.defaultView;
        assert ViewIds(w.views)[i] == w.defaultView;
      }
    }
  }
}
