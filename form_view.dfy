/** The form view: the parameters it derives for its controller and renderer,
    and the preparation of the sub-views of its x2many fields.

    The base view's constructor and its `_extractParamsFromAction` are not
    part of this model: what they leave behind is given as input (`BaseState`,
    `superParams`). The asynchronous `loadViews` call becomes a returned list
    of requests, and its completion the separate step `ApplyLoadedViews`.
 */
module FormView {
  import opened JsValues
  import opened ParseInt
  import opened SubviewContext

  /** A field definition of `loadParams.fields`. */
  datatype Field = Field(fieldType: string, relation: string)

  /** A sub-view definition; only the attributes of its arch's root element
      are read here. XML attributes are strings. */
  datatype View = View(archAttrs: map<string, string>)

  /** What a field widget's class declares on its prototype. */
  datatype Widget = Widget(useSubview: bool, limit: Value)

  /** The attributes of one field in the form's `fieldsInfo.form`. */
  datatype FieldAttrs = FieldAttrs(
    widget: Widget,
    noFetch: bool,               // truthiness of `__no_fetch`
    views: map<string, View>,    // the views declared per display mode
    mode: string,                // the display mode, such as "tree" or "kanban"
    context: string,             // the raw context string of the field
    limit: Value)                // the row limit, once set

  /** One `parent.loadViews(model, context, [[null, viewType]])` call. The
      context is passed as its three parts, before `Context(...).eval()`
      combines them. */
  datatype ViewRequest = ViewRequest(
    fieldName: string,
    model: string,
    fieldContext: map<string, string>,
    userContext: map<string, Value>,
    parentContext: map<string, Value>,
    viewType: string)

  /** The action descriptor fields the form view reads. */
  datatype Action = Action(target: Value, context: Option<map<string, Value>>)

  /** The state the base view's constructor leaves behind. */
  datatype BaseState = BaseState(
    params: map<string, Value>,           // the view parameters, as modified by the base view
    controllerParams: map<string, Value>,
    rendererParams: map<string, Value>,
    fields: map<string, Field>,
    fieldsInfo: map<string, FieldAttrs>,
    context: map<string, Value>,
    userContext: map<string, Value>)

  //--------------------------------------------------------------------------
  // Construction
  //--------------------------------------------------------------------------

  /** The edit mode of a new form view: the `mode` parameter when it is
      truthy, otherwise read-only for an existing record and edit for a new
      one. */
  function InitialMode(params: map<string, Value>): (mode: Value)
    ensures Truthy(mode)
    ensures Truthy(Get(params, "mode")) ==> mode == Get(params, "mode")
    ensures !Truthy(Get(params, "mode")) && Truthy(Get(params, "currentId")) ==> mode == Str("readonly")
    ensures !Truthy(Get(params, "mode")) && !Truthy(Get(params, "currentId")) ==> mode == Str("edit")
  {
    Or(Get(params, "mode"), if Truthy(Get(params, "currentId")) then Str("readonly") else Str("edit"))
  }

  /** `default_buttons` when the key is present, whatever its value; `true`
      only when it is absent. */
  function DefaultButtons(params: map<string, Value>): (buttons: Value)
    ensures "default_buttons" in params ==> buttons == params["default_buttons"]
    ensures "default_buttons" !in params ==> buttons == Bool(true)
  {
    if "default_buttons" in params then params["default_buttons"] else Bool(true)
  }

  /** `hasActionMenus` as the caller passed it, or, when the caller left it
      undefined, as the base view set it. */
  function HasActionMenus(given: map<string, Value>, params: map<string, Value>): (menus: Value)
    ensures Get(given, "hasActionMenus") != Undefined ==> menus == Get(given, "hasActionMenus")
    ensures Get(given, "hasActionMenus") == Undefined ==> menus == Get(params, "hasActionMenus")
  {
    var menus := Get(given, "hasActionMenus");
    if menus == Undefined then Get(params, "hasActionMenus") else menus
  }

  /** The controller and renderer of an initialised form view work in the
      same mode, and that mode is always a usable (truthy) one. */
  lemma ControllerAndRendererAgree(params: map<string, Value>, base: BaseState, toolbar: Value)
    ensures var c := ControllerParams(params, base, toolbar);
            var r := RendererParams(base);
            Get(c, "mode") == Get(r, "mode") == InitialMode(base.params) && Truthy(Get(c, "mode"))
  {
  }

  /** The controller parameters `init` writes over the base view's. */
  function ControllerParams(given: map<string, Value>, base: BaseState, toolbar: Value): map<string, Value> {
    var p := base.params;
    base.controllerParams
      ["hasActionMenus" := HasActionMenus(given, p)]
      ["disableAutofocus" := Get(p, "disable_autofocus")]
      ["toolbarActions" := toolbar]
      ["footerToButtons" := Get(p, "footerToButtons")]
      ["defaultButtons" := DefaultButtons(p)]
      ["mode" := InitialMode(p)]
  }

  /** The renderer parameters `init` writes over the base view's. */
  function RendererParams(base: BaseState): map<string, Value> {
    base.rendererParams
      ["mode" := InitialMode(base.params)]
      ["isFromFormViewDialog" := Get(base.params, "isFromFormViewDialog")]
  }

  //--------------------------------------------------------------------------
  // Parameters from the action
  //--------------------------------------------------------------------------

  predicate IsTarget(action: Action, target: string) {
    action.target == Str(target)
  }

  /** The mode an action imposes, if any: edit in a dialog, inline or in full
      screen, otherwise a truthy `form_view_initial_mode` of its context. */
  function ActionMode(action: Action): (mode: Option<Value>)
    ensures mode.Some? ==> Truthy(mode.value)
  {
    if IsTarget(action, "new") || IsTarget(action, "inline") || IsTarget(action, "fullscreen") then
      Some(Str("edit"))
    else if action.context.Some? && Truthy(Get(action.context.value, "form_view_initial_mode")) then
      Some(Get(action.context.value, "form_view_initial_mode"))
    else
      None
  }

  const FlagKeys: set<string> := {"withControlPanel", "footerToButtons", "hasSearchView", "hasActionMenus", "searchMenuTypes"}

  /** The target of an action decides the control panel, the footer buttons,
      the search view, the action menus and the mode; every other parameter
      is left as the base view returned it. */
  method ExtractParamsFromAction(action: Action, superParams: map<string, Value>) returns (params: map<string, Value>)
    ensures params.Keys == superParams.Keys + FlagKeys + (if ActionMode(action).Some? then {"mode"} else {})
    ensures params["withControlPanel"] == Bool(!IsTarget(action, "new") && !IsTarget(action, "inline"))
    ensures params["hasActionMenus"] == Bool(!IsTarget(action, "new") && !IsTarget(action, "inline"))
    ensures params["footerToButtons"] == Bool(IsTarget(action, "new"))
    ensures params["hasSearchView"] == if IsTarget(action, "new") then Bool(false) else Get(superParams, "hasSearchView")
    ensures params["searchMenuTypes"] == if IsTarget(action, "new") then Arr([]) else Get(superParams, "searchMenuTypes")
    ensures IsTarget(action, "new") || IsTarget(action, "inline") || IsTarget(action, "fullscreen") ==> params["mode"] == Str("edit")
    ensures ActionMode(action).None? ==> Get(params, "mode") == Get(superParams, "mode")
    ensures ActionMode(action).Some? ==> params["mode"] == ActionMode(action).value
    ensures IsTarget(action, "new") ==>
      && !Truthy(params["withControlPanel"]) && !Truthy(params["hasActionMenus"])
      && Truthy(params["footerToButtons"]) && InitialMode(params) == Str("edit")
    ensures forall key :: key in superParams && key !in FlagKeys && key != "mode" ==> params[key] == superParams[key]
  {
    params := superParams;
    var inDialog := action.target == Str("new");
    var inline := action.target == Str("inline");
    var fullscreen := action.target == Str("fullscreen");
    params := params["withControlPanel" := Bool(!(inDialog || inline))];
    params := params["footerToButtons" := Bool(inDialog)];
    params := params["hasSearchView" := if inDialog then Bool(false) else Get(params, "hasSearchView")];
    params := params["hasActionMenus" := Bool(!inDialog && !inline)];
    params := params["searchMenuTypes" := if inDialog then Arr([]) else Get(params, "searchMenuTypes")];
    if inDialog || inline || fullscreen {
      params := params["mode" := Str("edit")];
    } else if action.context.Some? && Truthy(Get(action.context.value, "form_view_initial_mode")) {
      params := params["mode" := Get(action.context.value, "form_view_initial_mode")];
    }
  }

  /** Once an action imposes a mode on the parameters, the form view opens in
      that mode whether or not a record id is given: an imposed mode is always
      truthy, so the `'readonly'`/`'edit'` fallback never applies. */
  lemma ActionModePrevails(action: Action, params: map<string, Value>)
    requires ActionMode(action).Some? && Get(params, "mode") == ActionMode(action).value
    ensures InitialMode(params) == ActionMode(action).value
  {
  }

  //--------------------------------------------------------------------------
  // Sub-views
  //--------------------------------------------------------------------------

  predicate IsX2Many(field: Field) {
    field.fieldType == "one2many" || field.fieldType == "many2many"
  }

  /** The widget wants a sub-view, fetching is not switched off, and no view
      for the field's display mode is declared inline. */
  predicate NeedsFetch(attrs: FieldAttrs) {
    attrs.widget.useSubview && !attrs.noFetch && attrs.mode !in attrs.views
  }

  /** What `_loadSubviews` does with one field. */
  datatype Selection = Ignored | Fetch | LimitNow

  function Select(fields: map<string, Field>, name: string, attrs: FieldAttrs): Selection {
    if name !in fields || !IsX2Many(fields[name]) then Ignored
    else if NeedsFetch(attrs) then Fetch
    else LimitNow
  }

  /** The view type asked of the server: `tree` is requested as `list`. */
  function RequestedViewType(mode: string): (viewType: string)
    ensures viewType != "tree"
    ensures mode == "tree" ==> viewType == "list"
    ensures mode != "tree" ==> viewType == mode
  {
    if mode == "tree" then "list" else mode
  }

  /** `view && view.arch.attrs.limit && parseInt(view.arch.attrs.limit, 10)`
      for the view of the field's display mode. */
  function ArchLimit(attrs: FieldAttrs): Value {
    if attrs.mode !in attrs.views then Undefined
    else
      var arch := attrs.views[attrs.mode].archAttrs;
      if "limit" !in arch then Undefined
      else if arch["limit"] == "" then Str("")
      else match ParseInt10(arch["limit"])
        case None => NaN
        case Some(n) => Num(n)
  }

  /** The row limit: the arch's `limit` when it parses to a nonzero number,
      else the widget's default when truthy, else 40. */
  function SubViewLimit(attrs: FieldAttrs): (limit: Value)
    ensures Truthy(limit)
  {
    Or(ArchLimit(attrs), Or(attrs.widget.limit, Num(40)))
  }

  function WithLimit(attrs: FieldAttrs): FieldAttrs {
    attrs.(limit := SubViewLimit(attrs))
  }

  /** The arch's `limit` as `parseInt` reads it, when the view of the
      field's display mode declares one. */
  function ParsedArchLimit(attrs: FieldAttrs): Option<int> {
    if attrs.mode in attrs.views && "limit" in attrs.views[attrs.mode].archAttrs
    then ParseInt10(attrs.views[attrs.mode].archAttrs["limit"])
    else None
  }

  /** The arch's `limit` is truthy exactly when it parses to a nonzero
      number, and it is then that number. */
  lemma ArchLimitParsed(attrs: FieldAttrs)
    ensures Truthy(ArchLimit(attrs)) <==> ParsedArchLimit(attrs).Some? && ParsedArchLimit(attrs).value != 0
    ensures Truthy(ArchLimit(attrs)) ==> ArchLimit(attrs) == Num(ParsedArchLimit(attrs).value)
  {
    if attrs.mode in attrs.views && "limit" in attrs.views[attrs.mode].archAttrs
       && attrs.views[attrs.mode].archAttrs["limit"] == "" {
      assert ParseInt10("") == None by {
        ParseIntNoDigit("", "", "");
      }
    }
  }

  /** The fallback chain of the row limit: the parsed arch `limit` when it is
      a nonzero number, else the widget's default when truthy, else 40. */
  lemma SubViewLimitChain(attrs: FieldAttrs)
    ensures SubViewLimit(attrs) ==
              if ParsedArchLimit(attrs).Some? && ParsedArchLimit(attrs).value != 0 then Num(ParsedArchLimit(attrs).value)
              else if Truthy(attrs.widget.limit) then attrs.widget.limit
              else Num(40)
  {
    ArchLimitParsed(attrs);
  }

  /** A limit written in decimal on the view's arch, with or without leading
      white space or trailing text, is the limit used. */
  lemma SubViewLimitOfDecimal(attrs: FieldAttrs, pad: string, n: nat, rest: string)
    requires attrs.mode in attrs.views
    requires "limit" in attrs.views[attrs.mode].archAttrs
    requires attrs.views[attrs.mode].archAttrs["limit"] == pad + Decimal(n) + rest
    requires AllSpaces(pad) && (rest == [] || !IsDigit(rest[0]))
    requires n != 0
    ensures SubViewLimit(attrs) == Num(n)
  {
    assert ParsedArchLimit(attrs) == Some(n) by {
      ParseIntOfDecimal(pad, "", n, rest);
      assert pad + "" == pad;
    }
    SubViewLimitChain(attrs);
  }

  /** A limit of `0`, or one that does not parse, falls through to the
      widget's default, and without one to 40. */
  lemma SubViewLimitFallsThrough(attrs: FieldAttrs)
    requires ParsedArchLimit(attrs) == Some(0) || ParsedArchLimit(attrs) == None
    ensures SubViewLimit(attrs) == if Truthy(attrs.widget.limit) then attrs.widget.limit else Num(40)
  {
    SubViewLimitChain(attrs);
  }

  /** The limits of a form's x2many fields that need no fetch, set at once;
      every other field is left as it was. */
  function SettleLimits(fieldsInfo: map<string, FieldAttrs>, fields: map<string, Field>): map<string, FieldAttrs> {
    map name | name in fieldsInfo :: Settled(fields, name, fieldsInfo[name])
  }

  /** One field after `_loadSubviews` has visited it. */
  function Settled(fields: map<string, Field>, name: string, attrs: FieldAttrs): FieldAttrs {
    if Select(fields, name, attrs) == LimitNow then WithLimit(attrs) else attrs
  }

  /** The fields after the visits of the fields in `done`. */
  function SettledAfter(fieldsInfo: map<string, FieldAttrs>, fields: map<string, Field>, done: seq<string>): map<string, FieldAttrs> {
    map name | name in fieldsInfo :: if name in done then Settled(fields, name, fieldsInfo[name]) else fieldsInfo[name]
  }

  /** Visiting one more field, not visited before, settles that field. */
  lemma SettledAfterStep(fieldsInfo: map<string, FieldAttrs>, fields: map<string, Field>, order: seq<string>, i: nat)
    requires i < |order| && order[i] in fieldsInfo && order[i] !in order[..i]
    ensures SettledAfter(fieldsInfo, fields, order[..i])[order[i]] == fieldsInfo[order[i]]
    ensures SettledAfter(fieldsInfo, fields, order[..i + 1])
      == SettledAfter(fieldsInfo, fields, order[..i])[order[i] := Settled(fields, order[i], fieldsInfo[order[i]])]
  {
    assert order[..i + 1] == order[..i] + [order[i]];
  }

  /** Once every field is visited, the limits are settled. */
  lemma SettledAfterAll(fieldsInfo: map<string, FieldAttrs>, fields: map<string, Field>, order: seq<string>)
    requires forall name :: name in fieldsInfo ==> name in order
    ensures SettledAfter(fieldsInfo, fields, order) == SettleLimits(fieldsInfo, fields)
  {
  }

  /** The request issued for a field that needs its sub-view fetched. */
  function RequestFor(name: string, attrs: FieldAttrs, field: Field, parentContext: map<string, Value>,
                      userContext: map<string, Value>, modelName: Value): ViewRequest
  {
    ViewRequest(name, field.relation, ViewRefContext(attrs.context), userContext,
                RefineContext(parentContext, modelName), RequestedViewType(attrs.mode))
  }

  /** The requests issued for the fields of `order`, in that order. */
  function Requests(order: seq<string>, fieldsInfo: map<string, FieldAttrs>, fields: map<string, Field>,
                    parentContext: map<string, Value>, userContext: map<string, Value>, modelName: Value): seq<ViewRequest>
    requires forall name :: name in order ==> name in fieldsInfo
  {
    if order == [] then []
    else
      var name := order[|order| - 1];
      Requests(order[..|order| - 1], fieldsInfo, fields, parentContext, userContext, modelName)
      + if Select(fields, name, fieldsInfo[name]) == Fetch
        then [RequestFor(name, fieldsInfo[name], fields[name], parentContext, userContext, modelName)]
        else []
  }

  /** One more field in the order adds its request, if it needs one. */
  lemma RequestsStep(order: seq<string>, i: nat, fieldsInfo: map<string, FieldAttrs>, fields: map<string, Field>,
                     parentContext: map<string, Value>, userContext: map<string, Value>, modelName: Value)
    requires i < |order|
    requires forall name :: name in order ==> name in fieldsInfo
    ensures Requests(order[..i + 1], fieldsInfo, fields, parentContext, userContext, modelName)
      == Requests(order[..i], fieldsInfo, fields, parentContext, userContext, modelName)
         + if Select(fields, order[i], fieldsInfo[order[i]]) == Fetch
           then [RequestFor(order[i], fieldsInfo[order[i]], fields[order[i]], parentContext, userContext, modelName)]
           else []
  {
    assert order[..i + 1][..i] == order[..i];
  }

  /** A request is issued exactly for the x2many fields that need their
      sub-view: each carries the field's relation, its display mode with
      `tree` asked as `list`, the well-formed `_view_ref` pairs of the
      field's own context, and the form's context without any `_view_ref`
      key and with `base_model_name` set. */
  lemma {:induction false} RequestsWellFormed(order: seq<string>, fieldsInfo: map<string, FieldAttrs>,
                                              fields: map<string, Field>, parentContext: map<string, Value>,
                                              userContext: map<string, Value>, modelName: Value)
    requires forall name :: name in order ==> name in fieldsInfo
    ensures forall r :: r in Requests(order, fieldsInfo, fields, parentContext, userContext, modelName) ==>
      && r.fieldName in order
      && Select(fields, r.fieldName, fieldsInfo[r.fieldName]) == Fetch
      && r == RequestFor(r.fieldName, fieldsInfo[r.fieldName], fields[r.fieldName], parentContext, userContext, modelName)
      && r.viewType == RequestedViewType(fieldsInfo[r.fieldName].mode) && r.viewType != "tree"
      && WellFormedRefs(r.fieldContext)
      && (forall key :: key in r.parentContext ==> !HasViewRef(key))
      && BaseModelName in r.parentContext && r.parentContext[BaseModelName] == modelName
    ensures forall name :: name in order && Select(fields, name, fieldsInfo[name]) == Fetch ==>
      RequestFor(name, fieldsInfo[name], fields[name], parentContext, userContext, modelName)
        in Requests(order, fieldsInfo, fields, parentContext, userContext, modelName)
  {
    if order != [] {
      var name := order[|order| - 1];
      var init := order[..|order| - 1];
      RequestsWellFormed(init, fieldsInfo, fields, parentContext, userContext, modelName);
      ScrapedRefsWellFormed(fieldsInfo[name].context);
      forall r | r in Requests(init, fieldsInfo, fields, parentContext, userContext, modelName)
        ensures r.fieldName in order
      {
        assert r.fieldName in init;
      }
      forall other | other in order && Select(fields, other, fieldsInfo[other]) == Fetch
        ensures RequestFor(other, fieldsInfo[other], fields[other], parentContext, userContext, modelName)
                in Requests(order, fieldsInfo, fields, parentContext, userContext, modelName)
      {
        if other != name {
          assert other in init by {
            var k :| 0 <= k < |order| && order[k] == other;
            assert init[k] == other;
          }
        }
      }
    }
  }

  /** `_loadSubviews` leaves fields it skips and fields it fetches for as
      they were, and sets a truthy row limit on every other x2many field. */
  lemma SettleLimitsEffect(fieldsInfo: map<string, FieldAttrs>, fields: map<string, Field>)
    ensures SettleLimits(fieldsInfo, fields).Keys == fieldsInfo.Keys
    ensures forall name :: name in fieldsInfo && Select(fields, name, fieldsInfo[name]) != LimitNow ==>
      SettleLimits(fieldsInfo, fields)[name] == fieldsInfo[name]
    ensures forall name :: name in fieldsInfo && Select(fields, name, fieldsInfo[name]) == LimitNow ==>
      && SettleLimits(fieldsInfo, fields)[name] == fieldsInfo[name].(limit := SubViewLimit(fieldsInfo[name]))
      && Truthy(SettleLimits(fieldsInfo, fields)[name].limit)
  {
  }

  /** The field state after the views returned for field `name` arrive: they
      are added to the field's views, then its row limit is set. */
  function Loaded(fieldsInfo: map<string, FieldAttrs>, name: string, views: map<string, View>): map<string, FieldAttrs>
    requires name in fieldsInfo
  {
    var attrs := fieldsInfo[name];
    fieldsInfo[name := WithLimit(attrs.(views := attrs.views + views))]
  }

  /** The views of two fields can arrive in either order. */
  lemma LoadedCommute(fieldsInfo: map<string, FieldAttrs>, n1: string, v1: map<string, View>, n2: string, v2: map<string, View>)
    requires n1 in fieldsInfo && n2 in fieldsInfo && n1 != n2
    ensures Loaded(Loaded(fieldsInfo, n1, v1), n2, v2) == Loaded(Loaded(fieldsInfo, n2, v2), n1, v1)
  {
  }

  /** When the reply holds the view of the field's display mode, the field
      no longer passes the fetch test. */
  lemma ResolvedOnce(fieldsInfo: map<string, FieldAttrs>, fields: map<string, Field>, name: string, views: map<string, View>)
    requires name in fieldsInfo && fieldsInfo[name].mode in views
    ensures Select(fields, name, Loaded(fieldsInfo, name, views)[name]) != Fetch
  {
  }

  /** A reply without the view of the field's display mode leaves the field
      passing the fetch test, and its row limit falls back to the widget's
      default or 40. This is the case of a field shown as `tree` whose reply
      holds only the `list` view it asked for, should the reply be keyed by
      the requested view type. */
  lemma ReplyWithoutModeView(fieldsInfo: map<string, FieldAttrs>, fields: map<string, Field>, name: string,
                             views: map<string, View>)
    requires name in fieldsInfo && Select(fields, name, fieldsInfo[name]) == Fetch
    requires fieldsInfo[name].mode !in views
    ensures Select(fields, name, Loaded(fieldsInfo, name, views)[name]) == Fetch
    ensures Loaded(fieldsInfo, name, views)[name].limit ==
      if Truthy(fieldsInfo[name].widget.limit) then fieldsInfo[name].widget.limit else Num(40)
  {
    var attrs := fieldsInfo[name];
    var merged := attrs.(views := attrs.views + views);
    assert Loaded(fieldsInfo, name, views)[name] == WithLimit(merged);
    assert ParsedArchLimit(merged) == None;
    SubViewLimitFallsThrough(merged);
  }

  /** The case above with a `tree` field and its `list` reply. */
  lemma TreeFieldListReply(fieldsInfo: map<string, FieldAttrs>, fields: map<string, Field>, name: string, list: View)
    requires name in fieldsInfo && Select(fields, name, fieldsInfo[name]) == Fetch
    requires fieldsInfo[name].mode == "tree"
    ensures var views := map[RequestedViewType(fieldsInfo[name].mode) := list];
      Select(fields, name, Loaded(fieldsInfo, name, views)[name]) == Fetch
  {
    ReplyWithoutModeView(fieldsInfo, fields, name, map[RequestedViewType(fieldsInfo[name].mode) := list]);
  }

  /** A fetched field takes its row limit from the arch of the view that
      arrived for its display mode. */
  lemma LoadedLimit(fieldsInfo: map<string, FieldAttrs>, name: string, views: map<string, View>,
                    pad: string, n: nat, rest: string)
    requires name in fieldsInfo && fieldsInfo[name].mode in views
    requires "limit" in views[fieldsInfo[name].mode].archAttrs
    requires views[fieldsInfo[name].mode].archAttrs["limit"] == pad + Decimal(n) + rest
    requires AllSpaces(pad) && (rest == [] || !IsDigit(rest[0]))
    requires n != 0
    ensures Loaded(fieldsInfo, name, views)[name].limit == Num(n)
  {
    var attrs := fieldsInfo[name];
    var merged := attrs.(views := attrs.views + views);
    assert Loaded(fieldsInfo, name, views)[name].limit == SubViewLimit(merged);
    assert merged.mode in merged.views && merged.views[merged.mode] == views[attrs.mode];
    SubViewLimitOfDecimal(merged, pad, n, rest);
  }

  //--------------------------------------------------------------------------
  // The view object
  //--------------------------------------------------------------------------

  class FormView {
    var controllerParams: map<string, Value>
    var rendererParams: map<string, Value>
    var loadType: string
    var fields: map<string, Field>
    var fieldsInfo: map<string, FieldAttrs>
    var context: map<string, Value>
    var userContext: map<string, Value>

    /** `init`: `params` are the view parameters as the caller passed them,
        `base` what the base view's constructor made of them. */
    constructor (toolbar: Value, params: map<string, Value>, base: BaseState)
      ensures controllerParams == ControllerParams(params, base, toolbar)
      ensures rendererParams == RendererParams(base)
      ensures loadType == "record"
      ensures fields == base.fields && fieldsInfo == base.fieldsInfo
      ensures context == base.context && userContext == base.userContext
    {
      var hasActionMenus := Get(params, "hasActionMenus");
      // the base view's constructor runs here and leaves `base` behind
      fields, fieldsInfo := base.fields, base.fieldsInfo;
      context, userContext := base.context, base.userContext;
      var p := base.params;
      var mode := InitialMode(p);
      loadType := "record";
      if hasActionMenus == Undefined {
        hasActionMenus := Get(p, "hasActionMenus");
      }
      var cp := base.controllerParams;
      cp := cp["hasActionMenus" := hasActionMenus];
      cp := cp["disableAutofocus" := Get(p, "disable_autofocus")];
      cp := cp["toolbarActions" := toolbar];
      cp := cp["footerToButtons" := Get(p, "footerToButtons")];
      cp := cp["defaultButtons" := DefaultButtons(p)];
      cp := cp["mode" := mode];
      controllerParams := cp;
      var rp := base.rendererParams;
      rp := rp["mode" := mode];
      rp := rp["isFromFormViewDialog" := Get(p, "isFromFormViewDialog")];
      rendererParams := rp;
    }

    /** `_setSubViewLimit`: sets the row limit of one field. */
    method SetSubViewLimit(name: string)
      requires name in fieldsInfo
      modifies this`fieldsInfo
      ensures fieldsInfo == old(fieldsInfo)[name := WithLimit(old(fieldsInfo)[name])]
      ensures Truthy(fieldsInfo[name].limit)
    {
      var attrs := fieldsInfo[name];
      var limit := ArchLimit(attrs);
      fieldsInfo := fieldsInfo[name := attrs.(limit := Or(limit, Or(attrs.widget.limit, Num(40))))];
    }

    /** The body of `_loadSubviews`' loop for one field: a field that is
        not an x2many field of this view is skipped; one that needs its
        sub-view yields a request; any other gets its row limit at once. */
    method VisitField(name: string) returns (request: Option<ViewRequest>)
      requires name in fieldsInfo
      modifies this`fieldsInfo
      ensures fieldsInfo == old(fieldsInfo)[name := Settled(fields, name, old(fieldsInfo)[name])]
      ensures request == if Select(fields, name, old(fieldsInfo)[name]) == Fetch
        then Some(RequestFor(name, old(fieldsInfo)[name], fields[name], context, userContext, Get(controllerParams, "modelName")))
        else None
    {
      request := None;
      var attrs := fieldsInfo[name];
      if name !in fields {
        return;
      }
      var field := fields[name];
      if field.fieldType != "one2many" && field.fieldType != "many2many" {
        return;
      }
      if attrs.widget.useSubview && !attrs.noFetch && attrs.mode !in attrs.views {
        var fieldContext := ScrapeViewRefs(attrs.context);
        var refinedContext := RefineContext(context, Get(controllerParams, "modelName"));
        var viewType := if attrs.mode == "tree" then "list" else attrs.mode;
        request := Some(ViewRequest(name, field.relation, fieldContext, userContext, refinedContext, viewType));
      } else {
        SetSubViewLimit(name);
      }
    }

    /** `_loadSubviews`, up to the requests it sends: `order` is the key order
        of `fieldsInfo`. Fields that need no fetch get their row limit at
        once; the others get it when their views arrive. */
    method LoadSubviews(order: seq<string>) returns (requests: seq<ViewRequest>)
      requires forall name :: name in fieldsInfo <==> name in order
      requires forall i, j :: 0 <= i < j < |order| ==> order[i] != order[j]
      modifies this`fieldsInfo
      ensures fieldsInfo == SettleLimits(old(fieldsInfo), fields)
      ensures requests == Requests(order, old(fieldsInfo), fields, context, userContext, Get(controllerParams, "modelName"))
    {
      requests := [];
      var i := 0;
      while i < |order|
        invariant 0 <= i <= |order|
        invariant fieldsInfo == SettledAfter(old(fieldsInfo), fields, order[..i])
        invariant requests == Requests(order[..i], old(fieldsInfo), fields, context, userContext, Get(controllerParams, "modelName"))
      {
        var name := order[i];
        assert name !in order[..i];
        SettledAfterStep(old(fieldsInfo), fields, order, i);
        RequestsStep(order, i, old(fieldsInfo), fields, context, userContext, Get(controllerParams, "modelName"));
        var request := VisitField(name);
        if request.Some? {
          requests := requests + [request.value];
        }
        i := i + 1;
      }
      assert order[..i] == order;
      SettledAfterAll(old(fieldsInfo), fields, order);
    }

    /** The callback of one `loadViews` request: the returned views are added
        to the field's views, then its row limit is set. */
    method ApplyLoadedViews(name: string, views: map<string, View>)
      requires name in fieldsInfo
      modifies this`fieldsInfo
      ensures fieldsInfo == Loaded(old(fieldsInfo), name, views)
    {
      var attrs := fieldsInfo[name];
      var merged := attrs.views;
      var pending := views.Keys;
      while pending != {}
        invariant pending <= views.Keys
        invariant merged.Keys == attrs.views.Keys + (views.Keys - pending)
        invariant forall v :: v in merged ==> merged[v] == if v in views && v !in pending then views[v] else attrs.views[v]
        decreases pending
      {
        var v :| v in pending;
        merged := merged[v := views[v]];
        pending := pending - {v};
      }
      assert merged == attrs.views + views;
      fieldsInfo := fieldsInfo[name := attrs.(views := merged)];
      SetSubViewLimit(name);
    }
  }
}
