# Odoo web client: form view set-up and dropdown menu

This project models two pieces of Odoo's web client and proves properties of them.

The first is the **form view** (`web.FormView`):
- the parameters its `init` hands to its controller and renderer: the initial edit mode, the default buttons and the action menus;
- the decision table `_extractParamsFromAction` applies to the target of an action;
- `_loadSubviews`, which prepares the sub-views of the form's one2many and many2many fields. It skips fields missing from the form's `fields` and fields that are not x2many. For each other field it either sends a `loadViews` request or sets the field's row limit at once. A request carries:
  - the `_view_ref` pairs scraped from the field's context string by a global regular expression;
  - the form's context, stripped of `_view_ref` keys and given `base_model_name`;
- `_setSubViewLimit`, the fallback chain of the row limit. It applies JavaScript's `parseInt(…, 10)` to the arch's `limit` attribute.

The second is the **dropdown menu** (`web.DropdownMenu`): an OWL component with a single `open` flag. Its handlers for window clicks, window key presses, item selection and button key presses only ever close it; the toggle that opens it lives in the component's template.

Modules:
- `JsValues` (`js_values.dfy`) holds JavaScript values, truthiness, `||` and property reads on objects. Objects are modelled as maps.
- `ParseInt` (`parse_int.dfy`) is `parseInt(s, 10)`.
- `SubviewContext` (`subview_context.dfy`) holds:
  - the regular expression `/'([a-z]*_view_ref)' *: *'(.*?)'/g`, stated positionally (`IsMatch`) and computed (`MatchAt`, `NextMatch`);
  - its `exec` loop (`ScrapeViewRefs`, specified by `ViewRefContext`);
  - the refined parent context (`RefineContext`).
- `FormView` (`form_view.dfy`) holds the parameter functions, the field selection (`Select`), the row limit, and a class `FormView` whose fields are the view's parameter objects and its `fieldsInfo`.
- `DropdownMenu` (`dropdown_menu.dfy`) holds a transition function `Next` over events, its fold `Run`, and a class `DropdownMenu` whose handlers update `open`.

The base view is `BasicView` and its parents. What its constructor and its `_extractParamsFromAction` produce is given to the model as input: `BaseState` and `superParams`. The asynchronous `loadViews` call is split in two. `FormView.FormView.LoadSubviews` returns the list of requests it would send. `FormView.FormView.ApplyLoadedViews` is the callback run when the views for one field arrive.

## Model

| member | source | states |
|---|---|---|
| FormView.InitialMode | addons/web/static/src/js/views/form/form_view.js:31 | the mode is `params.mode` when truthy, else `readonly` with a truthy `currentId`, else `edit`; it is always truthy |
| FormView.DefaultButtons | addons/web/static/src/js/views/form/form_view.js:45-46 | `default_buttons` is used whenever the key is present, even with a falsy value; `true` only when the key is absent |
| FormView.HasActionMenus | addons/web/static/src/js/views/form/form_view.js:28-40 | the caller's `hasActionMenus` wins unless it was `undefined`; then the value the base view wrote into the parameters is used |
| FormView.ControllerAndRendererAgree | addons/web/static/src/js/views/form/form_view.js:31-49 | the controller and the renderer get the same mode, and it is truthy |
| FormView.FormView.constructor | addons/web/static/src/js/views/form/form_view.js:27-51 | `init` writes the hasActionMenus, disableAutofocus, toolbarActions, footerToButtons, defaultButtons and mode controller parameters and the mode and isFromFormViewDialog renderer parameters over the base view's; the load type is `record` |
| FormView.ExtractParamsFromAction | addons/web/static/src/js/views/form/form_view.js:71-87 | decision table: control panel and action menus are off exactly for targets `new` and `inline`; footer buttons are on exactly for `new`; search view and search menus are cleared only for `new`; mode is `edit` for `new`, `inline` and `fullscreen`, otherwise a truthy `form_view_initial_mode` of the action's context, otherwise unchanged; no other parameter changes; so a dialog (`target: 'new'`) has no control panel and no action menus, has its buttons in the footer, and opens in edit mode |
| FormView.ActionMode | addons/web/static/src/js/views/form/form_view.js:81-85 | any mode an action imposes is truthy: `edit` for targets `new`, `inline` and `fullscreen`, otherwise only a truthy `form_view_initial_mode` is taken |
| FormView.ActionModePrevails | addons/web/static/src/js/views/form/form_view.js:81-85 | a mode the action imposes is the mode the form opens in, whatever `currentId` is |
| ParseInt.ParseIntOfDecimal | addons/web/static/src/js/views/form/form_view.js:160 | `parseInt(s, 10)` reads back a decimal number after leading white space and an optional sign, ignoring trailing text that does not start with a digit |
| ParseInt.ParseIntNoDigit | addons/web/static/src/js/views/form/form_view.js:160 | without a digit after the white space and the sign, `parseInt` yields `NaN` |
| SubviewContext.NextMatch | addons/web/static/src/js/views/form/form_view.js:117-119 | `exec` finds the leftmost match at or after `lastIndex`, or reports that none exists |
| SubviewContext.MatchAtComplete | addons/web/static/src/js/views/form/form_view.js:117 | wherever the regular expression matches, the scanner finds that match with the groups the expression captures |
| SubviewContext.MatchAtSound | addons/web/static/src/js/views/form/form_view.js:117 | every match the scanner reports is a match of the regular expression |
| SubviewContext.MatchAtShape | addons/web/static/src/js/views/form/form_view.js:117 | a captured key is lower-case letters followed by `_view_ref`; a captured value has no quote and no line terminator |
| SubviewContext.ClosingQuoteSpec | addons/web/static/src/js/views/form/form_view.js:117 | the lazy group `(.*?)'` stops at the first quote, provided no line terminator comes first; when it finds none, no quote at all can close the value |
| SubviewContext.NextMatchShape | addons/web/static/src/js/views/form/form_view.js:117-120 | the match `exec` returns has a key of lower-case letters plus `_view_ref` and a value with no quote or line terminator |
| SubviewContext.ScrapeViewRefs | addons/web/static/src/js/views/form/form_view.js:116-121 | the `exec` loop builds the context the scrape specification defines, and every entry of it is well formed |
| SubviewContext.ScrapedRefsWellFormed | addons/web/static/src/js/views/form/form_view.js:117-121 | every scraped key is lower-case letters plus `_view_ref`, and every scraped value contains no quote and no line terminator |
| SubviewContext.ScrapeOverrides | addons/web/static/src/js/views/form/form_view.js:119-121 | the loop only adds to the context it starts from, and what it adds overrides what was there |
| SubviewContext.LaterOccurrenceWins | addons/web/static/src/js/views/form/form_view.js:119-121 | a key keeps its value from a match only when no later match has the same key |
| SubviewContext.SinglePairScraped | addons/web/static/src/js/views/form/form_view.js:116-121 | `{'<letters>_view_ref': '<value>'}` scrapes to exactly that one pair |
| SubviewContext.UnderscoredKeyNotScraped | addons/web/static/src/js/views/form/form_view.js:117 | `sale_order_view_ref` is never scraped from any string |
| SubviewContext.RefineContext | addons/web/static/src/js/views/form/form_view.js:124-130 | the refined context has no key containing `_view_ref`; it keeps every other parent key with its value; `base_model_name` is the main record's model |
| SubviewContext.ScrapedKeysNotInherited | addons/web/static/src/js/views/form/form_view.js:116-130 | no scraped `_view_ref` key can also come from the form's context |
| FormView.RequestedViewType | addons/web/static/src/js/views/form/form_view.js:134 | `tree` is never requested; it is asked as `list`, and every other mode as itself |
| FormView.RequestsWellFormed | addons/web/static/src/js/views/form/form_view.js:101-134 | requests are sent exactly for the x2many fields present in `fields` whose widget uses a sub-view, that are not marked `__no_fetch` and that lack a view for their mode; each request carries the relation, the scraped pairs, the refined context and the requested view type |
| FormView.SettleLimitsEffect | addons/web/static/src/js/views/form/form_view.js:101-145 | fields missing from `fields`, non-x2many fields and fields waiting for a fetch are left untouched; every other x2many field gets a truthy limit at once |
| FormView.FormView.VisitField | addons/web/static/src/js/views/form/form_view.js:101-146 | one field's visit: it is skipped, it yields the request for its sub-view, or its limit is set |
| FormView.FormView.LoadSubviews | addons/web/static/src/js/views/form/form_view.js:95-150 | after the loop over `fieldsInfo.form`, the limits of the fields that need no fetch are set, and the requests are those of the fields that need one, in key order |
| FormView.FormView.ApplyLoadedViews | addons/web/static/src/js/views/form/form_view.js:135-142 | the returned views are added to the field's views, overriding views of the same name, and then the row limit is set |
| FormView.LoadedCommute | addons/web/static/src/js/views/form/form_view.js:131-143 | the views of two different fields may arrive in either order with the same result |
| FormView.ResolvedOnce | addons/web/static/src/js/views/form/form_view.js:115-142 | when the reply holds the view of the field's display mode, the field no longer passes the fetch test |
| FormView.ReplyWithoutModeView | addons/web/static/src/js/views/form/form_view.js:115-142 | a reply without the view of the field's display mode leaves the field passing the fetch test, and its limit falls back to the widget's default or 40 |
| FormView.TreeFieldListReply | addons/web/static/src/js/views/form/form_view.js:115-142 | a field shown as `tree` whose reply holds only the `list` view it asked for still passes the fetch test |
| FormView.LoadedLimit | addons/web/static/src/js/views/form/form_view.js:136-142 | a fetched field whose arriving view has a nonzero decimal `limit` on its arch, with leading white space or trailing text, takes that limit |
| FormView.SubViewLimit | addons/web/static/src/js/views/form/form_view.js:158-162 | the row limit is never falsy: never 0, `NaN`, empty or undefined |
| FormView.ArchLimitParsed | addons/web/static/src/js/views/form/form_view.js:159-160 | `view && view.arch.attrs.limit && parseInt(…)` is truthy exactly when the arch's `limit` parses to a nonzero number, and is then that number |
| FormView.SubViewLimitChain | addons/web/static/src/js/views/form/form_view.js:159-161 | the limit is the parsed arch `limit` when that is a nonzero number, else the widget's default when truthy, else 40 |
| FormView.SubViewLimitOfDecimal | addons/web/static/src/js/views/form/form_view.js:159-161 | a nonzero decimal `limit` on the arch, with leading white space or trailing text, is the limit |
| FormView.SubViewLimitFallsThrough | addons/web/static/src/js/views/form/form_view.js:159-161 | a `limit` that parses to 0 or to `NaN`, or is missing, falls through to the widget's default, then to 40 |
| FormView.FormView.SetSubViewLimit | addons/web/static/src/js/views/form/form_view.js:158-162 | only the limit of the given field changes, and it becomes truthy |
| DropdownMenu.DropdownMenu.constructor | addons/web/static/src/js/components/dropdown_menu.js:31-39 | a new menu is closed; its props are the given ones with the defaults applied |
| DropdownMenu.WithDefaultProps | addons/web/static/src/js/components/dropdown_menu.js:141 | `items` defaults to the empty list; every other prop is kept as given |
| DropdownMenu.DropdownMenu.DisplayCaret | addons/web/static/src/js/components/dropdown_menu.js:50-52 | no caret is displayed |
| DropdownMenu.DropdownMenu.DisplayChevron | addons/web/static/src/js/components/dropdown_menu.js:60-62 | a chevron is displayed exactly on mobile devices |
| DropdownMenu.DropdownMenu.OnButtonKeydown | addons/web/static/src/js/components/dropdown_menu.js:95-107 | the focus moves, with the default action prevented, exactly for an arrow key when a first item exists; `open` is not touched |
| DropdownMenu.DropdownMenu.OnItemSelected | addons/web/static/src/js/components/dropdown_menu.js:113-117 | with a truthy `closeOnSelected` the menu is closed whatever its state; otherwise nothing changes |
| DropdownMenu.DropdownMenu.OnWindowClick | addons/web/static/src/js/components/dropdown_menu.js:123-127 | the menu stays open exactly when it was open and the click is inside it |
| DropdownMenu.DropdownMenu.OnWindowKeydown | addons/web/static/src/js/components/dropdown_menu.js:133-137 | the menu stays open exactly when it was open and the key is not Escape |
| DropdownMenu.NextOnlyCloses | addons/web/static/src/js/components/dropdown_menu.js:113-137 | no event opens the menu |
| DropdownMenu.RunOnlyCloses | addons/web/static/src/js/components/dropdown_menu.js:31-137 | whatever sequence of the four handlers' events runs, a closed menu stays closed |
| DropdownMenu.EscapeIdempotent | addons/web/static/src/js/components/dropdown_menu.js:133-137 | Escape leaves the menu closed, and a second Escape changes nothing |
| DropdownMenu.InsideEventsAreNoOps | addons/web/static/src/js/components/dropdown_menu.js:95-127 | a click inside the menu and any key on its button leave `open` as it is |

## Left out

- The asynchronous plumbing is not modelled: `parent.loadViews`, `Promise.all` and `getController`'s chaining. Each request is returned as a value. Its result is an input to `ApplyLoadedViews`. `LoadedCommute` covers any completion order for distinct fields.
- The base view is not part of this model: `this._super`, `BasicView` and the parameters it derives. Its results are inputs (`BaseState`, `superParams`).
- `_processFieldsView` and `_processSubViewAttrs` are not part of this model. The loaded views are stored as they arrive. The copy of `viewFields` into `fields` is not modelled either.
- `Context(...).eval()` is not part of this model. A request carries the scraped pairs, the user context and the refined context as three separate parts.
- Reading `field.relation`, `attrs.Widget.prototype` and `attrs.__no_fetch` is reduced to plain fields of the datatypes. The truthiness of `__no_fetch` is a boolean.
- `_loadSubviews` skips everything when `loadParams.fieldsInfo` is missing. The model takes `fieldsInfo` as a map, and that case corresponds to the empty map.
- FormView.FormView.LoadSubviews: the key order of `fieldsInfo.form` is a parameter, as JavaScript's property order. The model requires it to list every key once.
- ParseInt.ParseIntOfDecimal: numbers are unbounded integers. The floating-point rounding of very long digit runs is not modelled, and `-0` is `0`; both are falsy, which is all the limit chain looks at.
- Strings are sequences of code points rather than UTF-16 code units. The scraper and `parseInt` only look at ASCII and at the listed white-space characters, so both views agree on them.
- DOM access is reduced to boolean inputs: `this.el.contains(ev.target)` and `querySelector('.dropdown-item')`. `focus()` and `preventDefault()` together become the `focusMoved` result.
- The component lifecycle is not modelled: `useExternalListener` registration, `useRef`, the OWL template `web.DropdownMenu` and the rendering of items.
- The prop-type declarations of the dropdown menu are not modelled (dropdown_menu.js:142-151). They are validated at run time by the framework.
- `icon`, `items` and `title` are plain getters of the props. They carry no contract beyond returning them.
- A truthy `form_view_initial_mode` in the action's context overwrites `params.mode` in `_extractParamsFromAction`. How those parameters are then merged with the caller's is done in the base view, which is not part of this model.
- The menu is opened by the toggle button of the OWL template `web.DropdownMenu`, which is not part of this model. `Event` therefore holds only the four handlers of the component's class, and DropdownMenu.RunOnlyCloses speaks of those alone.
- DropdownMenu.DropdownMenu.OnButtonKeydown: `hasFirstItem` is an input independent of `open`. Items are rendered only while the menu is open (dropdown_menu.js:19), so a first item exists only then; the model also admits a first item on a closed menu, where the focus would move just the same.
- FormView.ReplyWithoutModeView: the model keeps the views of a reply under the names the reply gives them. Whether the server keys the reply to a `list` request as `list` is not part of this model. If it does, a field shown as `tree` keeps its fetch test passing and ignores the fetched arch's `limit` (FormView.TreeFieldListReply). The model states this reading and does not claim it as a defect.
