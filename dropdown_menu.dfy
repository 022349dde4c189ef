/** The dropdown menu's open/closed state and the handlers that change it.

    The DOM facts the handlers consult become inputs: whether a click's
    target lies inside the menu's element, and whether a first
    `.dropdown-item` is rendered. Moving the focus (with the default action
    of the key prevented) becomes an output flag.
 */
module DropdownMenu {
  import opened JsValues

  /** The events the menu listens to. */
  datatype Event =
    | WindowClick(targetInside: bool)
    | WindowKeydown(key: string)
    | ItemSelected
    | ButtonKeydown(key: string, hasFirstItem: bool)

  predicate IsArrowKey(key: string) {
    key == "ArrowLeft" || key == "ArrowRight" || key == "ArrowUp" || key == "ArrowDown"
  }

  /** The open state after one event, given the `closeOnSelected` prop. */
  function Next(open: bool, closeOnSelected: Value, event: Event): bool {
    match event
    case WindowClick(inside) => if open && !inside then false else open
    case WindowKeydown(key) => if open && key == "Escape" then false else open
    case ItemSelected => if Truthy(closeOnSelected) then false else open
    case ButtonKeydown(_, _) => open
  }

  /** The open state after a sequence of events. */
  function Run(open: bool, closeOnSelected: Value, events: seq<Event>): bool {
    if events == [] then open else Run(Next(open, closeOnSelected, events[0]), closeOnSelected, events[1..])
  }

  /** No handler opens the menu: every transition only ever closes it. */
  lemma NextOnlyCloses(open: bool, closeOnSelected: Value, event: Event)
    ensures Next(open, closeOnSelected, event) ==> open
  {
  }

  /** Whatever the events, a closed menu stays closed and an open one can
      only become closed. */
  lemma {:induction false} RunOnlyCloses(open: bool, closeOnSelected: Value, events: seq<Event>)
    ensures Run(open, closeOnSelected, events) ==> open
  {
    if events != [] {
      RunOnlyCloses(Next(open, closeOnSelected, events[0]), closeOnSelected, events[1..]);
    }
  }

  /** Escape closes an open menu, does nothing to a closed one, and so a
      second Escape changes nothing. */
  lemma EscapeIdempotent(open: bool, closeOnSelected: Value)
    ensures Next(open, closeOnSelected, WindowKeydown("Escape")) == false
    ensures var once := Next(open, closeOnSelected, WindowKeydown("Escape"));
            Next(once, closeOnSelected, WindowKeydown("Escape")) == once
  {
  }

  /** A click inside the menu, and any key on the button, leave the state as
      it is. */
  lemma InsideEventsAreNoOps(open: bool, closeOnSelected: Value, key: string, hasFirstItem: bool)
    ensures Next(open, closeOnSelected, WindowClick(true)) == open
    ensures Next(open, closeOnSelected, ButtonKeydown(key, hasFirstItem)) == open
  {
  }

  /** The props a menu accepts; `items` is left out when not given. */
  datatype GivenProps = GivenProps(icon: Value, items: Option<seq<map<string, Value>>>, title: Value, closeOnSelected: Value)

  /** The props once the defaults are applied. */
  datatype Props = Props(icon: Value, items: seq<map<string, Value>>, title: Value, closeOnSelected: Value)

  /** `defaultProps`: a menu given no items has an empty list of items;
      every other prop is passed as given. */
  function WithDefaultProps(given: GivenProps): (props: Props)
    ensures given.items.None? ==> props.items == []
    ensures given.items.Some? ==> props.items == given.items.value
    ensures props.icon == given.icon && props.title == given.title && props.closeOnSelected == given.closeOnSelected
  {
    Props(given.icon, if given.items.Some? then given.items.value else [], given.title, given.closeOnSelected)
  }

  class DropdownMenu {
    var open: bool
    const props: Props
    const isMobile: bool    // `env.device.isMobile`

    constructor (given: GivenProps, isMobile: bool)
      ensures !open
      ensures props == WithDefaultProps(given) && this.isMobile == isMobile
    {
      props := WithDefaultProps(given);
      this.isMobile := isMobile;
      open := false;
    }

    /** By default no caret is shown. */
    function DisplayCaret(): (caret: bool)
      ensures !caret
    {
      false
    }

    /** A chevron is shown on mobile devices. */
    function DisplayChevron(): (chevron: bool)
      ensures chevron == isMobile
    {
      isMobile
    }

    function Icon(): Value {
      props.icon
    }

    function Items(): seq<map<string, Value>> {
      props.items
    }

    function Title(): Value {
      props.title
    }

    /** An arrow key on the button moves the focus to the first item, when
        there is one, and prevents the key's default action; the open state
        is not touched. */
    method OnButtonKeydown(key: string, hasFirstItem: bool) returns (focusMoved: bool)
      ensures focusMoved <==> IsArrowKey(key) && hasFirstItem
    {
      focusMoved := false;
      if key == "ArrowLeft" || key == "ArrowRight" || key == "ArrowUp" || key == "ArrowDown" {
        if hasFirstItem {
          focusMoved := true;
        }
      }
    }

    /** With `closeOnSelected`, selecting an item closes the menu. */
    method OnItemSelected()
      modifies this`open
      ensures open == Next(old(open), props.closeOnSelected, ItemSelected)
      ensures Truthy(props.closeOnSelected) ==> !open
      ensures !Truthy(props.closeOnSelected) ==> open == old(open)
    {
      if Truthy(props.closeOnSelected) {
        open := false;
      }
    }

    /** A click outside the menu's element closes an open menu. */
    method OnWindowClick(targetInside: bool)
      modifies this`open
      ensures open == Next(old(open), props.closeOnSelected, WindowClick(targetInside))
      ensures open == (old(open) && targetInside)
    {
      if open && !targetInside {
        open := false;
      }
    }

    /** Escape closes an open menu. */
    method OnWindowKeydown(key: string)
      modifies this`open
      ensures open == Next(old(open), props.closeOnSelected, WindowKeydown(key))
      ensures open == (old(open) && key != "Escape")
    {
      if open && key == "Escape" {
        open := false;
      }
    }
  }
}
