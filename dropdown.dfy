/** The dropdown's listbox: open/closed, the keyboard-focused option and the
    selection, controlled (the `selected` prop) or uncontrolled
    (`internalSelected`). Listeners on `document` are modelled as the events
    they deliver: a key press, a mouse-down outside the widget. */
module Dropdown {
  import opened Wrappers

  datatype Choice = Choice(caption: string, value: string)

  /** A JavaScript number as the focused index can hold it: `(prev + 1) %
      options.length` is `NaN` when there are no options. */
  datatype JsNumber = Finite(n: int) | NaN

  datatype Key = ArrowDown | ArrowUp | Enter | Escape | Other(name: string)

  /** The ArrowDown updater `(prev + 1) % options.length`, for the indices
      the dropdown can hold (-1 and up). There `prev + 1` is never negative,
      so JavaScript's truncating `%` agrees with Dafny's Euclidean one. */
  function DownIndex(prev: JsNumber, count: nat): (r: JsNumber)
    requires prev.Finite? ==> prev.n >= -1
    ensures count > 0 && prev.Finite? && -1 <= prev.n < count ==> r.Finite? && 0 <= r.n < count
    ensures count > 0 && prev == Finite(-1) ==> r == Finite(0)
    ensures count > 0 && prev == Finite(count - 1) ==> r == Finite(0)
    ensures count == 0 ==> r == NaN
  {
    match prev
    case NaN => NaN
    case Finite(p) => if count == 0 then NaN else Finite((p + 1) % count)
  }

  /** The ArrowUp updater: 0 and -1 go to the last option, anything else
      down by one. */
  function UpIndex(prev: JsNumber, count: nat): (r: JsNumber)
    ensures count > 0 && prev.Finite? && -1 <= prev.n < count ==> r.Finite? && 0 <= r.n < count
    ensures prev == Finite(0) || prev == Finite(-1) ==> r == Finite(count - 1)
    ensures prev == NaN ==> r == NaN
  {
    match prev
    case NaN => NaN
    case Finite(p) => if p == 0 || p == -1 then Finite(count - 1) else Finite(p - 1)
  }

  /** On the options, ArrowDown moves to the next index modulo the count. */
  lemma DownIsSuccessorModulo(p: int, count: nat)
    requires count > 0 && -1 <= p < count
    ensures DownIndex(Finite(p), count) == Finite(if p == count - 1 then 0 else p + 1)
  {
    if p < count - 1 {
      assert (p + 1) % count == p + 1;
    } else {
      assert (p + 1) % count == 0 by {
        assert p + 1 == 1 * count + 0;
      }
    }
  }

  /** On a focused option the arrows undo each other. */
  lemma ArrowsInverse(p: int, count: nat)
    requires 0 <= p < count
    ensures UpIndex(DownIndex(Finite(p), count), count) == Finite(p)
    ensures DownIndex(UpIndex(Finite(p), count), count) == Finite(p)
  {
    DownIsSuccessorModulo(p, count);
    var up := if p == 0 then count - 1 else p - 1;
    DownIsSuccessorModulo(up, count);
  }

  /** `selected ?? internalSelected`: the prop wins whenever it is given. */
  function FinalSelected(selected: Option<Choice>, internalSelected: Option<Choice>): (r: Option<Choice>)
    ensures selected.Some? ==> r == selected
    ensures selected.None? ==> r == internalSelected
  {
    if selected.Some? then selected else internalSelected
  }

  class Dropdown {
    const options: seq<Choice>
    /** The `selected` prop; `None` is its default, `null`. */
    const selected: Option<Choice>

    var isOpen: bool
    var focusedIndex: JsNumber
    var internalSelected: Option<Choice>

    /** The focused index is -1 or an option's index; it is `NaN` only
        when there are no options. */
    ghost predicate Valid()
      reads this
    {
      match focusedIndex
      case NaN => |options| == 0
      case Finite(p) => -1 <= p < |options|
    }

    constructor (options: seq<Choice>, selected: Option<Choice>)
      ensures Valid()
      ensures this.options == options && this.selected == selected
      ensures !isOpen && focusedIndex == Finite(-1) && internalSelected == None
    {
      this.options := options;
      this.selected := selected;
      isOpen := false;
      focusedIndex := Finite(-1);
      internalSelected := None;
    }

    /** The selection shown on the button. */
    function Shown(): Option<Choice>
      reads this
    {
      FinalSelected(selected, internalSelected)
    }

    /** The button: flip open/closed, keep the focused option. */
    method ToggleDropdown()
      requires Valid()
      modifies this
      ensures Valid()
      ensures isOpen == !old(isOpen)
      ensures focusedIndex == old(focusedIndex) && internalSelected == old(internalSelected)
    {
      isOpen := !isOpen;
    }

    method CloseDropdown()
      requires Valid()
      modifies this
      ensures Valid()
      ensures !isOpen && focusedIndex == Finite(-1)
      ensures internalSelected == old(internalSelected)
    {
      isOpen := false;
      focusedIndex := Finite(-1);
    }

    /** `handleSelect(option)`: remember the option only when uncontrolled,
        report it to `onSelect`, close. */
    method HandleSelect(option: Choice) returns (reported: Choice)
      requires Valid()
      modifies this
      ensures Valid()
      ensures reported == option
      ensures internalSelected == if selected.None? then Some(option) else old(internalSelected)
      ensures Shown() == Some(if selected.Some? then selected.value else option)
      ensures !isOpen && focusedIndex == Finite(-1)
    {
      if selected.None? {
        internalSelected := Some(option);
      }
      reported := option;
      CloseDropdown();
    }

    /** `handleKeyDown`, listening only while open. Returns the option
        reported to `onSelect`, if any. */
    method HandleKeyDown(key: Key) returns (reported: Option<Choice>)
      requires Valid()
      modifies this
      ensures Valid()
      ensures !old(isOpen) ==> isOpen == old(isOpen) && focusedIndex == old(focusedIndex) &&
                               internalSelected == old(internalSelected) && reported == None
      ensures old(isOpen) && key == ArrowDown ==>
                isOpen && focusedIndex == DownIndex(old(focusedIndex), |options|) &&
                internalSelected == old(internalSelected) && reported == None
      ensures old(isOpen) && key == ArrowUp ==>
                isOpen && focusedIndex == UpIndex(old(focusedIndex), |options|) &&
                internalSelected == old(internalSelected) && reported == None
      ensures old(isOpen) && key == Enter && old(focusedIndex).Finite? && old(focusedIndex).n >= 0 ==>
                reported == Some(options[old(focusedIndex).n]) && !isOpen && focusedIndex == Finite(-1) &&
                internalSelected == (if selected.None? then reported else old(internalSelected))
      ensures old(isOpen) && key == Enter && !(old(focusedIndex).Finite? && old(focusedIndex).n >= 0) ==>
                isOpen && focusedIndex == old(focusedIndex) && internalSelected == old(internalSelected) && reported == None
      ensures old(isOpen) && key == Escape ==>
                !isOpen && focusedIndex == Finite(-1) && internalSelected == old(internalSelected) && reported == None
      ensures old(isOpen) && key.Other? ==>
                isOpen && focusedIndex == old(focusedIndex) && internalSelected == old(internalSelected) && reported == None
    {
      reported := None;
      if !isOpen {
        return;
      }
      match key
      case ArrowDown =>
        focusedIndex := DownIndex(focusedIndex, |options|);
      case ArrowUp =>
        focusedIndex := UpIndex(focusedIndex, |options|);
      case Enter =>
        if focusedIndex.Finite? && focusedIndex.n >= 0 {
          var option := HandleSelect(options[focusedIndex.n]);
          reported := Some(option);
        }
      case Escape =>
        CloseDropdown();
      case Other(_) =>
    }

    /** A mouse-down on the document: outside the widget it closes the list;
        the listener exists only while the list is open. */
    method MouseDown(insideWidget: bool)
      requires Valid()
      modifies this
      ensures Valid()
      ensures old(isOpen) && !insideWidget ==> !isOpen && focusedIndex == Finite(-1)
      ensures !(old(isOpen) && !insideWidget) ==> isOpen == old(isOpen) && focusedIndex == old(focusedIndex)
      ensures internalSelected == old(internalSelected)
    {
      if isOpen && !insideWidget {
        CloseDropdown();
      }
    }

    /** The pointer enters option `i`, which is rendered only while open. */
    method MouseEnterOption(i: nat)
      requires Valid() && isOpen && i < |options|
      modifies this
      ensures Valid()
      ensures focusedIndex == Finite(i) && isOpen && internalSelected == old(internalSelected)
    {
      focusedIndex := Finite(i);
    }

    /** A click on option `i`. */
    method ClickOption(i: nat) returns (reported: Choice)
      requires Valid() && isOpen && i < |options|
      modifies this
      ensures Valid()
      ensures reported == options[i] && !isOpen && focusedIndex == Finite(-1)
      ensures internalSelected == if selected.None? then Some(options[i]) else old(internalSelected)
    {
      reported := HandleSelect(options[i]);
    }
  }
}
