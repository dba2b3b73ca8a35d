/** The toggle switch: `isChecked` flips on a click, Space or Enter unless
    the switch is disabled, and the new value goes to `onChange` when one
    is given. */
module ToggleSwitch {
  import opened Wrappers

  /** The checked state after one toggle. */
  function Toggled(isChecked: bool, disabled: bool): (r: bool)
    ensures disabled ==> r == isChecked
    ensures !disabled ==> r != isChecked
  {
    if disabled then isChecked else !isChecked
  }

  /** Two toggles restore the state. */
  lemma ToggleTwice(isChecked: bool, disabled: bool)
    ensures Toggled(Toggled(isChecked, disabled), disabled) == isChecked
  {
  }

  /** The keys that toggle a focused switch. */
  predicate IsToggleKey(key: string) {
    key == " " || key == "Enter"
  }

  class ToggleSwitch {
    const disabled: bool
    /** Whether an `onChange` prop is given; `onChange?.()` calls nothing
        otherwise. */
    const hasOnChange: bool
    var isChecked: bool

    constructor (defaultChecked: bool, disabled: bool, hasOnChange: bool)
      ensures isChecked == defaultChecked
      ensures this.disabled == disabled && this.hasOnChange == hasOnChange
    {
      this.disabled := disabled;
      this.hasOnChange := hasOnChange;
      isChecked := defaultChecked;
    }

    /** `handleToggle`; returns what `onChange` is called with. */
    method HandleToggle() returns (reported: Option<bool>)
      modifies this
      ensures isChecked == Toggled(old(isChecked), disabled)
      ensures reported == if !disabled && hasOnChange then Some(isChecked) else None
    {
      if disabled {
        return None;
      }
      var newValue := !isChecked;
      isChecked := newValue;
      reported := if hasOnChange then Some(newValue) else None;
    }

    /** `handleKeyDown`: Space and Enter toggle and suppress the default
        action, other keys do nothing. */
    method HandleKeyDown(key: string) returns (defaultPrevented: bool, reported: Option<bool>)
      modifies this
      ensures defaultPrevented <==> IsToggleKey(key)
      ensures IsToggleKey(key) ==>
                (isChecked == Toggled(old(isChecked), disabled) &&
                 reported == (if !disabled && hasOnChange then Some(isChecked) else None))
      ensures !IsToggleKey(key) ==> isChecked == old(isChecked) && reported == None
    {
      defaultPrevented := IsToggleKey(key);
      reported := None;
      if defaultPrevented {
        reported := HandleToggle();
      }
    }
  }
}
