/**
 * Programmatic selection of a radio button
 * (de.sebthom.eclipse.commons.ui.Buttons.selectRadio): SWT does not
 * deselect the other radio buttons of a group when one is selected from
 * code, so `selectRadio` does it by hand over the parent's children.
 */
module Buttons {

  /** `SWT.RADIO`, the style bit of a radio button: `1 << 4`. */
  const RADIO: bv32 := 1 << 4

  /** A child control of a composite: whether it is a `Button`, its style bits and its selection. */
  class Control {
    const isButton: bool
    const style: bv32
    var selection: bool

    constructor (isButton: bool, style: bv32, selection: bool)
      ensures this.isButton == isButton && this.style == style && this.selection == selection
    {
      this.isButton := isButton;
      this.style := style;
      this.selection := selection;
    }
  }

  /** `(child.getStyle() & SWT.RADIO) != 0 && child instanceof Button`. */
  predicate IsRadioButton(c: Control)
  {
    c.style & RADIO != 0 && c.isButton
  }

  /**
   * The selection a child of the radio's parent has after `selectRadio`:
   * the radio itself is selected, every other radio button is deselected,
   * every other control keeps its selection.
   */
  function SelectionAfter(c: Control, radio: Control, before: bool): (after: bool)
    ensures c == radio ==> after
    ensures c != radio && IsRadioButton(c) ==> !after
    ensures c != radio && !IsRadioButton(c) ==> after == before
  {
    if c == radio then true
    else if IsRadioButton(c) then false
    else before
  }

  /**
   * `selectRadio(radio)`, where `siblings` are `radio.getParent().getChildren()`.
   * Nothing outside the siblings and the radio changes.
   */
  method SelectRadio(radio: Control, siblings: seq<Control>)
    modifies siblings, radio
    ensures radio.selection
    ensures forall c :: c in siblings ==> c.selection == SelectionAfter(c, radio, old(c.selection))
    ensures forall c :: c in siblings && c != radio && IsRadioButton(c) ==> !c.selection
  {
    for i := 0 to |siblings|
      invariant forall c :: c in siblings ==>
        c.selection == if c in siblings[..i] && c != radio && IsRadioButton(c) then false else old(c.selection)
      invariant radio.selection == old(radio.selection)
    {
      var child := siblings[i];
      assert siblings[..i + 1] == siblings[..i] + [child];
      if radio != child && child.style & RADIO != 0 && child.isButton {
        child.selection := false;
      }
    }
    assert siblings[..|siblings|] == siblings;
    radio.selection := true;
  }

  /**
   * Selecting the same radio a second time changes nothing: the selection
   * state `selectRadio` leaves is a fixed point of it.
   */
  lemma SelectRadioIsIdempotent(c: Control, radio: Control, before: bool)
    ensures SelectionAfter(c, radio, SelectionAfter(c, radio, before)) == SelectionAfter(c, radio, before)
  {
  }
}
