/** The split of a cell line's compounds into controls and inhibitors that
    is offered before the compound dialog opens, and the dialogs' outcome. */
module Roles {
  import opened Frames

  /** The compound names treated as controls by default. */
  const ControlTypes: set<Cell> := {Str("CONTROL"), Str("DMSO"), Str("PBS")}

  datatype Roles = Roles(controls: set<Cell>, inhibitors: set<Cell>)

  /** `unique()` of a column, as a set: order is not modelled. */
  function Distinct(cells: seq<Cell>): (r: set<Cell>)
    ensures forall c :: c in r <==> c in cells
  {
    set i | 0 <= i < |cells| :: cells[i]
  }

  /** The default split: the controls are the compound names in the control
      vocabulary, the inhibitors are all the others. */
  function DefaultRoles(compoundNames: seq<Cell>): (r: Roles)
    ensures r.controls !! r.inhibitors
    ensures r.controls + r.inhibitors == Distinct(compoundNames)
    ensures forall c :: c in r.controls <==> c in compoundNames && c in ControlTypes
    ensures forall c :: c in r.inhibitors <==> c in compoundNames && c !in ControlTypes
  {
    var names := Distinct(compoundNames);
    var controls := names * ControlTypes;
    Roles(controls, names - controls)
  }

  /** A table with no compound from the vocabulary has no default control. */
  lemma NoVocabularyNoControls(compoundNames: seq<Cell>)
    requires forall i :: 0 <= i < |compoundNames| ==> compoundNames[i] !in ControlTypes
    ensures DefaultRoles(compoundNames).controls == {}
    ensures DefaultRoles(compoundNames).inhibitors == Distinct(compoundNames)
  {
  }

  /** How a selection dialog ends: the user applies a choice, or confirms
      closing the window without applying. */
  datatype Dialog<T> = Applied(choice: T) | Closed

  /** What the dialog returns: the applied choice, or the defaults it was
      opened with when the user closes it. */
  function Outcome<T>(defaults: T, d: Dialog<T>): (r: T)
    ensures d.Closed? ==> r == defaults
    ensures d.Applied? ==> r == d.choice
  {
    match d
    case Applied(choice) => choice
    case Closed => defaults
  }
}
