/**
 * The click handler as the page actually registers it. `render` ends by
 * calling `addEventListeners`, which adds one more click listener to the same
 * links container every time; a click therefore runs the handler once per
 * render so far. The remove handlers' later runs find their row or box already
 * detached and change nothing; the add handlers' later runs add again.
 */
module Findings {
  import opened Document
  import opened EditView

  /** A click on one of the edit-mode buttons. */
  datatype Click =
    | RemoveLinkClick(section: nat, row: nat)
    | RemoveSectionClick(section: nat)
    | AddLinkClick(section: nat)
    | AddSectionClick

  /** The clicked button exists in the view. */
  predicate Targets(v: View, c: Click) {
    match c
    case RemoveLinkClick(s, l) => s < |v| && l < |v[s].rows|
    case RemoveSectionClick(s) => s < |v|
    case AddLinkClick(s) => s < |v|
    case AddSectionClick => true
  }

  /** One click, with `listeners` click listeners registered on the container. */
  function ClickAsWritten(v: View, c: Click, listeners: nat): (w: View)
    requires Targets(v, c)
    ensures c.AddSectionClick? ==> w == v + seq(listeners, _ => NewSectionBox)
    ensures c.AddLinkClick? ==>
      |w| == |v| && w[c.section].rows == v[c.section].rows + seq(listeners, _ => BlankRow)
    ensures c.AddLinkClick? ==>
      w[c.section].titleInput == v[c.section].titleInput &&
      forall i :: 0 <= i < |v| && i != c.section ==> w[i] == v[i]
    ensures c.RemoveLinkClick? && listeners > 0 ==> w == WithoutRow(v, c.section, c.row)
    ensures c.RemoveSectionClick? && listeners > 0 ==> w == WithoutBox(v, c.section)
    ensures listeners == 0 ==> w == v
    decreases listeners
  {
    if listeners == 0 then v
    else match c
      case RemoveLinkClick(s, l) => WithoutRow(v, s, l)
      case RemoveSectionClick(s) => WithoutBox(v, s)
      case AddLinkClick(s) => ClickAsWritten(WithBlankRow(v, s), c, listeners - 1)
      case AddSectionClick => ClickAsWritten(WithNewSection(v), c, listeners - 1)
  }

  /**
   * After the page loads (one render) and Edit is clicked (a second render),
   * one click on Add Section inserts two "New Section" boxes, and saving then
   * posts two new sections where one was meant.
   */
  lemma AddSectionAfterEnteringEditMode(d: Doc)
    ensures ClickAsWritten(RenderView(d, true), AddSectionClick, 2) ==
      RenderView(d, true) + [NewSectionBox, NewSectionBox]
    ensures Reconciled(ClickAsWritten(RenderView(d, true), AddSectionClick, 2)).sections ==
      Cleaned(d).sections + [Section(NewSectionTitle, []), Section(NewSectionTitle, [])]
  {
    var v := RenderView(d, true);
    assert seq(2, _ => NewSectionBox) == [NewSectionBox, NewSectionBox];
    ReconcileViewAppend(v, [NewSectionBox, NewSectionBox]);
    assert [NewSectionBox, NewSectionBox][1..] == [NewSectionBox];
    assert [NewSectionBox][1..] == [];
    RenderReconcileRoundTrip(d);
  }

  /** With one listener, as intended, a click does exactly what its handler does once. */
  lemma OneListenerIsOneRun(v: View, c: Click)
    requires Targets(v, c)
    ensures c.AddSectionClick? ==> ClickAsWritten(v, c, 1) == WithNewSection(v)
    ensures c.AddLinkClick? ==> ClickAsWritten(v, c, 1) == WithBlankRow(v, c.section)
    ensures c.RemoveLinkClick? ==> ClickAsWritten(v, c, 1) == WithoutRow(v, c.section, c.row)
    ensures c.RemoveSectionClick? ==> ClickAsWritten(v, c, 1) == WithoutBox(v, c.section)
  {
  }
}
