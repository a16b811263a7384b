/** Whole-drag consequences that follow from the handlers' contracts alone. */
module Scenarios {
  import opened Geometry
  import opened Selection
  import opened LassoGesture

  /** A pointer event delivered between a drag's start and its end. */
  datatype PointerEvent = Move(x: int, y: int) | Enter(item: nat)

  /** With hover selection and loop selection both off, a complete drag selects
      nothing, whatever path is drawn and whichever items the pointer crosses. */
  method NoAssistSelectsNothing(classify: Classifier, points: seq<Point>, events: seq<PointerEvent>)
    returns (selected: seq<nat>)
    ensures selected == []
  {
    var lasso := new Lasso(classify);
    lasso.SetItems(|points|);
    lasso.SetHoverSelect(JsBool(false));
    lasso.SetClosePathSelect(JsBool(false));
    lasso.DragStart(points);
    var j := 0;
    while j < |events|
      invariant 0 <= j <= |events|
      invariant fresh(lasso) && fresh(lasso.items)
      invariant lasso.Valid() && lasso.dragging
      invariant !lasso.hoverListening && !lasso.closePathSelect
      invariant forall i :: 0 <= i < lasso.items.Length ==> !lasso.items[i].possible
    {
      match events[j] {
        case Move(x, y) =>
          lasso.DragMove(x, y);
        case Enter(item) =>
          if item < lasso.items.Length {
            lasso.Hover(item);
          }
      }
      j := j + 1;
    }
    lasso.DragEnd();
    lasso.NoneSelected();
    selected := lasso.SelectedItems();
  }

  /** With hover selection on, an item the pointer entered stays tagged for the
      rest of the drag, so it is selected when the drag ends after a later move,
      whatever happened in between. */
  method HoveredItemIsSelected(classify: Classifier, points: seq<Point>, item: nat,
                               events: seq<PointerEvent>, x: int, y: int)
    returns (selected: seq<nat>)
    requires item < |points|
    ensures item in selected
  {
    var lasso := new Lasso(classify);
    lasso.SetItems(|points|);
    lasso.DragStart(points);
    lasso.Hover(item);
    var j := 0;
    while j < |events|
      invariant 0 <= j <= |events|
      invariant fresh(lasso) && fresh(lasso.items) && lasso.items.Length == |points|
      invariant lasso.Valid() && lasso.dragging
      invariant lasso.items[item].hoverSelect
    {
      match events[j] {
        case Move(mx, my) =>
          lasso.DragMove(mx, my);
        case Enter(other) =>
          if other < lasso.items.Length {
            lasso.Hover(other);
          }
      }
      j := j + 1;
    }
    lasso.DragMove(x, y);
    lasso.DragEnd();
    selected := lasso.SelectedItems();
  }
}
