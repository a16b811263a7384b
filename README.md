# Lasso selection gesture — Dafny model

This project models the lasso gesture of `src/utilities/lasso.js`, which is adapted from d3-lasso.
The user drags the pointer to draw a freehand path. Every registered item carries a selection
record with four flags: `possible`, `selected`, `hoverSelect` and `loopSelect`. It also carries
a representative point, `lassoPoint`.

- A drag start resets every record.
- Every move appends the raw pointer sample to `drawnCoords`. It then decides whether the loop
  is closed, which holds when the sample lies within `closePathDistance` of the origin. Last, it
  reclassifies every item:
  - `loopSelect` is true when loop selection is on, the path is closed and the point-in-polygon
    classifier puts the item's point inside the drawn path or on its edge;
  - `possible` is `hoverSelect || loopSelect`.
- Entering an item while the hover handler is attached makes its `hoverSelect` flag true, and
  the flag stays true for the rest of the drag.
- The drag end moves `possible` into `selected`.

The model has four modules, one file each:

- `geometry.dfy` (`Geometry`): integer points and the loop-closure test, written as an exact
  squared comparison. The point-in-polygon classifier (the `robust-point-in-polygon` package)
  is a function-typed value; an item is enclosed when the classifier's result is below 1.
- `selection.dfy` (`Selection`): the per-item record and the order-preserving filter behind the
  four queries. Items are identified by their position in the registry.
- `lasso.dfy` (`LassoGesture`): class `Lasso`. Its fields are the closure variables of the
  source. The item records live in an `array` that the handlers update in place, one `forEach`
  loop per handler. `Valid()` is the object invariant:
  - the origin is the first drawn point;
  - a possible item is hover-tagged or loop-enclosed;
  - outside a drag no item is possible and the hover handler is detached;
  - during a drag without the hover handler, no item is hover-tagged.
- `scenarios.dfy` (`Scenarios`): two whole drags derived from the handlers' contracts alone.

The classifier is given to the constructor. The raw pointer coordinates are parameters of
`DragMove`. Each item's bounding-box centre is a parameter of `DragStart`. User hooks are
opaque: the model keeps the hook table (one slot each for `start`, `draw` and `end`) and a log (`fired`) of the hooks run, in order.
`dragging` is a ghost phase flag. It is true between `DragStart` and `DragEnd`, the only time
the drag event source delivers moves.

Three behaviours of the code that are easy to miss, and that the model keeps:
- `possible` is recomputed only on a move. A hover does not recompute it. So hovering an item
  after the last move of a drag does not by itself select it: it is selected only if the last
  move already made it possible.
- `dragstart` attaches the hover handler when hover selection is on, but it never detaches one.
  Only `dragend` detaches it. The model keeps this: `hoverListening := hoverListening ||
  hoverSelect`.
- The `items` setter gives each item a record holding only `possible` and `selected`. The model
  sets the other two flags to false and the point to `(0, 0)`. No handler reads them before the
  next drag start.

## Model

| member | source | states |
|---|---|---|
| `LassoGesture.Lasso.constructor` | src/utilities/lasso.js:5-16 | The defaults: close distance 75, loop and hover selection on, enabled, three no-op hooks, no items, empty path. |
| `LassoGesture.Lasso.DragStart` | src/utilities/lasso.js:70-103 | Every item's four flags become false and its point becomes the measured centre. The path is emptied and the rendered path cleared. The hover handler is attached iff hover selection is on (when starting from idle). The start hook runs. Nothing else changes. |
| `LassoGesture.Lasso.DragMove` | src/utilities/lasso.js:105-170 | Exactly one point `(x, y)` is appended to `drawnCoords`. The first move sets the origin to that point, so it closes the path iff `closePathDistance >= 0`. `isPathClosed` is the inclusive distance test against the origin. For each item, `loopSelect` equals `isPathClosed && closePathSelect && enclosed(drawnCoords, lassoPoint)`, and `possible` is `hoverSelect` or `loopSelect`. `hoverSelect`, `selected` and the point are unchanged. With the hover handler detached and loop selection off, no item is possible. The draw hook runs. |
| `LassoGesture.Lasso.ResetItems` | src/utilities/lasso.js:80-91 | The reset loop of a drag start: each record has all four flags false and the given representative point. |
| `LassoGesture.Lasso.ReclassifyItems` | src/utilities/lasso.js:161-167 | The move's per-item loop: each record gets `loopSelect` = active and enclosed, and `possible` = its `hoverSelect` or `loopSelect`. Everything else in the record is kept. |
| `LassoGesture.Lasso.CommitItems` | src/utilities/lasso.js:176-179 | The end loop: each record's `selected` becomes its prior `possible`, and `possible` becomes false. |
| `LassoGesture.Lasso.Hover` | src/utilities/lasso.js:94-99 | The entered item's `hoverSelect` becomes true iff the hover handler is attached; it is never reset. No other field and no other item changes. |
| `LassoGesture.Lasso.DragEnd` | src/utilities/lasso.js:172-200 | Every item's `selected` becomes its prior `possible`, and `possible` becomes false. The hover handler is detached. The rendered path is closed if some item was possible; otherwise it is cleared. The end hook runs. |
| `LassoGesture.Lasso.Clear` | src/utilities/lasso.js:60-68 | Every item's `selected` becomes false and its other fields are unchanged. The rendered path is cleared and the end hook runs. |
| `LassoGesture.Lasso.SetItems` | src/utilities/lasso.js:204-215 | A fresh registry of `n` items, each neither possible nor selected. The rest of the state is unchanged. |
| `LassoGesture.Lasso.SetClosePathDistance` | src/utilities/lasso.js:246-250 | Stores the given distance. |
| `LassoGesture.Lasso.SetClosePathSelect` | src/utilities/lasso.js:253-257 | Loop selection is on iff the argument is exactly the boolean `true`. |
| `LassoGesture.Lasso.SetHoverSelect` | src/utilities/lasso.js:267-271 | Hover selection is on iff the argument is exactly the boolean `true`. |
| `LassoGesture.Lasso.SetEnabled` | src/utilities/lasso.js:292-301 | `enabled` is true iff the argument is exactly the boolean `true`. |
| `LassoGesture.Lasso.On` | src/utilities/lasso.js:274-282 | A hook under `start`, `draw` or `end` replaces that entry; any other name leaves the hook table unchanged. |
| `LassoGesture.Lasso.PossibleItems` | src/utilities/lasso.js:218-222 | Exactly the possible items, ascending in registry order. |
| `LassoGesture.Lasso.SelectedItems` | src/utilities/lasso.js:225-229 | Exactly the selected items, ascending in registry order. |
| `LassoGesture.Lasso.NotPossibleItems` | src/utilities/lasso.js:232-236 | Exactly the items that are not possible, ascending in registry order. |
| `LassoGesture.Lasso.NotSelectedItems` | src/utilities/lasso.js:239-243 | Exactly the items that are not selected, ascending in registry order. |
| `LassoGesture.Lasso.PossiblePartition` | src/utilities/lasso.js:218-236 | Every item is in exactly one of the possible and not-possible results, and their lengths add up to the number of items. |
| `LassoGesture.Lasso.SelectedPartition` | src/utilities/lasso.js:225-243 | Every item is in exactly one of the selected and not-selected results, and their lengths add up to the number of items. |
| `LassoGesture.Lasso.NoneSelected` | src/utilities/lasso.js:182-188 | The selected-items filter is empty iff no item is selected. This is the test `dragend` uses to choose between clearing and closing the path. |
| `Selection.Matching` | src/utilities/lasso.js:218-243 | The filter returns exactly the positions whose flag has the wanted value, each once, in ascending order. |
| `Selection.MatchingPartitions` | src/utilities/lasso.js:218-243 | The filter for a flag and the filter for its negation partition the registry. |
| `Geometry.SquaredDistance` | src/utilities/lasso.js:138-140 | The squared distance is never negative and is zero exactly when the two points coincide. |
| `Geometry.WithinDistance` | src/utilities/lasso.js:138-152 | The closure test: true only for `d >= 0`; a point within `d` differs from the origin by at most `d` in each coordinate; a point is within `d` of itself exactly when `d >= 0`. |
| `Geometry.Enclosed` | src/utilities/lasso.js:164 | The `< 1` test on the classifier's answer holds exactly when that answer reads as inside or on the boundary. |
| `Selection.Reclassified` | src/utilities/lasso.js:162-166 | A record after a move: `loopSelect` iff loop selection is active and the point is enclosed; `possible` iff `hoverSelect` or `loopSelect`; hover tag, selection and point kept. |
| `Geometry.WithinDistanceIsEuclidean` | src/utilities/lasso.js:138-152 | The squared test agrees with the source's `sqrt(dx² + dy²) <= closePathDistance`, boundary inclusive, for the non-negative root of the squared distance. |
| `Geometry.WithinDistanceOfSelf` | src/utilities/lasso.js:121-152 | A sample is within `d` of itself iff `d >= 0`, which is why the first move of a drag closes the path. |
| `Scenarios.NoAssistSelectsNothing` | src/utilities/lasso.js:94-179 | With hover and loop selection both off, a drag of any moves and hovers ends with an empty selection. |
| `Scenarios.HoveredItemIsSelected` | src/utilities/lasso.js:94-179 | With hover selection on, an item entered during a drag stays tagged through any later events. It is selected when the drag ends after a further move. |

## Left out

- Rendering is left out: the `g`, `dyn_path`, `close_path` and `origin_node` elements, the `tpath` and closing-segment strings, and the origin marker (lasso.js:19-33, 121-133, 143-159). Only the freehand path's state (`Cleared`, `Open`, `Closed`) is kept, as `pathView`.
- The d3 drag wiring, `enable`, `disable` and `targetArea` are left out, because they attach foreign event-library listeners (lasso.js:45-58, 285-289).
- Touch/mouse coordinate extraction, `pointer` and `zoomTransform.invert` are left out, along with the `zoomTransform` accessor. They are event plumbing and float affine maths used only for rendering (lasso.js:107-118, 304-308). Raw coordinates are integer parameters of `DragMove`.
- `getBoundingClientRect` and `Math.round` for `lassoPoint` are left out: that is DOM geometry (lasso.js:86-90). The rounded centres are a parameter of `DragStart`.
- The internals of the point-in-polygon classifier are left out, because it is a foreign package. It is a function-typed value given to the constructor.
- The bodies of user hooks are left out: only which hook ran is logged.
- The getters (calls with no argument) are left out, because the fields are read directly. So is the `isPathClosed` setter (lasso.js:259-264): the next move overwrites its value.
- `LassoGesture.Lasso.SetEnabled`: it does not model the `enable()`/`disable()` call that follows the store, because those attach and detach foreign drag listeners.
- `LassoGesture.Lasso.SetClosePathDistance`: it accepts only integers. JavaScript numbers may be fractional, NaN or infinite, and coordinates are modelled as integers too.
- `LassoGesture.Lasso.DragMove`: it requires a drag in progress, because the drag event source delivers moves only between start and end. Before the first drag start, the source would fail on an undefined `drawnCoords`.
- `LassoGesture.Lasso.SetItems`: it requires that no drag is in progress. The items setter does no check, but replacing items mid-drag leaves the hover handler on the old items and leaves the new records without a point.
- The default registry is left out as a failure: until the items setter runs, the source's registry is a plain array (lasso.js:6), so `items.nodes()` and `items.on` throw in `clear`, `dragstart`, `dragmove` and `dragend` (lasso.js:61, 80, 161, 174), and those handlers stop part-way without running their hooks. The model treats the default registry as an empty one, on which every handler completes and runs its hook.
- The unattached lasso is left out: the class models the lasso after it has been applied to a selection. Before that, `clear`, `enable` and `disable` are declared but not yet assigned (lasso.js:16, 50-68), so `lasso.clear()` and `lasso.enabled(v)` throw.
- Non-function hooks are left out: a hook stored as a non-function, such as `on("end", null)` (lasso.js:279), throws where it is called (lasso.js:67, 102, 169, 199), after every state change of that handler. `Handler` has no such case, so the model always completes the call.
- Shared records are left out: a DOM node that appears twice in the selection shares one `__lasso` record, so the handlers update both positions together. The model's array gives each position its own record, so it does not capture that aliasing.
- `LassoGesture.Lasso.Hover`: it requires a registered item, because mouseover events come only from registered items.
