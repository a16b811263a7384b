/** The lasso gesture: closure state of one lasso instance, the drag handlers
    that drive each item's selection record, the configuration setters and the
    four selection queries. */
module LassoGesture {
  import opened Geometry
  import opened Selection

  /** The dynamically typed argument handed to a boolean option setter. */
  datatype JsValue =
    | JsBool(b: bool)
    | JsNumber(n: real)
    | JsString(s: string)
    | JsNull
    | JsUndefined
    | JsObject(id: nat)

  /** A user notification hook; its body is opaque, so only its identity is kept. */
  datatype Handler = NoOp | Callback(id: nat)

  /** What the rendered freehand path currently shows. */
  datatype PathView = Cleared | Open | Closed

  /** The hook table: one slot per event name the table accepts. */
  datatype Hooks = Hooks(start: Handler, draw: Handler, end: Handler)

  /** The event names the hook table accepts. */
  const EventTypes: set<string> := {"start", "draw", "end"}

  class Lasso {
    /** The point-in-polygon primitive. */
    const classify: Classifier

    /** One selection record per registered item. */
    var items: array<Item>

    // Options.
    var closePathDistance: int
    var closePathSelect: bool
    var hoverSelect: bool
    var enabled: bool
    var on: Hooks

    // Gesture state.
    var isPathClosed: bool
    var drawnCoords: seq<Point>
    var origin: Point
    /** Whether the rendered path has been started in this drag, i.e. whether
        the first move has already recorded the origin. */
    var pathStarted: bool
    /** Whether the mouseover tagging handler is attached to the items. */
    var hoverListening: bool
    var pathView: PathView
    /** The hooks run so far, in order. */
    var fired: seq<Handler>

    /** Between a drag start and its end. */
    ghost var dragging: bool

    ghost predicate Valid()
      reads this, items
    {
      (pathStarted <==> drawnCoords != []) &&
      (drawnCoords != [] ==> origin == drawnCoords[0]) &&
      (!dragging ==> !hoverListening) &&
      (forall i :: 0 <= i < items.Length ==> items[i].possible ==> items[i].hoverSelect || items[i].loopSelect) &&
      (!dragging ==> forall i :: 0 <= i < items.Length ==> !items[i].possible) &&
      (dragging && !hoverListening ==> forall i :: 0 <= i < items.Length ==> !items[i].hoverSelect)
    }

    /** A fresh lasso with the default options and no items. */
    constructor (classify: Classifier)
      ensures Valid() && fresh(items) && items.Length == 0
      ensures this.classify == classify
      ensures closePathDistance == 75 && closePathSelect && hoverSelect && enabled
      ensures on == Hooks(NoOp, NoOp, NoOp)
      ensures !isPathClosed && drawnCoords == [] && !pathStarted
      ensures !hoverListening && pathView == Cleared && fired == [] && !dragging
    {
      this.classify := classify;
      items := new Item[0];
      closePathDistance := 75;
      closePathSelect := true;
      hoverSelect := true;
      enabled := true;
      on := Hooks(NoOp, NoOp, NoOp);
      isPathClosed := false;
      drawnCoords := [];
      origin := (0, 0);
      pathStarted := false;
      hoverListening := false;
      pathView := Cleared;
      fired := [];
      dragging := false;
    }

    // ---------------------------------------------------------------- queries

    /** The items that would be selected if the drag ended now, in registry order. */
    function PossibleItems(): (r: seq<nat>)
      reads this, items
      ensures forall k: int :: k in r <==> 0 <= k < items.Length && items[k].possible
      ensures Increasing(r)
    {
      Matching(items[..], Possible, true)
    }

    function NotPossibleItems(): (r: seq<nat>)
      reads this, items
      ensures forall k: int :: k in r <==> 0 <= k < items.Length && !items[k].possible
      ensures Increasing(r)
    {
      Matching(items[..], Possible, false)
    }

    /** The items of the finalised selection, in registry order. */
    function SelectedItems(): (r: seq<nat>)
      reads this, items
      ensures forall k: int :: k in r <==> 0 <= k < items.Length && items[k].selected
      ensures Increasing(r)
    {
      Matching(items[..], Selected, true)
    }

    function NotSelectedItems(): (r: seq<nat>)
      reads this, items
      ensures forall k: int :: k in r <==> 0 <= k < items.Length && !items[k].selected
      ensures Increasing(r)
    {
      Matching(items[..], Selected, false)
    }

    /** The possible and the not-possible items together are all items, each once. */
    lemma PossiblePartition()
      ensures |PossibleItems()| + |NotPossibleItems()| == items.Length
      ensures forall k :: 0 <= k < items.Length ==> (k in PossibleItems() <==> k !in NotPossibleItems())
    {
      MatchingPartitions(items[..], Possible);
    }

    /** The selected and the not-selected items together are all items, each once. */
    lemma SelectedPartition()
      ensures |SelectedItems()| + |NotSelectedItems()| == items.Length
      ensures forall k :: 0 <= k < items.Length ==> (k in SelectedItems() <==> k !in NotSelectedItems())
    {
      MatchingPartitions(items[..], Selected);
    }

    /** The selection is empty exactly when no item is selected. */
    lemma NoneSelected()
      ensures SelectedItems() == [] <==> forall k :: 0 <= k < items.Length ==> !items[k].selected
    {
      if SelectedItems() != [] {
        var k := SelectedItems()[0];
        assert k in SelectedItems();
      }
    }

    // ---------------------------------------------------------- drag handlers

    /** Start of a drag. points[i] is item i's representative point (the rounded
        centre of its bounding box), measured by the caller. */
    method DragStart(points: seq<Point>)
      requires Valid() && |points| == items.Length
      modifies this, items
      ensures Valid() && items == old(items) && dragging
      ensures forall i :: 0 <= i < items.Length ==> items[i] == Item(false, false, false, false, points[i])
      ensures drawnCoords == [] && !pathStarted && pathView == Cleared
      ensures hoverListening == (old(hoverListening) || hoverSelect)
      ensures !old(dragging) ==> hoverListening == hoverSelect
      ensures fired == old(fired) + [on.start]
      ensures on == old(on) && origin == old(origin) && isPathClosed == old(isPathClosed)
      ensures closePathDistance == old(closePathDistance) && closePathSelect == old(closePathSelect)
      ensures hoverSelect == old(hoverSelect) && enabled == old(enabled)
    {
      drawnCoords := [];
      pathStarted := false;
      pathView := Cleared;
      ResetItems(points);
      if hoverSelect {
        hoverListening := true;
      }
      dragging := true;
      fired := fired + [on.start];
    }

    /** One pointer-move sample at raw screen coordinates (x, y). */
    method DragMove(x: int, y: int)
      requires Valid() && dragging
      modifies this, items
      ensures Valid() && items == old(items) && dragging
      ensures drawnCoords == old(drawnCoords) + [(x, y)]
      ensures origin == (if old(drawnCoords) == [] then (x, y) else old(origin))
      ensures isPathClosed == WithinDistance((x, y), origin, closePathDistance)
      ensures old(drawnCoords) == [] ==> (isPathClosed <==> closePathDistance >= 0)
      ensures forall i :: 0 <= i < items.Length ==>
        items[i].hoverSelect == old(items[i].hoverSelect) &&
        items[i].selected == old(items[i].selected) &&
        items[i].lassoPoint == old(items[i].lassoPoint)
      ensures forall i :: 0 <= i < items.Length ==>
        items[i].loopSelect == (isPathClosed && closePathSelect && Enclosed(classify, drawnCoords, items[i].lassoPoint))
      ensures forall i :: 0 <= i < items.Length ==>
        items[i].possible == (items[i].hoverSelect || items[i].loopSelect)
      ensures !hoverListening && !closePathSelect ==> forall i :: 0 <= i < items.Length ==> !items[i].possible
      ensures pathView == Open && pathStarted
      ensures fired == old(fired) + [on.draw]
      ensures on == old(on) && hoverListening == old(hoverListening)
      ensures closePathDistance == old(closePathDistance) && closePathSelect == old(closePathSelect)
      ensures hoverSelect == old(hoverSelect) && enabled == old(enabled)
    {
      if !pathStarted {
        origin := (x, y);
        pathStarted := true;
      }
      drawnCoords := drawnCoords + [(x, y)];
      isPathClosed := WithinDistance((x, y), origin, closePathDistance);
      if old(drawnCoords) == [] {
        WithinDistanceOfSelf((x, y), closePathDistance);
      }
      pathView := Open;
      ReclassifyItems(isPathClosed && closePathSelect);
      fired := fired + [on.draw];
    }

    /** The per-item pass of a drag start: all flags off, fresh representative points. */
    method ResetItems(points: seq<Point>)
      requires |points| == items.Length
      modifies items
      ensures forall k :: 0 <= k < items.Length ==> items[k] == Item(false, false, false, false, points[k])
    {
      var i := 0;
      while i < items.Length
        invariant 0 <= i <= items.Length
        invariant forall k :: 0 <= k < i ==> items[k] == Item(false, false, false, false, points[k])
      {
        items[i] := items[i].(possible := false, selected := false, hoverSelect := false,
                              loopSelect := false, lassoPoint := points[i]);
        i := i + 1;
      }
    }

    /** The per-item pass of a drag end: what was possible becomes selected. */
    method CommitItems()
      modifies items
      ensures forall k :: 0 <= k < items.Length ==>
        items[k] == old(items[k]).(selected := old(items[k].possible), possible := false)
    {
      var i := 0;
      while i < items.Length
        invariant 0 <= i <= items.Length
        invariant forall k :: 0 <= k < i ==>
          items[k] == old(items[k]).(selected := old(items[k].possible), possible := false)
        invariant forall k :: i <= k < items.Length ==> items[k] == old(items[k])
      {
        items[i] := items[i].(selected := items[i].possible, possible := false);
        i := i + 1;
      }
    }

    /** The per-item pass of a move: every record is reclassified against the
        current path, with loop selection active as given. */
    method ReclassifyItems(loopActive: bool)
      modifies items
      ensures forall k :: 0 <= k < items.Length ==>
        items[k] == Reclassified(old(items[k]), loopActive, Enclosed(classify, drawnCoords, old(items[k]).lassoPoint))
    {
      var i := 0;
      while i < items.Length
        invariant 0 <= i <= items.Length
        invariant forall k :: 0 <= k < i ==>
          items[k] == Reclassified(old(items[k]), loopActive, Enclosed(classify, drawnCoords, old(items[k]).lassoPoint))
        invariant forall k :: i <= k < items.Length ==> items[k] == old(items[k])
      {
        var r := items[i];
        items[i] := Reclassified(r, loopActive, loopActive && Enclosed(classify, drawnCoords, r.lassoPoint));
        i := i + 1;
      }
    }

    /** The pointer enters item i; the tag sticks until the next drag start. */
    method Hover(i: nat)
      requires Valid() && i < items.Length
      modifies items
      ensures Valid()
      ensures items[i] == old(items[i]).(hoverSelect := old(items[i].hoverSelect) || hoverListening)
      ensures forall k :: 0 <= k < items.Length && k != i ==> items[k] == old(items[k])
    {
      if hoverListening {
        items[i] := items[i].(hoverSelect := true);
      }
    }

    /** End of a drag: what was possible becomes the selection. */
    method DragEnd()
      requires Valid()
      modifies this, items
      ensures Valid() && items == old(items) && !dragging && !hoverListening
      ensures forall i :: 0 <= i < items.Length ==>
        items[i] == old(items[i]).(selected := old(items[i].possible), possible := false)
      ensures pathView == (if exists i :: 0 <= i < items.Length && old(items[i].possible) then Closed else Cleared)
      ensures fired == old(fired) + [on.end]
      ensures drawnCoords == old(drawnCoords) && origin == old(origin) && isPathClosed == old(isPathClosed)
      ensures pathStarted == old(pathStarted) && on == old(on)
      ensures closePathDistance == old(closePathDistance) && closePathSelect == old(closePathSelect)
      ensures hoverSelect == old(hoverSelect) && enabled == old(enabled)
    {
      hoverListening := false;
      CommitItems();
      dragging := false;
      NoneSelected();
      assert forall k :: 0 <= k < items.Length ==> items[k].selected == old(items[k].possible);
      if |SelectedItems()| == 0 {
        pathView := Cleared;
      } else {
        pathView := Closed;
      }
      fired := fired + [on.end];
    }

    /** Programmatic reset of the selection. */
    method Clear()
      requires Valid()
      modifies this, items
      ensures Valid() && items == old(items) && dragging == old(dragging)
      ensures forall i :: 0 <= i < items.Length ==> items[i] == old(items[i]).(selected := false)
      ensures pathView == Cleared
      ensures fired == old(fired) + [on.end]
      ensures drawnCoords == old(drawnCoords) && origin == old(origin) && isPathClosed == old(isPathClosed)
      ensures pathStarted == old(pathStarted) && on == old(on) && hoverListening == old(hoverListening)
      ensures closePathDistance == old(closePathDistance) && closePathSelect == old(closePathSelect)
      ensures hoverSelect == old(hoverSelect) && enabled == old(enabled)
    {
      var i := 0;
      while i < items.Length
        invariant 0 <= i <= items.Length
        invariant forall k :: 0 <= k < i ==> items[k] == old(items[k]).(selected := false)
        invariant forall k :: i <= k < items.Length ==> items[k] == old(items[k])
        modifies items
      {
        items[i] := items[i].(selected := false);
        i := i + 1;
      }
      pathView := Cleared;
      fired := fired + [on.end];
    }

    // ---------------------------------------------------------- configuration

    /** Registers n new items, every one neither possible nor selected. */
    method SetItems(n: nat)
      requires Valid() && !dragging
      modifies this
      ensures Valid() && fresh(items) && items.Length == n
      ensures forall i :: 0 <= i < n ==> items[i] == Item(false, false, false, false, (0, 0))
      ensures forall i :: 0 <= i < n ==> !items[i].possible && !items[i].selected
      ensures dragging == old(dragging) && hoverListening == old(hoverListening) && pathView == old(pathView)
      ensures drawnCoords == old(drawnCoords) && origin == old(origin) && isPathClosed == old(isPathClosed)
      ensures pathStarted == old(pathStarted) && on == old(on) && fired == old(fired)
      ensures closePathDistance == old(closePathDistance) && closePathSelect == old(closePathSelect)
      ensures hoverSelect == old(hoverSelect) && enabled == old(enabled)
    {
      var a := new Item[n];
      var i := 0;
      while i < n
        invariant 0 <= i <= n
        invariant forall k :: 0 <= k < i ==> a[k] == Item(false, false, false, false, (0, 0))
        modifies a
      {
        a[i] := Item(false, false, false, false, (0, 0));
        i := i + 1;
      }
      items := a;
    }

    method SetClosePathDistance(d: int)
      requires Valid()
      modifies this`closePathDistance
      ensures Valid() && closePathDistance == d
    {
      closePathDistance := d;
    }

    /** Loop selection is on only when given exactly the boolean true. */
    method SetClosePathSelect(v: JsValue)
      requires Valid()
      modifies this`closePathSelect
      ensures Valid() && closePathSelect == (v == JsBool(true))
    {
      closePathSelect := v == JsBool(true);
    }

    /** Hover selection is on only when given exactly the boolean true. */
    method SetHoverSelect(v: JsValue)
      requires Valid()
      modifies this`hoverSelect
      ensures Valid() && hoverSelect == (v == JsBool(true))
    {
      hoverSelect := v == JsBool(true);
    }

    /** The lasso is enabled only when given exactly the boolean true. */
    method SetEnabled(v: JsValue)
      requires Valid()
      modifies this`enabled
      ensures Valid() && enabled == (v == JsBool(true))
    {
      enabled := v == JsBool(true);
    }

    /** Installs hook f under a known event name; any other name is ignored. */
    method On(event: string, f: Handler)
      requires Valid()
      modifies this`on
      ensures Valid()
      ensures event == "start" ==> on == old(on).(start := f)
      ensures event == "draw" ==> on == old(on).(draw := f)
      ensures event == "end" ==> on == old(on).(end := f)
      ensures event !in EventTypes ==> on == old(on)
    {
      if event == "start" {
        on := on.(start := f);
      } else if event == "draw" {
        on := on.(draw := f);
      } else if event == "end" {
        on := on.(end := f);
      }
    }
  }
}
