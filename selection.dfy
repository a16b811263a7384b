/** The per-item selection record and the order-preserving filters behind the
    lasso's four selection queries. Items are identified by their position in
    the registry, so a query returns positions in registry order. */
module Selection {
  import opened Geometry

  /** The record the source attaches to every item: the two published flags, the
      two assistance flags of the current drag and the item's representative point. */
  datatype Item = Item(
    possible: bool,
    selected: bool,
    hoverSelect: bool,
    loopSelect: bool,
    lassoPoint: Point)

  /** An item's record after a move: loop-selected when the loop selection is
      active and the item is enclosed, possible when hover-tagged or loop-selected. */
  function Reclassified(r: Item, loopActive: bool, enclosed: bool): (r': Item)
    ensures r'.loopSelect <==> loopActive && enclosed
    ensures r'.possible <==> r'.hoverSelect || r'.loopSelect
    ensures r'.hoverSelect == r.hoverSelect && r'.selected == r.selected && r'.lassoPoint == r.lassoPoint
  {
    var loop := loopActive && enclosed;
    r.(loopSelect := loop, possible := r.hoverSelect || loop)
  }

  /** The flag a query inspects. */
  datatype Flag = Possible | Selected

  predicate Has(r: Item, f: Flag)
  {
    match f
    case Possible => r.possible
    case Selected => r.selected
  }

  ghost predicate Increasing(r: seq<nat>)
  {
    forall j, k :: 0 <= j < k < |r| ==> r[j] < r[k]
  }

  /** The positions of the items whose flag f equals want, in registry order:
      exactly those positions, each once, ascending. */
  function Matching(s: seq<Item>, f: Flag, want: bool): (r: seq<nat>)
    ensures forall k :: 0 <= k < |r| ==> r[k] < |s| && Has(s[r[k]], f) == want
    ensures forall i :: 0 <= i < |s| && Has(s[i], f) == want ==> i in r
    ensures Increasing(r)
    decreases |s|
  {
    if s == [] then []
    else
      var rest := Matching(s[..|s| - 1], f, want);
      if Has(s[|s| - 1], f) == want then rest + [|s| - 1] else rest
  }

  /** The items with the flag and the items without it partition the registry:
      every position lies in exactly one of the two results, whose lengths add up
      to the number of items. */
  lemma {:induction false} MatchingPartitions(s: seq<Item>, f: Flag)
    ensures |Matching(s, f, true)| + |Matching(s, f, false)| == |s|
    ensures forall i :: 0 <= i < |s| ==> (i in Matching(s, f, true) <==> i !in Matching(s, f, false))
  {
    if s != [] {
      MatchingPartitions(s[..|s| - 1], f);
    }
  }
}
