/** Screen-space geometry used by the lasso: points, the loop-closure distance
    test and the point-in-polygon classifier, which is a foreign library and is
    therefore kept as an uninterpreted function value. */
module Geometry {

  /** A raw pointer sample or an item's representative point, in integer screen units. */
  type Point = (int, int)

  /** The point-in-polygon primitive: negative inside, zero on the boundary,
      positive outside. Its internals are not part of this model. */
  type Classifier = (seq<Point>, Point) -> int

  /** Squares of integers are non-negative and vanish only at zero. */
  lemma SquareFacts(a: int)
    ensures a * a >= 0 && (a * a == 0 <==> a == 0)
  {
    if a > 0 {
      assert a * a >= a;
    } else if a < 0 {
      assert a * a == (-a) * (-a) >= -a;
    }
  }

  /** Between non-negative numbers, squaring keeps the order. */
  lemma SquareOrder(x: int, y: int)
    requires x >= 0 && y >= 0
    ensures x <= y <==> x * x <= y * y
  {
    var lo, hi := if x <= y then x else y, if x <= y then y else x;
    var e := hi - lo;
    assert lo * hi == lo * lo + lo * e;
    assert hi * hi == lo * hi + hi * e;
    assert lo * e >= 0 && hi * e >= 0;
    assert x > y ==> hi * e > 0;
  }

  /** A square below d * d, with d >= 0, comes from a number between -d and d. */
  lemma SquareBound(a: int, d: int)
    requires d >= 0 && a * a <= d * d
    ensures -d <= a <= d
  {
    var m := if a < 0 then -a else a;
    assert m * m == a * a;
    SquareOrder(m, d);
  }

  /** The squared Euclidean distance between two points: never negative, and
      zero exactly when the points coincide. */
  function SquaredDistance(p: Point, q: Point): (sq: int)
    ensures sq >= 0
    ensures sq == 0 <==> p == q
  {
    SquareFacts(p.0 - q.0);
    SquareFacts(p.1 - q.1);
    (p.0 - q.0) * (p.0 - q.0) + (p.1 - q.1) * (p.1 - q.1)
  }

  /** The source computes `sqrt(dx^2 + dy^2) <= d`; over integer coordinates the
      same test is the squared comparison below, which is false for any negative d.
      A point within d of another differs from it by at most d in each coordinate,
      and a point is within d of itself exactly when d >= 0. */
  function WithinDistance(p: Point, q: Point, d: int): (r: bool)
    ensures r ==> d >= 0
    ensures r ==> -d <= p.0 - q.0 <= d && -d <= p.1 - q.1 <= d
    ensures p == q ==> (r <==> d >= 0)
  {
    var dx, dy := p.0 - q.0, p.1 - q.1;
    SquareFacts(dx);
    SquareFacts(dy);
    SquareFacts(d);
    if d >= 0 && SquaredDistance(p, q) <= d * d then
      SquareBound(dx, d);
      SquareBound(dy, d);
      true
    else
      false
  }

  /** The three answers of the point-in-polygon primitive. */
  datatype Side = Inside | OnBoundary | Outside

  /** How the primitive's numeric answer reads: negative inside, zero on the edge. */
  function SideOf(v: int): Side
  {
    if v < 0 then Inside else if v == 0 then OnBoundary else Outside
  }

  /** An item counts as enclosed when the classifier reports inside or on the boundary. */
  function Enclosed(classify: Classifier, polygon: seq<Point>, pt: Point): (r: bool)
    ensures r <==> SideOf(classify(polygon, pt)) in {Inside, OnBoundary}
  {
    classify(polygon, pt) < 1
  }

  /** The squared test agrees with the Euclidean one: for the non-negative square
      root r of the squared distance, the point is within d exactly when r <= d
      (the boundary is inclusive). */
  lemma WithinDistanceIsEuclidean(p: Point, q: Point, d: int, r: real)
    requires 0.0 <= r && r * r == SquaredDistance(p, q) as real
    ensures WithinDistance(p, q, d) <==> r <= d as real
  {
    var dr := d as real;
    var sq := SquaredDistance(p, q);
    assert (d * d) as real == dr * dr;
    if d < 0 {
      assert dr < 0.0;
    } else if r <= dr {
      assert r * r <= r * dr <= dr * dr;
    } else {
      var rr, rd, dd := r * r, r * dr, dr * dr;
      var e := r - dr;
      assert e > 0.0 && r > 0.0;
      assert rr - rd == r * e;
      assert r * e > 0.0;
      assert rd - dd == dr * e;
      assert dr * e >= 0.0;
      assert sq as real == rr && (d * d) as real == dd;
    }
  }

  /** A point is always within distance d of itself when d >= 0 and never otherwise:
      this is why the first move of a drag closes the loop. */
  lemma WithinDistanceOfSelf(p: Point, d: int)
    ensures WithinDistance(p, p, d) <==> d >= 0
  {
  }
}
