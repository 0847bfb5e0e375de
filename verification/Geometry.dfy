/** Points and rectangles, kits/interface/Rect.cpp, with real coordinates. */
module Geometry {
  datatype Point = Point(x: real, y: real) {
    function Plus(p: Point): Point {
      Point(x + p.x, y + p.y)
    }

    function Minus(p: Point): Point {
      Point(x - p.x, y - p.y)
    }
  }

  const B_ORIGIN := Point(0.0, 0.0)

  datatype Rect = Rect(left: real, top: real, right: real, bottom: real) {
    predicate IsValid() {
      left <= right && top <= bottom
    }

    predicate Contains(p: Point) {
      left <= p.x <= right && top <= p.y <= bottom
    }

    /** The rectangle of the same size with this corner. */
    function OffsetTo(p: Point): Rect {
      Rect(p.x, p.y, right - left + p.x, bottom - top + p.y)
    }

    /** All edges rounded down. */
    function Floored(): Rect {
      Rect(left.Floor as real, top.Floor as real, right.Floor as real, bottom.Floor as real)
    }

    /** `operator|`. */
    function Union(r: Rect): Rect {
      Rect(if r.left < left then r.left else left, if r.top < top then r.top else top,
           if right < r.right then r.right else right, if bottom < r.bottom then r.bottom else bottom)
    }

    /** `Contains` for rectangles. */
    predicate Covers(r: Rect) {
      left <= r.left && r.right <= right && top <= r.top && r.bottom <= bottom
    }
  }

  /** One rectangle covers another if and only if it contains all its points. */
  lemma {:induction false} CoversIff(a: Rect, r: Rect)
    requires r.IsValid()
    ensures a.Covers(r) <==> forall p: Point | r.Contains(p) :: a.Contains(p)
  {
    assert r.Contains(Point(r.left, r.top)) && r.Contains(Point(r.right, r.bottom));
  }

  /** A rectangle contains exactly the points that `operator|` would not extend it by. */
  lemma {:induction false} ContainsIff(r: Rect, p: Point)
    requires r.IsValid()
    ensures r.Contains(p) <==> r.Union(Rect(p.x, p.y, p.x, p.y)) == r
  {
  }

  /** A rectangle that is offset contains the points that are offset as its corner was. */
  lemma {:induction false} OffsetMoves(r: Rect, corner: Point, p: Point)
    requires r.IsValid()
    ensures r.OffsetTo(corner).IsValid() && r.OffsetTo(corner).OffsetTo(Point(r.left, r.top)) == r
    ensures r.OffsetTo(corner).Contains(p.Plus(corner)) <==> r.Contains(p.Plus(Point(r.left, r.top)))
  {
  }

  lemma {:induction false} FloorIsBelow(x: real, n: int)
    ensures (x.Floor as real).Floor == x.Floor
    ensures n as real <= x <==> n <= x.Floor
    ensures n <= x.Floor <==> n as real <= x.Floor as real
  {
  }

  predicate IsWhole(x: real) {
    x == x.Floor as real
  }

  /** Rounding down gives the largest whole number that is not above an edge. */
  lemma {:induction false} FlooredIsBelow(r: Rect, n: int)
    ensures
      var f := r.Floored();
      && IsWhole(f.left) && IsWhole(f.top) && IsWhole(f.right) && IsWhole(f.bottom)
      && (n as real <= r.left <==> n as real <= f.left) && f.left <= r.left
      && (n as real <= r.top <==> n as real <= f.top) && f.top <= r.top
      && (n as real <= r.right <==> n as real <= f.right) && f.right <= r.right
      && (n as real <= r.bottom <==> n as real <= f.bottom) && f.bottom <= r.bottom
  {
    FloorIsBelow(r.left, n);
    FloorIsBelow(r.top, n);
    FloorIsBelow(r.right, n);
    FloorIsBelow(r.bottom, n);
  }
}
