/**
 * The boundary clamper of dist/draggable.js (getPosWithBoundaries): it translates a desired
 * top-left point so that an element of a given height and width stays inside a bounding
 * rectangle shrunk by an optional margin on each side. The two axes are clamped on their own,
 * and on each axis the top/left violation is tested before the bottom/right one.
 * Coordinates are whole pixels.
 */
module Boundaries {
  import opened Wrappers

  /** A top-left point in layout coordinates. */
  datatype Point = Point(left: int, top: int)

  /** A client rectangle as a geometry query reports it. */
  datatype Rect = Rect(top: int, bottom: int, left: int, right: int, height: int, width: int)

  /** Per-side inset of the bounding rectangle; an absent side counts as 0. */
  datatype Margin = Margin(top: Option<int>, bottom: Option<int>, left: Option<int>, right: Option<int>)

  const NO_MARGIN := Margin(None, None, None, None)

  /** `side || 0` */
  function OrZero(side: Option<int>): int {
    if side.Some? then side.value else 0
  }

  function TopBoundary(bounds: Rect, margin: Margin): int { bounds.top + OrZero(margin.top) }
  function BottomBoundary(bounds: Rect, margin: Margin): int { bounds.bottom - OrZero(margin.bottom) }
  function LeftBoundary(bounds: Rect, margin: Margin): int { bounds.left + OrZero(margin.left) }
  function RightBoundary(bounds: Rect, margin: Margin): int { bounds.right - OrZero(margin.right) }

  /** The element's height fits between the vertical boundaries. */
  predicate FitsVertically(element: Rect, bounds: Rect, margin: Margin) {
    element.height <= BottomBoundary(bounds, margin) - TopBoundary(bounds, margin)
  }

  /** The element's width fits between the horizontal boundaries. */
  predicate FitsHorizontally(element: Rect, bounds: Rect, margin: Margin) {
    element.width <= RightBoundary(bounds, margin) - LeftBoundary(bounds, margin)
  }

  /** The element placed with its top-left corner at p lies inside the margin-shrunk rectangle. */
  predicate Inside(element: Rect, bounds: Rect, margin: Margin, p: Point) {
    TopBoundary(bounds, margin) <= p.top && p.top + element.height <= BottomBoundary(bounds, margin) &&
    LeftBoundary(bounds, margin) <= p.left && p.left + element.width <= RightBoundary(bounds, margin)
  }

  /**
   * One axis of the clamp: a segment [pos, pos + size] against the span [low, high].
   * The low-side test comes first, so an oversize segment that starts below low is pinned to low.
   */
  function ClampAxis(pos: int, size: int, low: int, high: int): (r: int)
    ensures size <= high - low ==> low <= r && r + size <= high
    ensures low <= pos && pos + size <= high ==> r == pos
  {
    if pos < low then low
    else if pos + size > high then high - size
    else pos
  }

  function Abs(x: int): nat { if x < 0 then -x else x }

  /** getPosWithBoundaries(elementRect, boundingRect, left, top, boundingRectMargin) */
  function PosWithBoundaries(element: Rect, bounds: Rect, left: int, top: int, margin: Margin): (r: Point)
    ensures FitsVertically(element, bounds, margin) ==>
              TopBoundary(bounds, margin) <= r.top && r.top + element.height <= BottomBoundary(bounds, margin)
    ensures FitsHorizontally(element, bounds, margin) ==>
              LeftBoundary(bounds, margin) <= r.left && r.left + element.width <= RightBoundary(bounds, margin)
    ensures Inside(element, bounds, margin, Point(left, top)) ==> r == Point(left, top)
  {
    Point(ClampAxis(left, element.width, LeftBoundary(bounds, margin), RightBoundary(bounds, margin)),
          ClampAxis(top, element.height, TopBoundary(bounds, margin), BottomBoundary(bounds, margin)))
  }

  /** When the element fits on both axes, the clamped element lies inside the shrunk rectangle. */
  lemma ContainedWhenFits(element: Rect, bounds: Rect, left: int, top: int, margin: Margin)
    requires FitsVertically(element, bounds, margin) && FitsHorizontally(element, bounds, margin)
    ensures Inside(element, bounds, margin, PosWithBoundaries(element, bounds, left, top, margin))
  {
  }

  /**
   * The three-way rule on one axis: a low-side violation snaps to low, otherwise a high-side
   * violation snaps the far edge to high, otherwise the position is kept. When the segment
   * does not fit, the result covers the whole span and sticks out on the side chosen by that rule.
   */
  lemma ClampAxisRule(pos: int, size: int, low: int, high: int)
    ensures pos < low ==> ClampAxis(pos, size, low, high) == low
    ensures low <= pos && pos + size > high ==> ClampAxis(pos, size, low, high) + size == high
    ensures size > high - low ==>
              ClampAxis(pos, size, low, high) <= low && ClampAxis(pos, size, low, high) + size >= high
  {
  }

  /** A fitting segment is moved to the nearest allowed position. */
  lemma ClampAxisNearest(pos: int, size: int, low: int, high: int, q: int)
    requires low <= q && q + size <= high
    ensures Abs(ClampAxis(pos, size, low, high) - pos) <= Abs(q - pos)
  {
  }

  /**
   * The exact result of getPosWithBoundaries when the element does not fit vertically: pinned to
   * the top boundary when its top was above it, and otherwise pinned by its bottom edge, which
   * puts its top above the top boundary.
   */
  lemma OversizeVertical(element: Rect, bounds: Rect, left: int, top: int, margin: Margin)
    requires !FitsVertically(element, bounds, margin)
    ensures top < TopBoundary(bounds, margin) ==>
              PosWithBoundaries(element, bounds, left, top, margin).top == TopBoundary(bounds, margin)
    ensures top >= TopBoundary(bounds, margin) ==>
              PosWithBoundaries(element, bounds, left, top, margin).top
                == BottomBoundary(bounds, margin) - element.height < TopBoundary(bounds, margin)
  {
  }

  /** The horizontal counterpart of OversizeVertical. */
  lemma OversizeHorizontal(element: Rect, bounds: Rect, left: int, top: int, margin: Margin)
    requires !FitsHorizontally(element, bounds, margin)
    ensures left < LeftBoundary(bounds, margin) ==>
              PosWithBoundaries(element, bounds, left, top, margin).left == LeftBoundary(bounds, margin)
    ensures left >= LeftBoundary(bounds, margin) ==>
              PosWithBoundaries(element, bounds, left, top, margin).left
                == RightBoundary(bounds, margin) - element.width < LeftBoundary(bounds, margin)
  {
  }

  /** Where the height fits, a second clamp keeps the top: idempotence holds axis by axis. */
  lemma IdempotentVertically(element: Rect, bounds: Rect, left: int, top: int, margin: Margin)
    requires FitsVertically(element, bounds, margin)
    ensures var r := PosWithBoundaries(element, bounds, left, top, margin);
            PosWithBoundaries(element, bounds, r.left, r.top, margin).top == r.top
  {
  }

  /** The horizontal counterpart of IdempotentVertically. */
  lemma IdempotentHorizontally(element: Rect, bounds: Rect, left: int, top: int, margin: Margin)
    requires FitsHorizontally(element, bounds, margin)
    ensures var r := PosWithBoundaries(element, bounds, left, top, margin);
            PosWithBoundaries(element, bounds, r.left, r.top, margin).left == r.left
  {
  }

  /** Under the fit condition on both axes, clamping twice is clamping once. */
  lemma Idempotent(element: Rect, bounds: Rect, left: int, top: int, margin: Margin)
    requires FitsVertically(element, bounds, margin) && FitsHorizontally(element, bounds, margin)
    ensures var r := PosWithBoundaries(element, bounds, left, top, margin);
            PosWithBoundaries(element, bounds, r.left, r.top, margin) == r
  {
  }

  /**
   * Without the fit condition clamping is never idempotent on that axis: a second clamp moves
   * an element that is too tall to the other edge.
   */
  lemma OversizeVerticalNotIdempotent(element: Rect, bounds: Rect, left: int, top: int, margin: Margin)
    requires !FitsVertically(element, bounds, margin)
    ensures var r := PosWithBoundaries(element, bounds, left, top, margin);
            PosWithBoundaries(element, bounds, r.left, r.top, margin).top != r.top
  {
  }

  /** The horizontal counterpart of OversizeVerticalNotIdempotent. */
  lemma OversizeHorizontalNotIdempotent(element: Rect, bounds: Rect, left: int, top: int, margin: Margin)
    requires !FitsHorizontally(element, bounds, margin)
    ensures var r := PosWithBoundaries(element, bounds, left, top, margin);
            PosWithBoundaries(element, bounds, r.left, r.top, margin).left != r.left
  {
  }

  /** A witness of the two lemmas above: an oversize element flips edges on each clamp. */
  lemma OversizeNotIdempotent()
    ensures PosWithBoundaries(Rect(0, 20, 0, 20, 20, 20), Rect(0, 10, 0, 10, 10, 10), 5, 5, NO_MARGIN)
         == Point(-10, -10)
    ensures PosWithBoundaries(Rect(0, 20, 0, 20, 20, 20), Rect(0, 10, 0, 10, 10, 10), -10, -10, NO_MARGIN)
         == Point(0, 0)
  {
    var element, bounds := Rect(0, 20, 0, 20, 20, 20), Rect(0, 10, 0, 10, 10, 10);
    AbsentMarginIsZero(element, bounds, 5, 5);
    AbsentMarginIsZero(element, bounds, -10, -10);
  }

  /** The result's top depends only on the height, the vertical edges, the vertical margins and top. */
  lemma TopDependsOnlyOnVertical(e1: Rect, e2: Rect, b1: Rect, b2: Rect, l1: int, l2: int, top: int,
                                 m1: Margin, m2: Margin)
    requires e1.height == e2.height && b1.top == b2.top && b1.bottom == b2.bottom
    requires OrZero(m1.top) == OrZero(m2.top) && OrZero(m1.bottom) == OrZero(m2.bottom)
    ensures PosWithBoundaries(e1, b1, l1, top, m1).top == PosWithBoundaries(e2, b2, l2, top, m2).top
  {
  }

  /** The result's left depends only on the width, the horizontal edges, the horizontal margins and left. */
  lemma LeftDependsOnlyOnHorizontal(e1: Rect, e2: Rect, b1: Rect, b2: Rect, left: int, t1: int, t2: int,
                                    m1: Margin, m2: Margin)
    requires e1.width == e2.width && b1.left == b2.left && b1.right == b2.right
    requires OrZero(m1.left) == OrZero(m2.left) && OrZero(m1.right) == OrZero(m2.right)
    ensures PosWithBoundaries(e1, b1, left, t1, m1).left == PosWithBoundaries(e2, b2, left, t2, m2).left
  {
  }

  /** An absent margin side behaves as a side of 0: the raw edges of the rectangle are the boundaries. */
  lemma AbsentMarginIsZero(element: Rect, bounds: Rect, left: int, top: int)
    ensures PosWithBoundaries(element, bounds, left, top, NO_MARGIN)
         == PosWithBoundaries(element, bounds, left, top, Margin(Some(0), Some(0), Some(0), Some(0)))
    ensures PosWithBoundaries(element, bounds, left, top, NO_MARGIN)
         == Point(ClampAxis(left, element.width, bounds.left, bounds.right),
                  ClampAxis(top, element.height, bounds.top, bounds.bottom))
  {
  }
}
