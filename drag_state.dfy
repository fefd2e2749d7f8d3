/**
 * The per-element drag state of dist/draggable.js and the pure operations on it: the partial
 * merge performed by setState, the rendered-position query getRectPosition, the three-way
 * precedence of initializeState, and the delta reported by handlePositionChanged.
 * The source keeps the record as a JSON attribute; here it is a value, and a key that JSON
 * drops because its value is undefined is a None field.
 */
module DragStates {
  import opened Wrappers
  import opened Boundaries

  datatype DragState = DragState(
    initialPosition: Option<Point>,
    startDragPosition: Option<Point>,
    currentDragPosition: Option<Point>,
    initialMousePos: Option<Point>)

  /** What getState returns when nothing has been stored yet. */
  const EMPTY_STATE := DragState(None, None, None, None)

  /** The four keys of the state record. */
  datatype Key = InitialPosition | StartDragPosition | CurrentDragPosition | InitialMousePos

  function Get(s: DragState, k: Key): Option<Point> {
    match k
    case InitialPosition => s.initialPosition
    case StartDragPosition => s.startDragPosition
    case CurrentDragPosition => s.currentDragPosition
    case InitialMousePos => s.initialMousePos
  }

  /** One key of a partial state: left out of the object, or written (possibly with undefined). */
  datatype Slot = Keep | Put(value: Option<Point>)

  datatype Patch = Patch(
    initialPosition: Slot,
    startDragPosition: Slot,
    currentDragPosition: Slot,
    initialMousePos: Slot)

  function SlotOf(p: Patch, k: Key): Slot {
    match k
    case InitialPosition => p.initialPosition
    case StartDragPosition => p.startDragPosition
    case CurrentDragPosition => p.currentDragPosition
    case InitialMousePos => p.initialMousePos
  }

  function Assign(prev: Option<Point>, slot: Slot): Option<Point> {
    match slot
    case Keep => prev
    case Put(v) => v
  }

  /** Object.assign(Object.assign({}, prevState), partialState), as setState stores it. */
  function MergeState(s: DragState, p: Patch): (r: DragState)
    ensures forall k :: SlotOf(p, k).Put? ==> Get(r, k) == SlotOf(p, k).value
    ensures forall k :: SlotOf(p, k).Keep? ==> Get(r, k) == Get(s, k)
  {
    DragState(Assign(s.initialPosition, p.initialPosition),
              Assign(s.startDragPosition, p.startDragPosition),
              Assign(s.currentDragPosition, p.currentDragPosition),
              Assign(s.initialMousePos, p.initialMousePos))
  }

  /** Two partial objects assigned one after the other: the later one wins key by key. */
  function Then(p: Patch, q: Patch): Patch {
    Patch(if q.initialPosition.Put? then q.initialPosition else p.initialPosition,
          if q.startDragPosition.Put? then q.startDragPosition else p.startDragPosition,
          if q.currentDragPosition.Put? then q.currentDragPosition else p.currentDragPosition,
          if q.initialMousePos.Put? then q.initialMousePos else p.initialMousePos)
  }

  /** Merging q after p is merging the combined partial state once. */
  lemma MergeSequential(s: DragState, p: Patch, q: Patch)
    ensures MergeState(MergeState(s, p), q) == MergeState(s, Then(p, q))
  {
  }

  /** Storing the same partial state twice has the effect of storing it once. */
  lemma MergeIdempotent(s: DragState, p: Patch)
    ensures MergeState(MergeState(s, p), p) == MergeState(s, p)
  {
    MergeSequential(s, p, p);
    assert Then(p, p) == p;
  }

  /** getRectPosition: the rendered top-left, or undefined when the rectangle has no area. */
  function RectPosition(rect: Rect): (r: Option<Point>)
    ensures r.None? <==> rect.height == 0 || rect.width == 0
    ensures r.Some? ==> r.value == Point(rect.left, rect.top)
  {
    if rect.height == 0 || rect.width == 0 then None else Some(Point(rect.left, rect.top))
  }

  /** `fromBinding || fromState || rendered`: the first position that is present. */
  function ResolveInitialPosition(fromBinding: Option<Point>, fromState: Option<Point>,
                                  rendered: Option<Point>): (r: Option<Point>)
    ensures fromBinding.Some? ==> r == fromBinding
    ensures fromBinding.None? && fromState.Some? ==> r == fromState
    ensures fromBinding.None? && fromState.None? ==> r == rendered
    ensures r.Some? <==> fromBinding.Some? || fromState.Some? || rendered.Some?
  {
    if fromBinding.Some? then fromBinding
    else if fromState.Some? then fromState
    else rendered
  }

  /**
   * initializeState(event): the resolved initial position seeds initialPosition,
   * startDragPosition and currentDragPosition, and the anchor is the event's pointer, if any.
   */
  function InitializedState(s: DragState, fromBinding: Option<Point>, element: Rect,
                            pointer: Option<Point>): (r: DragState)
    ensures r.initialPosition == ResolveInitialPosition(fromBinding, s.initialPosition, RectPosition(element))
    ensures r.startDragPosition == r.initialPosition && r.currentDragPosition == r.initialPosition
    ensures r.initialMousePos == pointer
  {
    var p := ResolveInitialPosition(fromBinding, s.initialPosition, RectPosition(element));
    MergeState(s, Patch(Put(p), Put(p), Put(p), Put(pointer)))
  }

  /** Initialising twice in a row with the same inputs is initialising once. */
  lemma InitializeIdempotent(s: DragState, fromBinding: Option<Point>, element: Rect, pointer: Option<Point>)
    ensures InitializedState(InitializedState(s, fromBinding, element, pointer), fromBinding, element, pointer)
         == InitializedState(s, fromBinding, element, pointer)
  {
  }

  /** The signed offset {x, y} reported to the callbacks. */
  datatype Delta = Delta(x: int, y: int)

  const ZERO_DELTA := Delta(0, 0)

  function Translate(p: Point, d: Delta): Point {
    Point(p.left + d.x, p.top + d.y)
  }

  /** posDiff of handlePositionChanged: current - start when both are present, {0, 0} otherwise. */
  function PositionDiff(s: DragState): (d: Delta)
    ensures s.startDragPosition.Some? && s.currentDragPosition.Some? ==>
              Translate(s.startDragPosition.value, d) == s.currentDragPosition.value
    ensures s.startDragPosition.None? || s.currentDragPosition.None? ==> d == ZERO_DELTA
  {
    match (s.startDragPosition, s.currentDragPosition)
    case (Some(start), Some(current)) => Delta(current.left - start.left, current.top - start.top)
    case _ => ZERO_DELTA
  }

  /** A state whose start and current positions coincide reports no displacement. */
  lemma NoDisplacementReportsZero(s: DragState)
    requires s.startDragPosition == s.currentDragPosition
    ensures PositionDiff(s) == ZERO_DELTA
  {
  }

  /**
   * The idle invariant: with no anchor (no gesture in progress) the start and current
   * positions agree, so the next gesture starts from a zero delta.
   */
  predicate Idle(s: DragState) {
    s.initialMousePos.None? ==> s.startDragPosition == s.currentDragPosition
  }
}
