/**
 * The drag session of Draggable.update in dist/draggable.js, as pure transitions of a session
 * value: one function per event the nested handlers react to (update, mousedown, mousemove,
 * mouseup). The class Draggable.DragSession runs the same transitions step by step and is
 * specified by these functions; the lemmas here are about whole event sequences.
 * Callbacks are recorded in a notification log instead of being called.
 */
module DragSessions {
  import opened Wrappers
  import opened Boundaries
  import opened DragStates

  /** ChangePositionType; handlePositionChanged called without a type takes the Move branch. */
  datatype ChangePositionType = Start | End | Move

  /** One callback invocation: (posDiff, currentPosition). */
  datatype Notification = Notification(kind: ChangePositionType, delta: Delta, position: Option<Point>)

  /**
   * binding.value: the options the handlers read. Each callback is present or not;
   * boundingElement says whether a bounding element is configured (its live rectangle is an
   * input of each move).
   */
  datatype Config = Config(
    stopDragging: bool,
    resetInitialPos: bool,
    initialPosition: Option<Point>,
    boundingRect: Option<Rect>,
    boundingElement: bool,
    boundingRectMargin: Margin,
    onDragStart: bool,
    onPositionChange: bool,
    onDragEnd: bool)
  {
    predicate HasCallback(kind: ChangePositionType) {
      match kind
      case Start => onDragStart
      case End => onDragEnd
      case Move => onPositionChange
    }
  }

  /** A binding with no options set. */
  const INERT := Config(false, false, None, None, false, NO_MARGIN, false, false, false)

  /**
   * Everything one element's session holds: its stored state, the binding it last received,
   * whether the mousedown listener is armed, whether the document move/up listeners are
   * registered, and the callbacks fired so far.
   */
  datatype Session = Session(
    state: DragState,
    config: Config,
    armed: bool,
    listening: bool,
    log: seq<Notification>)

  const UNBOUND := Session(EMPTY_STATE, INERT, false, false, [])

  /** handlePositionChanged(event, kind): report posDiff and a copy of currentDragPosition. */
  function Notify(config: Config, log: seq<Notification>, kind: ChangePositionType, s: DragState): (r: seq<Notification>)
    ensures !config.HasCallback(kind) ==> r == log
    ensures config.HasCallback(kind) ==>
              |r| == |log| + 1 && r[..|log|] == log &&
              r[|log|].kind == kind && r[|log|].position == s.currentDragPosition &&
              (s.startDragPosition.Some? && s.currentDragPosition.Some? ==>
                 Translate(s.startDragPosition.value, r[|log|].delta) == s.currentDragPosition.value) &&
              (s.startDragPosition.None? || s.currentDragPosition.None? ==> r[|log|].delta == ZERO_DELTA)
  {
    if config.HasCallback(kind) then log + [Notification(kind, PositionDiff(s), s.currentDragPosition)] else log
  }

  /** getBoundingRect: the explicit rectangle, else the bounding element's live rectangle. */
  function BoundingRect(config: Config, live: Rect): (r: Option<Rect>)
    ensures config.boundingRect.Some? ==> r == config.boundingRect
    ensures config.boundingRect.None? ==> (r.Some? <==> config.boundingElement)
    ensures config.boundingRect.None? && r.Some? ==> r.value == live
  {
    if config.boundingRect.Some? then config.boundingRect
    else if config.boundingElement then Some(live)
    else None
  }

  /** startDragPosition + (pointer - anchor), clamped when a bounding rectangle is in force. */
  function DragTarget(s: DragState, config: Config, pointer: Point, element: Rect, live: Rect): (r: Point)
    requires s.startDragPosition.Some? && s.initialMousePos.Some?
    ensures var start, anchor := s.startDragPosition.value, s.initialMousePos.value;
            BoundingRect(config, live).None? ==>
              r == Translate(start, Delta(pointer.left - anchor.left, pointer.top - anchor.top))
    ensures var start, anchor := s.startDragPosition.value, s.initialMousePos.value;
            var moved := Translate(start, Delta(pointer.left - anchor.left, pointer.top - anchor.top));
            BoundingRect(config, live).Some? ==>
              r == PosWithBoundaries(element, BoundingRect(config, live).value, moved.left, moved.top,
                                     config.boundingRectMargin)
    ensures BoundingRect(config, live).Some? &&
            FitsVertically(element, BoundingRect(config, live).value, config.boundingRectMargin) &&
            FitsHorizontally(element, BoundingRect(config, live).value, config.boundingRectMargin) ==>
              Inside(element, BoundingRect(config, live).value, config.boundingRectMargin, r)
  {
    var start, anchor := s.startDragPosition.value, s.initialMousePos.value;
    var candidate := Point(start.left + (pointer.left - anchor.left), start.top + (pointer.top - anchor.top));
    match BoundingRect(config, live)
    case None => candidate
    case Some(bounds) => PosWithBoundaries(element, bounds, candidate.left, candidate.top, config.boundingRectMargin)
  }

  /** initializeState() followed by handlePositionChanged(), as update does on reset and on arming. */
  function Reinitialize(w: Session, element: Rect): (r: Session)
    ensures r.state == InitializedState(w.state, w.config.initialPosition, element, None)
    ensures r.config == w.config && r.armed == w.armed && r.listening == w.listening
    ensures r.log == (if w.config.onPositionChange
                      then w.log + [Notification(Move, ZERO_DELTA, r.state.currentDragPosition)]
                      else w.log)
  {
    var s := InitializedState(w.state, w.config.initialPosition, element, None);
    NoDisplacementReportsZero(s);
    w.(state := s, log := Notify(w.config, w.log, Move, s))
  }

  /** update(el, binding): the host applies a (new) binding value. */
  function UpdateStep(w: Session, config: Config, element: Rect): (r: Session)
    ensures r.config == config && r.listening == w.listening
    ensures config.stopDragging ==> r.state == w.state && r.armed == w.armed && r.log == w.log
    ensures !config.stopDragging ==> r.armed
    ensures !config.stopDragging && !config.resetInitialPos && w.armed ==> r == w.(config := config)
    ensures !config.stopDragging && (config.resetInitialPos || !w.armed) ==>
              r.state == InitializedState(w.state, config.initialPosition, element, None)
    ensures var n := if config.onPositionChange then
                       (if config.resetInitialPos then 1 else 0) + (if w.armed then 0 else 1) else 0;
            !config.stopDragging ==>
              |r.log| == |w.log| + n && r.log[..|w.log|] == w.log &&
              forall i :: |w.log| <= i < |r.log| ==>
                r.log[i] == Notification(Move, ZERO_DELTA, r.state.currentDragPosition)
  {
    var w1 := w.(config := config);
    if config.stopDragging then w1
    else
      var w2 := if config.resetInitialPos then Reinitialize(w1, element) else w1;
      if w2.armed then w2 else Reinitialize(w2.(armed := true), element)
  }

  /** mouseDown: record the anchor, report Start, register the document listeners. */
  function DownStep(w: Session, pointer: Point): (r: Session)
    ensures !w.armed ==> r == w
    ensures w.armed ==>
              r.state == w.state.(initialMousePos := Some(pointer)) && r.listening &&
              r.config == w.config && r.armed &&
              r.log == Notify(w.config, w.log, Start, r.state)
  {
    if !w.armed then w
    else
      var s := MergeState(w.state, Patch(Keep, Keep, Keep, Put(Some(pointer))));
      w.(state := s, listening := true, log := Notify(w.config, w.log, Start, s))
  }

  /** A move finds no anchor or no start position and re-initialises with the pointer as anchor. */
  predicate NeedsReinit(s: DragState) {
    s.startDragPosition.None? || s.initialMousePos.None?
  }

  /** The state a move works on once the re-initialisation of lines 68-71 has been done. */
  function MoveBase(w: Session, pointer: Point, element: Rect): (s: DragState)
    ensures !NeedsReinit(w.state) ==> s == w.state
    ensures NeedsReinit(w.state) ==>
              s.initialMousePos == Some(pointer) &&
              s.startDragPosition == s.currentDragPosition == s.initialPosition ==
                ResolveInitialPosition(w.config.initialPosition, w.state.initialPosition, RectPosition(element))
    ensures s.initialMousePos.Some?
  {
    if NeedsReinit(w.state) then InitializedState(w.state, w.config.initialPosition, element, Some(pointer))
    else w.state
  }

  /**
   * A move that throws: after re-initialisation there is still no start position, so reading
   * its left coordinate raises a TypeError and the handler stops.
   */
  predicate MoveAborts(w: Session, pointer: Point, element: Rect) {
    w.listening && !w.config.stopDragging && MoveBase(w, pointer, element).startDragPosition.None?
  }

  /** mouseMove: the new current position, stored and reported. */
  function MoveStep(w: Session, pointer: Point, element: Rect, live: Rect): (r: Session)
    ensures r.config == w.config && r.armed == w.armed && r.listening == w.listening
    ensures !w.listening || w.config.stopDragging ==> r == w
    ensures MoveAborts(w, pointer, element) ==> r.state == MoveBase(w, pointer, element) && r.log == w.log
    ensures var s := MoveBase(w, pointer, element);
            w.listening && !w.config.stopDragging && !MoveAborts(w, pointer, element) ==>
              r.state == s.(currentDragPosition := Some(DragTarget(s, w.config, pointer, element, live))) &&
              r.log == Notify(w.config, w.log, Move, r.state)
  {
    if !w.listening || w.config.stopDragging then w
    else
      var s := MoveBase(w, pointer, element);
      if s.startDragPosition.None? then w.(state := s)
      else
        var s' := MergeState(s, Patch(Keep, Keep, Put(Some(DragTarget(s, w.config, pointer, element, live))), Keep));
        w.(state := s', log := Notify(w.config, w.log, Move, s'))
  }

  /** mouseUp: commit the rendered position, clear the anchor, unregister, report End. */
  function UpStep(w: Session, element: Rect): (r: Session)
    ensures !w.listening ==> r == w
    ensures w.listening ==>
              r.state == DragState(w.state.initialPosition, RectPosition(element), RectPosition(element), None) &&
              !r.listening && r.armed == w.armed && r.config == w.config &&
              r.log == Notify(w.config, w.log, End, r.state)
  {
    if !w.listening then w
    else
      var pos := RectPosition(element);
      var s := MergeState(w.state, Patch(Keep, Put(pos), Put(pos), Put(None)));
      w.(state := s, listening := false, log := Notify(w.config, w.log, End, s))
  }

  /** What reaches one element, in delivery order; geometry is read at the moment of the event. */
  datatype Event =
    | Update(config: Config, element: Rect)
    | MouseDown(pointer: Point)
    | MouseMove(pointer: Point, element: Rect, live: Rect)
    | MouseUp(element: Rect)

  function Step(w: Session, e: Event): Session {
    match e
    case Update(c, element) => UpdateStep(w, c, element)
    case MouseDown(p) => DownStep(w, p)
    case MouseMove(p, element, live) => MoveStep(w, p, element, live)
    case MouseUp(element) => UpStep(w, element)
  }

  function Run(w: Session, events: seq<Event>): Session
    decreases |events|
  {
    if events == [] then w else Run(Step(w, events[0]), events[1..])
  }

  /** The session's invariant: the stored state is idle-consistent and listening implies armed. */
  predicate Valid(w: Session) {
    Idle(w.state) && (w.listening ==> w.armed)
  }

  /** Every transition keeps the invariant. */
  lemma StepPreservesValid(w: Session, e: Event)
    requires Valid(w)
    ensures Valid(Step(w, e))
  {
    match e
    case Update(c, element) =>
    case MouseDown(p) =>
    case MouseMove(p, element, live) =>
      if w.listening && !w.config.stopDragging {
        assert MoveBase(w, p, element).initialMousePos.Some?;
      }
    case MouseUp(element) =>
  }

  /** The invariant holds after any sequence of events. */
  lemma {:induction false} RunPreservesValid(w: Session, events: seq<Event>)
    requires Valid(w)
    ensures Valid(Run(w, events))
    decreases |events|
  {
    if events != [] {
      StepPreservesValid(w, events[0]);
      RunPreservesValid(Step(w, events[0]), events[1..]);
    }
  }

  /** Every session reachable from a fresh element satisfies the invariant. */
  lemma ReachableValid(events: seq<Event>)
    ensures Valid(Run(UNBOUND, events))
  {
    RunPreservesValid(UNBOUND, events);
  }

  /** An event that stopDragging silences: a move, or an update whose binding also stops dragging. */
  predicate Silenced(e: Event) {
    e.MouseMove? || (e.Update? && e.config.stopDragging)
  }

  /**
   * With stopDragging set, any sequence of moves and stopping updates leaves the stored state,
   * the listeners and the notifications exactly as they were.
   */
  lemma {:induction false} DisabledRunIsNoOp(w: Session, events: seq<Event>)
    requires w.config.stopDragging
    requires forall i :: 0 <= i < |events| ==> Silenced(events[i])
    ensures Run(w, events).state == w.state
    ensures Run(w, events).armed == w.armed && Run(w, events).listening == w.listening
    ensures Run(w, events).log == w.log
    decreases |events|
  {
    if events != [] {
      assert Silenced(events[0]);
      var w' := Step(w, events[0]);
      assert w'.config.stopDragging && w'.state == w.state && w'.log == w.log;
      assert forall i :: 0 <= i < |events[1..]| ==> Silenced(events[1..][i]) by {
        forall i | 0 <= i < |events[1..]| ensures Silenced(events[1..][i]) {
          assert events[1..][i] == events[i + 1];
        }
      }
      DisabledRunIsNoOp(w', events[1..]);
    }
  }

  /**
   * mouseup has no stopDragging guard: even while dragging is stopped it commits the rendered
   * position, clears the anchor and reports End.
   */
  lemma DisabledMouseUpStillCommits(w: Session, element: Rect)
    requires w.listening && w.config.stopDragging
    requires w.state.initialMousePos.Some? && RectPosition(element) != w.state.startDragPosition
    ensures UpStep(w, element).state != w.state
  {
    assert UpStep(w, element).state.initialMousePos.None?;
  }

  /**
   * Ending a drag: the committed start and current positions are both the rendered position,
   * the anchor is cleared, the initial position is kept, the document listeners are removed,
   * and onDragEnd (when set) receives a zero delta, because the state is stored before it is reported.
   */
  lemma MouseUpCommitsRenderedPosition(w: Session, element: Rect)
    requires w.listening
    ensures var w' := UpStep(w, element);
            w'.state == DragState(w.state.initialPosition, RectPosition(element), RectPosition(element), None) &&
            !w'.listening && w'.armed == w.armed &&
            w'.log == (if w.config.onDragEnd
                       then w.log + [Notification(End, ZERO_DELTA, RectPosition(element))]
                       else w.log)
  {
    var w' := UpStep(w, element);
    NoDisplacementReportsZero(w'.state);
  }

  /**
   * Starting a drag from an idle session: only the anchor changes, and onDragStart (when set)
   * receives a zero delta and the current position.
   */
  lemma DragStartFromIdleReportsZero(w: Session, pointer: Point)
    requires w.armed && Valid(w) && w.state.initialMousePos.None?
    ensures var w' := DownStep(w, pointer);
            w'.state == w.state.(initialMousePos := Some(pointer)) && w'.listening &&
            w'.log == (if w.config.onDragStart
                       then w.log + [Notification(Start, ZERO_DELTA, w.state.currentDragPosition)]
                       else w.log)
  {
    var w' := DownStep(w, pointer);
    NoDisplacementReportsZero(w'.state);
  }

  /**
   * A move during a gesture: start, anchor and initial position stay; the current position is
   * the start moved by the pointer's displacement from the anchor, clamped exactly when a
   * bounding rectangle is in force; onPositionChange reports current - start.
   */
  lemma MoveFollowsPointer(w: Session, pointer: Point, element: Rect, live: Rect)
    requires w.listening && !w.config.stopDragging
    requires w.state.startDragPosition.Some? && w.state.initialMousePos.Some?
    ensures var w' := MoveStep(w, pointer, element, live);
            var start, anchor := w.state.startDragPosition.value, w.state.initialMousePos.value;
            var moved := Translate(start, Delta(pointer.left - anchor.left, pointer.top - anchor.top));
            w'.state.startDragPosition == w.state.startDragPosition &&
            w'.state.initialMousePos == w.state.initialMousePos &&
            w'.state.initialPosition == w.state.initialPosition &&
            w'.state.currentDragPosition == Some(
              match BoundingRect(w.config, live)
              case None => moved
              case Some(bounds) => PosWithBoundaries(element, bounds, moved.left, moved.top, w.config.boundingRectMargin)) &&
            w'.listening && w'.armed == w.armed &&
            w'.log == (if w.config.onPositionChange
                       then w.log + [Notification(Move, PositionDiff(w'.state), w'.state.currentDragPosition)]
                       else w.log)
  {
  }

  /** Without a bounding rectangle the reported delta is exactly the pointer's displacement. */
  lemma UnboundedMoveDelta(w: Session, pointer: Point, element: Rect, live: Rect)
    requires w.listening && !w.config.stopDragging && BoundingRect(w.config, live).None?
    requires w.state.startDragPosition.Some? && w.state.initialMousePos.Some?
    ensures var anchor := w.state.initialMousePos.value;
            PositionDiff(MoveStep(w, pointer, element, live).state)
              == Delta(pointer.left - anchor.left, pointer.top - anchor.top)
  {
    MoveFollowsPointer(w, pointer, element, live);
  }

  /**
   * A bounded move of an element that fits keeps it inside the margin-shrunk bounding rectangle.
   */
  lemma BoundedMoveStaysInside(w: Session, pointer: Point, element: Rect, live: Rect)
    requires w.listening && !w.config.stopDragging
    requires w.state.startDragPosition.Some? && w.state.initialMousePos.Some?
    requires BoundingRect(w.config, live).Some?
    requires FitsVertically(element, BoundingRect(w.config, live).value, w.config.boundingRectMargin)
    requires FitsHorizontally(element, BoundingRect(w.config, live).value, w.config.boundingRectMargin)
    ensures var current := MoveStep(w, pointer, element, live).state.currentDragPosition;
            current.Some? &&
            Inside(element, BoundingRect(w.config, live).value, w.config.boundingRectMargin, current.value)
  {
    MoveFollowsPointer(w, pointer, element, live);
  }

  /**
   * A move with no anchor or no start re-initialises: the anchor becomes the pointer, start and
   * initial position become the resolved position, and current is that position (clamped when
   * bounded). onPositionChange reports current - start, which is zero when there are no bounds.
   */
  lemma MoveWithoutAnchorReinitializes(w: Session, pointer: Point, element: Rect, live: Rect)
    requires w.listening && !w.config.stopDragging && NeedsReinit(w.state)
    requires ResolveInitialPosition(w.config.initialPosition, w.state.initialPosition, RectPosition(element)).Some?
    ensures var w' := MoveStep(w, pointer, element, live);
            var q := ResolveInitialPosition(w.config.initialPosition, w.state.initialPosition, RectPosition(element)).value;
            w'.state.initialMousePos == Some(pointer) &&
            w'.state.startDragPosition == Some(q) && w'.state.initialPosition == Some(q) &&
            w'.state.currentDragPosition == Some(
              match BoundingRect(w.config, live)
              case None => q
              case Some(bounds) => PosWithBoundaries(element, bounds, q.left, q.top, w.config.boundingRectMargin))
    ensures var w' := MoveStep(w, pointer, element, live);
            w'.log == (if w.config.onPositionChange
                       then w.log + [Notification(Move, PositionDiff(w'.state), w'.state.currentDragPosition)]
                       else w.log)
    ensures BoundingRect(w.config, live).None? ==> PositionDiff(MoveStep(w, pointer, element, live).state) == ZERO_DELTA
  {
    var s := MoveBase(w, pointer, element);
    var q := s.startDragPosition.value;
    assert s.initialMousePos == Some(pointer);
    assert Point(q.left + (pointer.left - pointer.left), q.top + (pointer.top - pointer.top)) == q;
  }

  /**
   * A move that finds no position anywhere keeps the re-initialised state (anchor at the
   * pointer, no positions) and reports nothing.
   */
  lemma AbortedMoveReportsNothing(w: Session, pointer: Point, element: Rect, live: Rect)
    requires MoveAborts(w, pointer, element)
    ensures var w' := MoveStep(w, pointer, element, live);
            w'.state == DragState(None, None, None, Some(pointer)) && w'.log == w.log
  {
  }

  /**
   * A reset with an explicit initial position puts the element there whatever the prior state:
   * all three positions equal it and no gesture is in progress.
   */
  lemma ResetPrecedence(w: Session, config: Config, element: Rect, p: Point)
    requires !config.stopDragging && config.resetInitialPos && config.initialPosition == Some(p)
    ensures var s := UpdateStep(w, config, element).state;
            s == DragState(Some(p), Some(p), Some(p), None)
    ensures var reported := Notification(Move, ZERO_DELTA, Some(p));
            UpdateStep(w, config, element).log ==
              if !config.onPositionChange then w.log
              else if w.armed then w.log + [reported]
              else w.log + [reported, reported]
  {
    var w1 := Reinitialize(w.(config := config), element);
    assert w1.state == DragState(Some(p), Some(p), Some(p), None);
    if !w.armed {
      var w2 := Reinitialize(w1.(armed := true), element);
      assert w2.state == w1.state;
    }
  }

  /**
   * The re-arm guard: once armed, an update that neither stops nor resets changes nothing but
   * the binding; the first update that does not stop arms the element and initialises it.
   */
  lemma UpdateArmsOnce(w: Session, config: Config, element: Rect)
    requires !config.stopDragging
    ensures UpdateStep(w, config, element).armed
    ensures w.armed && !config.resetInitialPos ==> UpdateStep(w, config, element) == w.(config := config)
    ensures !w.armed && !config.resetInitialPos ==>
              UpdateStep(w, config, element).state
                == InitializedState(w.state, config.initialPosition, element, None)
    ensures var s := InitializedState(w.state, config.initialPosition, element, None);
            !w.armed && !config.resetInitialPos ==>
              UpdateStep(w, config, element).log ==
                if config.onPositionChange
                then w.log + [Notification(Move, ZERO_DELTA, s.currentDragPosition)]
                else w.log
  {
  }

  /**
   * The gesture of a drag without bounds: from an idle session, a press at (100, 100) and a
   * move to (130, 145) report the delta {x: 30, y: 45} to onPositionChange.
   */
  lemma GestureDelta(w: Session, element: Rect, live: Rect)
    requires Valid(w) && w.armed && w.state.initialMousePos.None? && w.state.startDragPosition.Some?
    requires !w.config.stopDragging && BoundingRect(w.config, live).None? && w.config.onPositionChange
    ensures var w' := Run(w, [MouseDown(Point(100, 100)), MouseMove(Point(130, 145), element, live)]);
            |w'.log| > 0 && w'.log[|w'.log| - 1] ==
              Notification(Move, Delta(30, 45), Some(Translate(w.state.startDragPosition.value, Delta(30, 45))))
  {
    var w1 := DownStep(w, Point(100, 100));
    assert Run(w, [MouseDown(Point(100, 100)), MouseMove(Point(130, 145), element, live)])
        == Run(w1, [MouseMove(Point(130, 145), element, live)]);
    var w2 := MoveStep(w1, Point(130, 145), element, live);
    assert Run(w1, [MouseMove(Point(130, 145), element, live)]) == Run(w2, []);
    UnboundedMoveDelta(w1, Point(130, 145), element, live);
    MoveFollowsPointer(w1, Point(130, 145), element, live);
  }
}
