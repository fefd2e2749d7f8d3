/**
 * The drag session controller of dist/draggable.js as an object: the state the source keeps in
 * the element's "draggable-state" attribute is the field `state`, the binding value the handlers
 * read is `config`, and each nested function of Draggable.update that changes the session is a
 * method. Geometry queries arrive as parameters; callbacks are appended to a ghost log.
 * Each event method is specified by the matching transition of DragSessions.
 */
module Draggable {
  import opened Wrappers
  import opened Boundaries
  import opened DragStates
  import opened DragSessions

  class DragSession {
    var state: DragState
    var config: Config
    /** the "draggable" marker on the handle: the mousedown listener is registered */
    var armed: bool
    /** the document-level mousemove/mouseup listeners are registered */
    var listening: bool
    /** the callbacks invoked so far */
    ghost var log: seq<Notification>

    ghost function Snapshot(): Session
      reads this
    {
      Session(state, config, armed, listening, log)
    }

    ghost predicate Valid()
      reads this
    {
      DragSessions.Valid(Snapshot())
    }

    /** An element that has not been bound yet: getState would give the empty record. */
    constructor ()
      ensures Snapshot() == UNBOUND && Valid()
    {
      state := EMPTY_STATE;
      config := INERT;
      armed := false;
      listening := false;
      log := [];
    }

    /** setState(partialState): every key present in the partial state overwrites the stored one. */
    method SetState(partial: Patch)
      modifies this`state
      ensures state == MergeState(old(state), partial)
    {
      var next := state;
      if partial.initialPosition.Put? {
        next := next.(initialPosition := partial.initialPosition.value);
      }
      if partial.startDragPosition.Put? {
        next := next.(startDragPosition := partial.startDragPosition.value);
      }
      if partial.currentDragPosition.Put? {
        next := next.(currentDragPosition := partial.currentDragPosition.value);
      }
      if partial.initialMousePos.Put? {
        next := next.(initialMousePos := partial.initialMousePos.value);
      }
      state := next;
    }

    /** initializeState(event), with the element's rectangle and the event's pointer as inputs. */
    method InitializeState(pointer: Option<Point>, element: Rect)
      modifies this`state
      ensures state == InitializedState(old(state), config.initialPosition, element, pointer)
    {
      var fromBinding := config.initialPosition;
      var fromState := state.initialPosition;
      var startingDragPosition := RectPosition(element);
      var initialPosition := fromBinding;
      if initialPosition.None? {
        initialPosition := fromState;
      }
      if initialPosition.None? {
        initialPosition := startingDragPosition;
      }
      SetState(Patch(Put(initialPosition), Put(initialPosition), Put(initialPosition), Put(pointer)));
    }

    /** handlePositionChanged(event, kind): report posDiff and the current position to one callback. */
    method HandlePositionChanged(kind: ChangePositionType)
      modifies this`log
      ensures log == Notify(config, old(log), kind, state)
    {
      var posDiff := ZERO_DELTA;
      if state.currentDragPosition.Some? && state.startDragPosition.Some? {
        posDiff := Delta(state.currentDragPosition.value.left - state.startDragPosition.value.left,
                         state.currentDragPosition.value.top - state.startDragPosition.value.top);
      }
      var currentPosition := state.currentDragPosition;
      match kind
      case End =>
        if config.onDragEnd { log := log + [Notification(End, posDiff, currentPosition)]; }
      case Start =>
        if config.onDragStart { log := log + [Notification(Start, posDiff, currentPosition)]; }
      case Move =>
        if config.onPositionChange { log := log + [Notification(Move, posDiff, currentPosition)]; }
    }

    /** update(el, binding): apply a binding value; reset and arm as requested. */
    method Update(binding: Config, element: Rect)
      modifies this
      ensures Snapshot() == UpdateStep(old(Snapshot()), binding, element)
      ensures old(Valid()) ==> Valid()
    {
      if Valid() {
        StepPreservesValid(Snapshot(), DragSessions.Update(binding, element));
      }
      config := binding;
      if binding.stopDragging {
        return;
      }
      if binding.resetInitialPos {
        InitializeState(None, element);
        HandlePositionChanged(Move);
      }
      if !armed {
        armed := true;
        InitializeState(None, element);
        HandlePositionChanged(Move);
      }
    }

    /** mouseDown(event): record the anchor, report Start, listen on the document. */
    method MouseDown(pointer: Point)
      requires armed
      modifies this
      ensures Snapshot() == DownStep(old(Snapshot()), pointer)
      ensures old(Valid()) ==> Valid()
    {
      if Valid() {
        StepPreservesValid(Snapshot(), DragSessions.MouseDown(pointer));
      }
      SetState(Patch(Keep, Keep, Keep, Put(Some(pointer))));
      HandlePositionChanged(Start);
      listening := true;
    }

    /**
     * mouseMove(event): start position plus pointer displacement, clamped when bounded, stored
     * and reported. `aborted` is the TypeError thrown when no start position can be found.
     */
    method MouseMove(pointer: Point, element: Rect, live: Rect) returns (aborted: bool)
      requires listening
      modifies this
      ensures Snapshot() == MoveStep(old(Snapshot()), pointer, element, live)
      ensures aborted == MoveAborts(old(Snapshot()), pointer, element)
      ensures old(Valid()) ==> Valid()
    {
      if Valid() {
        StepPreservesValid(Snapshot(), DragSessions.MouseMove(pointer, element, live));
      }
      aborted := false;
      if config.stopDragging {
        return;
      }
      if state.startDragPosition.None? || state.initialMousePos.None? {
        InitializeState(Some(pointer), element);
      }
      if state.startDragPosition.None? {
        aborted := true;
        return;
      }
      var start, anchor := state.startDragPosition.value, state.initialMousePos.value;
      var dx := pointer.left - anchor.left;
      var dy := pointer.top - anchor.top;
      var currentDragPosition := Point(start.left + dx, start.top + dy);
      var boundingRect := BoundingRect(config, live);
      if boundingRect.Some? {
        currentDragPosition := PosWithBoundaries(element, boundingRect.value, currentDragPosition.left,
                                                 currentDragPosition.top, config.boundingRectMargin);
      }
      SetState(Patch(Keep, Keep, Put(Some(currentDragPosition)), Keep));
      HandlePositionChanged(Move);
    }

    /** mouseUp(event): commit the rendered position, clear the anchor, stop listening, report End. */
    method MouseUp(element: Rect)
      requires listening
      modifies this
      ensures Snapshot() == UpStep(old(Snapshot()), element)
      ensures state.initialMousePos.None?
      ensures state.startDragPosition == state.currentDragPosition == RectPosition(element)
      ensures old(Valid()) ==> Valid()
    {
      if Valid() {
        StepPreservesValid(Snapshot(), DragSessions.MouseUp(element));
      }
      var currentRectPosition := RectPosition(element);
      SetState(Patch(Keep, Put(currentRectPosition), Put(currentRectPosition), Put(None)));
      listening := false;
      HandlePositionChanged(End);
    }
  }
}
