# draggable-vue-directive: the drag core in Dafny

This project models the logic of the Vue directive `v-draggable` (`dist/draggable.js`).
It covers two parts and proves properties of both:

- **The boundary clamper** `getPosWithBoundaries`. It translates a desired top-left point so that
  an element of a given height and width stays inside a bounding rectangle. The rectangle is first
  shrunk by an optional per-side margin, and an absent side counts as 0. Each axis is clamped on its
  own. The top/left violation is tested before the bottom/right one.
- **The drag session** run by the nested functions of `Draggable.update`. Each element stores the
  record `{initialPosition, startDragPosition, currentDragPosition, initialMousePos}`, and every
  field may be absent. A gesture works like this:
  - mousedown records the pointer as the anchor;
  - each mousemove sets the current position to the start position plus the pointer's offset from
    the anchor, clamped when a bounding rectangle is configured;
  - mouseup commits the element's rendered position as both start and current.

  Each step reports a delta and a position to `onDragStart`, `onPositionChange` or `onDragEnd`.
  When `stopDragging` is set, updates and moves do nothing.

Files and modules:

- `wrappers.dfy` (`Wrappers`): the `Option` type, standing in for a property that may be undefined.
- `boundaries.dfy` (`Boundaries`): points, rectangles, margins, the clamp and its lemmas.
- `drag_state.dfy` (`DragStates`): the state record and the partial merge done by `setState`. It
  also holds `getRectPosition`, the initial-position precedence of `initializeState` and the
  reported delta.
- `drag_session.dfy` (`DragSessions`): the binding options and the notification type, plus one
  pure transition per event (update, mousedown, mousemove, mouseup). It also has `Run` over an event
  sequence and lemmas about whole event sequences.
- `draggable.dfy` (`Draggable`): the class `DragSession`.
  - Its fields are the stored state, the binding value, the armed flag (the `"draggable"` marker),
    the flag for the document move/up listeners, and a ghost log of the callbacks fired.
  - It has one method per nested function that changes the session.
  - Each event method's `ensures` ties the new object state to the matching transition of
    `DragSessions`, and says the session invariant is preserved.

Inputs that the source reads from the DOM are method parameters:

- the element's `getBoundingClientRect()`;
- the bounding element's live rectangle;
- the pointer's `clientX`/`clientY`.

Coordinates are unbounded integers, read as pixels.

Behaviour of the code worth noting, all of it stated in the model:

- An element larger than the boundary span is pinned to the top/left edge only when its top/left
  was outside that edge. Otherwise the bottom/right branch places its far edge on the
  bottom/right boundary, so its top/left lands outside the top/left boundary (`OversizeVertical`,
  `OversizeHorizontal`). So on any axis where the element does not fit, a second clamp moves it
  again (`OversizeVerticalNotIdempotent`, `OversizeHorizontalNotIdempotent`; `OversizeNotIdempotent`
  is a concrete witness). On each axis, clamping is therefore idempotent exactly when the element
  fits on that axis (`IdempotentVertically`, `IdempotentHorizontally`, `Idempotent`).
- `mouseDown` and `mouseUp` have no `stopDragging` guard, so `stopDragging` silences moves and
  updates only (`DisabledRunIsNoOp`). A mouseup that arrives while dragging is stopped
  still commits the rendered position (`DisabledMouseUpStillCommits`).
- The delta passed to `onDragEnd` is always `{0, 0}`. This is because `mouseUp` stores
  start = current before it reports (`MouseUpCommitsRenderedPosition`).
- With a zero-area element, `mouseUp` overwrites start and current with undefined (lines 106-110,
  `MouseUpCommitsRenderedPosition`).
- A move that finds no start position even after re-initialising reads `.left` of undefined and
  throws. The model stops that handler after the re-initialisation: `MouseMove` returns
  `aborted`, and `AbortedMoveReportsNothing` describes the result.

## Model

| member | source | states |
|---|---|---|
| Boundaries.ClampAxis | dist/draggable.js:16-27 | if the segment fits the span, the result lies inside it; a segment already inside is returned unchanged |
| Boundaries.PosWithBoundaries | dist/draggable.js:10-29 | on each axis where the element fits between the margin-shrunk boundaries, the result is inside them; an element already inside is not moved |
| Boundaries.ContainedWhenFits | dist/draggable.js:13-27 | if the element fits on both axes, the clamped element lies inside the margin-shrunk rectangle |
| Boundaries.ClampAxisRule | dist/draggable.js:16-21 | a top violation gives top = topBoundary; otherwise a bottom violation gives top + height = bottomBoundary; an oversize element spans the whole boundary |
| Boundaries.ClampAxisNearest | dist/draggable.js:16-27 | if the segment fits, no allowed position is closer to the desired one than the result |
| Boundaries.OversizeVertical | dist/draggable.js:16-21 | if the height does not fit: result top is topBoundary when top < topBoundary, else bottomBoundary - height, which is above topBoundary |
| Boundaries.OversizeHorizontal | dist/draggable.js:22-27 | the same rule for width and left |
| Boundaries.IdempotentVertically | dist/draggable.js:16-21 | if the height fits, clamping the clamped point keeps its top |
| Boundaries.IdempotentHorizontally | dist/draggable.js:22-27 | if the width fits, clamping the clamped point keeps its left |
| Boundaries.Idempotent | dist/draggable.js:15-27 | if the element fits on both axes, clamping the clamped point returns it unchanged |
| Boundaries.OversizeVerticalNotIdempotent | dist/draggable.js:16-21 | if the height does not fit, clamping the clamped point changes its top again |
| Boundaries.OversizeHorizontalNotIdempotent | dist/draggable.js:22-27 | if the width does not fit, clamping the clamped point changes its left again |
| Boundaries.OversizeNotIdempotent | dist/draggable.js:15-27 | a concrete oversize element whose second clamp differs from its first |
| Boundaries.TopDependsOnlyOnVertical | dist/draggable.js:16-21 | the result's top depends only on height, the vertical edges and margins, and top |
| Boundaries.LeftDependsOnlyOnHorizontal | dist/draggable.js:22-27 | the result's left depends only on width, the horizontal edges and margins, and left |
| Boundaries.AbsentMarginIsZero | dist/draggable.js:14 | an absent margin side behaves as 0: the raw rectangle edges are the boundaries |
| DragStates.MergeState | dist/draggable.js:169-173 | every key present in the partial state takes its value (undefined included); every other key is unchanged |
| DragStates.MergeSequential | dist/draggable.js:169-173 | two merges in a row equal one merge of the combined partial state, where the later partial wins key by key |
| DragStates.MergeIdempotent | dist/draggable.js:169-173 | storing the same partial state twice equals storing it once |
| DragStates.RectPosition | dist/draggable.js:148-154 | undefined exactly when the rectangle has zero height or width; otherwise its left and top |
| DragStates.ResolveInitialPosition | dist/draggable.js:157-160 | the binding's initialPosition if present, else the stored one, else the rendered one; defined iff one of them is |
| DragStates.InitializedState | dist/draggable.js:155-168 | initialPosition, startDragPosition and currentDragPosition all equal the resolved position; the anchor is the event's pointer |
| DragStates.InitializeIdempotent | dist/draggable.js:155-168 | initialising twice with the same inputs equals initialising once |
| DragStates.PositionDiff | dist/draggable.js:176-180 | when both are present, start translated by the delta is current; otherwise the delta is {0, 0} |
| DragStates.NoDisplacementReportsZero | dist/draggable.js:176-180 | when start and current coincide, the reported delta is {0, 0} |
| DragSessions.Notify | dist/draggable.js:174-191 | appends exactly one notification, of the given kind, when that callback is set, and otherwise nothing. The appended entry carries the current position and a delta that takes start to current (zero when one is missing) |
| DragSessions.BoundingRect | dist/draggable.js:87-94 | the explicit boundingRect if given; else the bounding element's live rectangle when one is configured; else none |
| DragSessions.DragTarget | dist/draggable.js:72-82 | start plus the pointer's displacement from the anchor, clamped exactly when a bounding rectangle is in force; inside the shrunk bounds when the element fits |
| DragSessions.Reinitialize | dist/draggable.js:39-42 | the state is initialised from the binding, stored and rendered positions with no anchor; onPositionChange, when set, gets {0, 0} and the resolved position; flags and binding unchanged |
| DragSessions.UpdateStep | dist/draggable.js:34-54 | the binding is replaced. When stopDragging is set, nothing else changes. Otherwise the element ends armed, and a reset or first arming initialises the state; an armed update without reset changes nothing else. Each initialisation appends Move {0, 0} at the resolved position |
| DragSessions.DownStep | dist/draggable.js:126-135 | when armed: only the anchor changes, to the pointer; the document listeners are registered; Start is reported. When unarmed, nothing happens |
| DragSessions.MoveBase | dist/draggable.js:67-71 | the state is kept when start and anchor are both present; otherwise it is re-initialised with the pointer as anchor |
| DragSessions.MoveStep | dist/draggable.js:61-86 | nothing changes when not listening or stopped; an aborting move keeps the re-initialised state and reports nothing; otherwise only current changes (to the drag target) and Move is reported |
| DragSessions.UpStep | dist/draggable.js:104-119 | when listening: start = current = rendered position, the anchor is cleared, initialPosition is kept, the listeners are removed, and End is reported |
| DragSessions.StepPreservesValid | dist/draggable.js:61-135 | every event keeps the invariant: with no anchor, start equals current; listening implies armed |
| DragSessions.RunPreservesValid | dist/draggable.js:34-195 | any sequence of events keeps that invariant |
| DragSessions.ReachableValid | dist/draggable.js:34-195 | every session reachable from an unbound element satisfies the invariant |
| DragSessions.DisabledRunIsNoOp | dist/draggable.js:35-37 | with stopDragging set, any sequence of moves and stopping updates leaves state, listeners and notifications unchanged |
| DragSessions.DisabledMouseUpStillCommits | dist/draggable.js:104-111 | mouseup ignores stopDragging and changes the stored state |
| DragSessions.MouseUpCommitsRenderedPosition | dist/draggable.js:104-119 | start = current = the rendered position; anchor cleared; initialPosition kept; listeners removed; onDragEnd gets {0, 0} and that position |
| DragSessions.DragStartFromIdleReportsZero | dist/draggable.js:126-135 | from an idle session only the anchor changes, and onDragStart gets {0, 0} and the current position |
| DragSessions.MoveFollowsPointer | dist/draggable.js:72-85 | start, anchor and initialPosition are unchanged; current = start + (pointer - anchor), clamped exactly when bounded; onPositionChange gets current - start |
| DragSessions.UnboundedMoveDelta | dist/draggable.js:72-83 | without bounds, the reported delta is the pointer's displacement from the anchor |
| DragSessions.BoundedMoveStaysInside | dist/draggable.js:78-82 | a bounded move of an element that fits leaves it inside the margin-shrunk bounding rectangle |
| DragSessions.MoveWithoutAnchorReinitializes | dist/draggable.js:67-85 | a move with no anchor or no start re-anchors at the pointer and restarts from the resolved initial position; onPositionChange gets current - start, which is {0, 0} without bounds |
| DragSessions.AbortedMoveReportsNothing | dist/draggable.js:67-75 | when no position can be resolved, the state holds only the pointer anchor and nothing is reported |
| DragSessions.ResetPrecedence | dist/draggable.js:39-42 | a reset with an explicit initialPosition sets all three positions to it and clears the anchor, whatever the prior state. onPositionChange, when set, gets {0, 0} at that position: once, or twice when the same update also arms |
| DragSessions.UpdateArmsOnce | dist/draggable.js:43-54 | the first update that does not stop arms and initialises the element, and reports {0, 0} at the resolved position to onPositionChange; later non-resetting updates change only the binding |
| DragSessions.GestureDelta | dist/draggable.js:72-85 | from idle, with no bounds, a press at (100, 100) and a move to (130, 145) report {x: 30, y: 45} |
| Draggable.DragSession.constructor | dist/draggable.js:192-194 | a new element has the empty state, is unarmed and has fired nothing |
| Draggable.DragSession.SetState | dist/draggable.js:169-173 | the stored state becomes the key-by-key merge of the partial state into the old one |
| Draggable.DragSession.InitializeState | dist/draggable.js:155-168 | the stored state becomes the initialised state of the old one |
| Draggable.DragSession.HandlePositionChanged | dist/draggable.js:174-191 | appends one notification of the given kind with posDiff and the current position, exactly when that callback is set |
| Draggable.DragSession.Update | dist/draggable.js:34-54 | new session = the update transition of the old one; invariant preserved |
| Draggable.DragSession.MouseDown | dist/draggable.js:126-135 | new session = the mousedown transition of the old one; invariant preserved |
| Draggable.DragSession.MouseMove | dist/draggable.js:61-86 | new session = the mousemove transition of the old one; aborted exactly when no start position exists; invariant preserved |
| Draggable.DragSession.MouseUp | dist/draggable.js:104-119 | new session = the mouseup transition; anchor cleared; start = current = rendered position; invariant preserved |

## Left out

- Touch handlers (`touchStart`, `touchMove`, `touchEnd`, lines 55-60, 120-125, 136-141) and `allowTouch` are not modelled. They only forward the last touch point to the mouse handlers.
- Listener registration and removal are two flags, `armed` and `listening`. The `el["listener"]` bookkeeping and the `"draggable"` attribute itself are not modelled.
- `handle` and `extractHandle` (lines 7-9, 38) are not modelled. State is keyed to the one element; re-arming when the handle element changes is out of scope.
- `updateElementStyle` (lines 95-103) and `preventDefault` are not modelled. They are style writes and DOM calls that do not touch the stored record.
- MoveStep: one `element` rectangle stands for both reads of the element's geometry in a re-initialising move. The source reads it in `getRectPosition` (line 149) and again at line 79, where the clamp takes height and width from it. Between the two reads, `updateElementStyle` (lines 100-102) writes the element's position. The model therefore cannot express a second read that differs from the first. `MouseMove`, `MoveBase` and `MoveWithoutAnchorReinitializes` share this limitation.
- The JSON encoding of the state attribute (lines 172, 193) is not modelled. A key whose value is undefined is a `None` field, which is what JSON's dropping of such keys amounts to.
- Handlers read the latest binding value. This matches the usual use, where the host mutates one reactive options object. Listeners armed with an earlier, since-replaced binding object would keep reading that old object; this is not modelled.
- A missing `binding.value` is not modelled. In the source it throws at lines 45, 114 and 131.
- The raw event passed as the callbacks' third argument is not modelled.
- The callbacks themselves are not called. Each invocation is recorded in the notification log.
- `bind` (lines 31-33) is not modelled: it only calls `update`.
- Coordinates are integers. Floating-point pixel values and the falsiness of `NaN` are not modelled.
