# DrawingLine: the tracing gesture of a children's drawing game

This project models the `DrawingLine` component of a Unity tracing game. A line
is a list of `LinePoint`s with IDs `1..Count`. The child traces the line by
moving the mouse over the points with the left button held. The trace may
start at either end. Each later point must be the next ID in the direction of
travel. A wrong point raises an error. The error makes the points blink and
then resets the line. Reaching the far end asks the `CurveManager` to unlock
the next image and resets the line.

The model has three modules.

- `TracingSpec` (tracing_spec.dfy) gives the whole component's state as one
  value, `Line`. It holds the four private fields `mLastPointID`, `mIsDrawing`,
  `mHasError` and `mDrawingDirection`, the point states, the number of
  `unlockNext` calls and the number of running blink animations. Every engine
  event is a pure transition on `Line`: `Touch` (pointTouched),
  `CheckDistance` (checkLineDistance), `Frame` (Update), `BlinkDone` (the end
  of blinkPoints) and `Reset` (resetDrawing). `Step` and `Run` apply events in
  sequence.
- `TracingProofs` (tracing_proofs.dfy) proves what these transitions promise.
  It shows which touches are accepted, what a rejected touch changes, and that
  a trace starts only at an end and advances one ID at a time. It shows that the
  unlock happens exactly at the far end. It proves an invariant kept by every
  event and that both full traces of a fresh line unlock it exactly once, in
  whatever order its points are listed.
- `Drawing` (drawing_line.dfy) holds the classes `DrawingLine` and
  `CurveManager`. Their fields change in place and `allPoints` is an array.
  Each method is proved to perform the corresponding `TracingSpec` transition
  on the object's `Snapshot()`. So everything `TracingProofs` proves about the
  transitions holds for the object, within the one limit on blink timing
  named under "Left out".

Engine inputs are parameters:

- `Input.GetMouseButton(0)` is `mouseHeld`, and `Input.GetMouseButtonUp(0)` is
  `mouseUp`.
- The ray cast and the spline distance inside `checkLineDistance` become a
  `Probe`. It is either `NoHit`, or `Hit(foreignCollider, beyondMaxDistance)`
  with the two verdicts of the engine.
- The touched `LinePoint` is its index in `allPoints`.
- `LinePoint.turnOn/turnOff/turnError` set the point's state to `On`, `Off`
  or `Error`.
- `CurveManager.unlockNext` increments a counter.

One behaviour of `Update` is easy to miss, and the model keeps it as the code
has it. `Update` does not look at the error flag again after
`checkLineDistance`. So a mouse release in the same frame as an off-path error
still resets the line and clears the flag. The blink animation started by that
error keeps running. `TracingSpec.Frame` states this: after such a frame
`hasError` is false and `runningBlinks` has grown.

## Model

| member | source | states |
|---|---|---|
| `TracingSpec.Init` | kidsDrawUnity/Assets/Scripts/DrawingLine.cs:35-40 | a fresh line is not drawing, has no error, last point 0, direction +1, and nothing unlocked or blinking |
| `TracingSpec.Touch` | kidsDrawUnity/Assets/Scripts/DrawingLine.cs:92-154 | a touch is a no-op when an error shows, the button is not held or the point is already on; a touch never changes point IDs or any other point, unlocks at most once and starts at most one animation |
| `TracingSpec.Reset` | kidsDrawUnity/Assets/Scripts/DrawingLine.cs:267-273 | after resetDrawing the line is not drawing, has no error, last point 0; direction, points and counters are kept |
| `TracingSpec.CallError` | kidsDrawUnity/Assets/Scripts/DrawingLine.cs:219-223 | callError raises the error flag, starts exactly one blink animation and changes nothing else |
| `TracingSpec.Painted` | kidsDrawUnity/Assets/Scripts/DrawingLine.cs:253-265 | every point ends in the given state with its ID kept |
| `TracingSpec.ErrorsRaised` | kidsDrawUnity/Assets/Scripts/DrawingLine.cs:180-204 | one probe makes checkLineDistance call callError at most twice, and not at all exactly when the ray hit the line or a point within the distance limit |
| `TracingSpec.CheckDistance` | kidsDrawUnity/Assets/Scripts/DrawingLine.cs:164-207 | no effect unless drawing without error; otherwise the error flag is raised exactly when the probe raises an error, one animation per callError, nothing else changes |
| `TracingSpec.Frame` | kidsDrawUnity/Assets/Scripts/DrawingLine.cs:56-79 | Update does nothing when not drawing or in error; otherwise the animations grow by the errors the check raised and the unlocks and direction are kept; without a release the error flag is raised exactly when the check raised an error and nothing else changes (last point, drawing flag, points); a release leaves the line reset with every point off (even after an off-path error in the same frame) |
| `TracingSpec.BlinkDone` | kidsDrawUnity/Assets/Scripts/DrawingLine.cs:225-251 | the end of a blink animation leaves every point off and the line reset, with one fewer animation running |
| `TracingSpec.Step` | kidsDrawUnity/Assets/Scripts/DrawingLine.cs:56-273 | no event changes the number of points or their IDs, and no event unlocks more than once |
| `TracingProofs.ResetIdempotent` | kidsDrawUnity/Assets/Scripts/DrawingLine.cs:267-273 | resetting twice is resetting once |
| `TracingProofs.TouchRejected` | kidsDrawUnity/Assets/Scripts/DrawingLine.cs:123-130 | a touch that is not ignored and not the expected ID only raises the error: last point, drawing flag, direction, point states and unlocks are unchanged |
| `TracingProofs.TouchAccepted` | kidsDrawUnity/Assets/Scripts/DrawingLine.cs:107-153 | an accepted touch turns the point on with no error; when not drawing it sets the direction from the end touched (point Count wins); it moves the last point to the touched ID, or, when the next ID lies past an end, unlocks exactly once and resets |
| `TracingProofs.AcceptedIffTurnedOn` | kidsDrawUnity/Assets/Scripts/DrawingLine.cs:96-137 | a point is on after a touch exactly when it already was or the touch was accepted |
| `TracingProofs.InitInv` | kidsDrawUnity/Assets/Scripts/DrawingLine.cs:35-40 | a fresh line over points numbered 1..Count, all off, satisfies the invariant |
| `TracingProofs.TouchKeepsInv` | kidsDrawUnity/Assets/Scripts/DrawingLine.cs:92-154 | pointTouched keeps the invariant: while drawing the last ID is in 1..Count and the points on are exactly those traced from the start end; otherwise last ID 0 and points all off or all on; an error always has an animation running |
| `TracingProofs.CheckKeepsInv` | kidsDrawUnity/Assets/Scripts/DrawingLine.cs:164-207 | checkLineDistance keeps the invariant |
| `TracingProofs.FrameKeepsInv` | kidsDrawUnity/Assets/Scripts/DrawingLine.cs:56-79 | Update keeps the invariant |
| `TracingProofs.BlinkKeepsInv` | kidsDrawUnity/Assets/Scripts/DrawingLine.cs:225-251 | the end of a blink animation keeps the invariant |
| `TracingProofs.RunKeepsInv` | kidsDrawUnity/Assets/Scripts/DrawingLine.cs:56-273 | every sequence of events keeps the invariant |
| `TracingProofs.RunKeepsPoints` | kidsDrawUnity/Assets/Scripts/DrawingLine.cs:17 | no sequence of events changes the number of points or their IDs |
| `TracingProofs.ReachableBounds` | kidsDrawUnity/Assets/Scripts/DrawingLine.cs:108-153 | in every state reached from a fresh well-numbered line, whatever the points' initial states: while drawing 1 <= last ID <= Count, otherwise last ID 0; direction is +1 or -1; an error is always being animated |
| `TracingProofs.StepKeepsBounded` | kidsDrawUnity/Assets/Scripts/DrawingLine.cs:56-273 | every event keeps the bounds on the last ID, the direction and the animated error from any state that has them, whatever the point states |
| `TracingProofs.RunKeepsBounded` | kidsDrawUnity/Assets/Scripts/DrawingLine.cs:56-273 | every sequence of events keeps those bounds |
| `TracingProofs.RepaintKeepsBounded` | kidsDrawUnity/Assets/Scripts/DrawingLine.cs:253-265 | those bounds only look at point IDs, so turning the points to any states, as turnAllPoints does in the middle of an animation, keeps them |
| `TracingSpec.Interleave` | kidsDrawUnity/Assets/Scripts/DrawingLine.cs:225-265 | one moment of the finer timeline: an event, or one turnAllPoints call of a running animation, which changes only point states and keeps the number of points and their IDs |
| `TracingProofs.InterleavedKeepsBounded` | kidsDrawUnity/Assets/Scripts/DrawingLine.cs:56-273 | every sequence of events with animation repaints interleaved at any moment keeps the bounds |
| `TracingProofs.ReachableBoundsInterleaved` | kidsDrawUnity/Assets/Scripts/DrawingLine.cs:225-265 | the bounds of ReachableBounds hold in every state reached from a fresh well-numbered line when the animations' turnAllPoints calls fall between the other events |
| `TracingProofs.FirstTouchIsAnEnd` | kidsDrawUnity/Assets/Scripts/DrawingLine.cs:108-129 | from any state within the bounds (whatever the point states), when not drawing, a touch that is not ignored is accepted exactly when it is of point 1 or point Count, and then travels away from that end |
| `TracingProofs.AdvanceByOne` | kidsDrawUnity/Assets/Scripts/DrawingLine.cs:124-144 | from any state within the bounds (whatever the point states), during a trace the direction never changes and the last ID moves by at most one step; an accepted touch that keeps drawing moves it exactly one step, to the touched ID |
| `TracingProofs.UnlockAtFarEnd` | kidsDrawUnity/Assets/Scripts/DrawingLine.cs:146-153 | from any state within the bounds (whatever the point states), a touch unlocks exactly when it is accepted and is the far end of the trace |
| `TracingProofs.UnlockLeavesAllOn` | kidsDrawUnity/Assets/Scripts/DrawingLine.cs:146-153 | from an `Inv` state, the touch that unlocks leaves the line reset, without error, with every point on |
| `TracingProofs.FinishUp` | kidsDrawUnity/Assets/Scripts/DrawingLine.cs:124-153 | mid-trace forwards with no animation running, touching the points with the remaining IDs in increasing order, wherever they sit in allPoints, unlocks exactly once and leaves every point on |
| `TracingProofs.FinishDown` | kidsDrawUnity/Assets/Scripts/DrawingLine.cs:124-153 | mid-trace backwards with no animation running, touching the points with the remaining IDs in decreasing order, wherever they sit in allPoints, unlocks exactly once and leaves every point on |
| `TracingProofs.TraceForwardUnlocks` | kidsDrawUnity/Assets/Scripts/DrawingLine.cs:92-154 | a fresh well-numbered line, listed in any order, traced from ID 1 to ID Count is unlocked exactly once and left with every point on |
| `TracingProofs.TraceBackwardUnlocks` | kidsDrawUnity/Assets/Scripts/DrawingLine.cs:92-154 | a fresh well-numbered line, listed in any order, traced from ID Count to ID 1 is unlocked exactly once and left with every point on |
| `Drawing.CurveManager.UnlockNext` | kidsDrawUnity/Assets/Scripts/DrawingLine.cs:150 | unlockNext adds one to the unlock count |
| `Drawing.DrawingLine.constructor` | kidsDrawUnity/Assets/Scripts/DrawingLine.cs:35-40 | a new line holds the given points with the initial field values |
| `Drawing.DrawingLine.PointTouched` | kidsDrawUnity/Assets/Scripts/DrawingLine.cs:92-154 | the object's new state is `Touch` of its old state: the same guards, orientation, check, advance and unlock, in place on the fields and the point array |
| `Drawing.DrawingLine.CheckLineDistance` | kidsDrawUnity/Assets/Scripts/DrawingLine.cs:164-207 | the object's new state is `CheckDistance` of its old state, one callError per failed verdict |
| `Drawing.DrawingLine.Update` | kidsDrawUnity/Assets/Scripts/DrawingLine.cs:56-79 | the object's new state is `Frame` of its old state; the loop over the point array turns every point off on release |
| `Drawing.DrawingLine.CallError` | kidsDrawUnity/Assets/Scripts/DrawingLine.cs:219-223 | the object's new state is `CallError` of its old state |
| `Drawing.DrawingLine.BlinkPoints` | kidsDrawUnity/Assets/Scripts/DrawingLine.cs:225-251 | the animation's eight turnAllPoints calls and the reset together leave the object in state `BlinkDone` of its old state |
| `Drawing.DrawingLine.TurnAllPoints` | kidsDrawUnity/Assets/Scripts/DrawingLine.cs:253-265 | every point goes to the error state (false) or off (true), IDs kept; no field of the line changes |
| `Drawing.DrawingLine.ResetDrawing` | kidsDrawUnity/Assets/Scripts/DrawingLine.cs:267-273 | the object's new state is `Reset` of its old state; the direction is untouched |

## Left out

- Audio pitch (`mCurrentPitch`, `addPitch`, `unlockSFX.pitch`) is float arithmetic for sound only. It has no effect on the state machine.
- The geometry of `checkLineDistance` is not modelled. The camera ray, the physics ray cast, the collider-name test, the spline's nearest point and the float distance are engine services. Only their verdicts enter, as a `Probe`.
- The timing of `blinkPoints` is not modelled. The model runs the animation from start to end in one event (`BlinkPoints` / `BlinkDone`). Only the bounds are also stated on a finer timeline (`Interleave`), in which each turnAllPoints call is its own moment; the point-state results are not.
- Inv: its clauses on point states hold only because the animation runs as one event. These are the clauses that the points that are on are exactly the traced ones, and that an idle line is all off or all on. In the code, a release in the same frame as an off-path error clears `mHasError` while the animation keeps running. A new trace can then start. The animation's `turnAllPoints` calls then turn traced points to the error state and off while `mIsDrawing` is true. TouchKeepsInv, CheckKeepsInv, FrameKeepsInv, BlinkKeepsInv and RunKeepsInv share this limit.
- UnlockLeavesAllOn: it assumes `Inv`, so it has the same limit. Its "every point on" after the unlock holds only with the one-event animation. UnlockAtFarEnd, FirstTouchIsAnEnd and AdvanceByOne assume only `Bounded` and do not have this limit.
- The animation timing does not affect the bounds of ReachableBounds. `ReachableBoundsInterleaved` states them for runs in which each turnAllPoints call of a running animation is a separate moment between the other events.
- FinishUp, FinishDown: stated only with no blink animation running. With one running, the source's turnAllPoints repaints the traced points mid-trace, so the point states these lemmas rely on do not hold.
- `Awake` looks up a component and throws the result away, so it has no effect. Logging with `print` is dropped.
- The bodies of `LinePoint.turnOn/turnOff/turnError` and `CurveManager.unlockNext` are not part of this model. They are taken to set a state and to count.
- A touched point is identified by its index in `allPoints`. The model does not cover a point outside the list. It also does not cover one `LinePoint` object listed twice, because the points are values in an array and not shared objects.
- The initial state of each `LinePoint` is not in this file. `InitInv` and the trace lemmas assume all points start off. `ReachableBounds` holds for any initial states.
- `TracingSpec.Step` treats two events as no-ops: a touch of an index outside the list, and the end of an animation when none is running. The engine cannot deliver either.
