/** The gesture validator of one traceable line, as values.

    A line is a list of points with IDs 1..Count that the child must touch in
    order, starting from either end, while holding the mouse button. This module
    gives the whole component's state as one value (`Line`) and each engine
    event (a point touched, a frame, a blink animation that finished) as a pure
    transition on it. The class in module `Drawing` is proved to perform
    exactly these transitions; module `TracingProofs` proves what they promise.
 */
module TracingSpec {

  /** The display state of a LinePoint: turnOff, turnOn and turnError. */
  datatype PointState = Off | On | Error

  /** One LinePoint of the line: the ID it was given in the scene and its state. */
  datatype LinePoint = LinePoint(id: int, state: PointState)

  /** What the ray cast from the mouse position found in this frame.
      `foreignCollider`: the collider hit is neither the line itself nor a point;
      `beyondMaxDistance`: the hit lies farther than maxDistanceToSpline from the
      spline. Both are verdicts of the engine, taken as given. */
  datatype Probe = NoHit | Hit(foreignCollider: bool, beyondMaxDistance: bool)

  /** The whole state of one DrawingLine: its four private fields, the states of
      its points, how many times it has called the curve manager's unlockNext,
      and how many blink animations it has started that have not yet finished. */
  datatype Line = Line(
    lastPointID: int,
    isDrawing: bool,
    hasError: bool,
    direction: int,
    points: seq<LinePoint>,
    unlocked: nat,
    runningBlinks: nat)

  /** A freshly loaded line: the field initialisers of the component. */
  function Init(points: seq<LinePoint>): (s: Line)
    ensures s.points == points && s.unlocked == 0 && s.runningBlinks == 0
    ensures !s.isDrawing && !s.hasError && s.lastPointID == 0 && s.direction == 1
  {
    Line(0, false, false, 1, points, 0, 0)
  }

  /** All points are in state `st`. */
  predicate AllIn(points: seq<LinePoint>, st: PointState)
  {
    forall i :: 0 <= i < |points| ==> points[i].state == st
  }

  /** Every point set to `st`, IDs kept: what turnAllPoints and the loop in
      Update leave behind. */
  function Painted(points: seq<LinePoint>, st: PointState): (r: seq<LinePoint>)
    ensures |r| == |points| && AllIn(r, st)
    ensures forall i :: 0 <= i < |points| ==> r[i].id == points[i].id
  {
    seq(|points|, i requires 0 <= i < |points| => points[i].(state := st))
  }

  /** resetDrawing: the line is ready for a new trace. */
  function Reset(s: Line): (r: Line)
    ensures !r.isDrawing && !r.hasError && r.lastPointID == 0
    ensures r.direction == s.direction && r.points == s.points
    ensures r.unlocked == s.unlocked && r.runningBlinks == s.runningBlinks
  {
    s.(isDrawing := false, lastPointID := 0, hasError := false)
  }

  /** callError: raise the error flag and start one blink animation. */
  function CallError(s: Line): (r: Line)
    ensures r.hasError && r.runningBlinks == s.runningBlinks + 1
    ensures r.(hasError := s.hasError, runningBlinks := s.runningBlinks) == s
  {
    s.(hasError := true, runningBlinks := s.runningBlinks + 1)
  }

  /** The start of a trace, taken when the line is not drawing: point 1 sets
      the direction to +1, point Count to -1 (and wins when Count is 1). */
  function Orient(s: Line, id: int): Line
  {
    var s1 := if id == 1 then s.(lastPointID := 0, direction := 1) else s;
    if id == |s.points| then s1.(lastPointID := |s.points| + 1, direction := -1) else s1
  }

  /** The touch of point `k` is ignored: an error is showing, the mouse button
      is not held, or the point is already on. */
  predicate Ignored(s: Line, k: nat, mouseHeld: bool)
    requires k < |s.points|
  {
    s.hasError || !mouseHeld || s.points[k].state == On
  }

  /** Both ends have been passed: the ID one step beyond `id` is not a point. */
  predicate PastEnd(s: Line, id: int, direction: int)
  {
    id + direction > |s.points| || id + direction <= 0
  }

  /** pointTouched for point `k`, with `mouseHeld` the state of the mouse button. */
  function Touch(s: Line, k: nat, mouseHeld: bool): (r: Line)
    requires k < |s.points|
    ensures Ignored(s, k, mouseHeld) ==> r == s
    ensures |r.points| == |s.points|
    ensures forall i :: 0 <= i < |s.points| ==> r.points[i].id == s.points[i].id
    ensures forall i :: 0 <= i < |s.points| && i != k ==> r.points[i] == s.points[i]
    ensures r.unlocked == s.unlocked || r.unlocked == s.unlocked + 1
    ensures r.runningBlinks == s.runningBlinks || r.runningBlinks == s.runningBlinks + 1
  {
    var p := s.points[k];
    if Ignored(s, k, mouseHeld) then s
    else
      var s1 := if s.isDrawing then s else Orient(s, p.id);
      if p.id != s1.lastPointID + s1.direction then CallError(s1)
      else
        var s2 := s1.(points := s1.points[k := p.(state := On)], isDrawing := true);
        var s3 := if p.id != s2.lastPointID then s2.(lastPointID := s2.lastPointID + s2.direction) else s2;
        if PastEnd(s3, s3.lastPointID, s3.direction) then Reset(s3.(unlocked := s3.unlocked + 1))
        else s3
  }

  /** The number of times checkLineDistance calls callError for one probe. */
  function ErrorsRaised(probe: Probe): (n: nat)
    ensures n <= 2
    ensures n == 0 <==> probe.Hit? && !probe.foreignCollider && !probe.beyondMaxDistance
  {
    match probe
    case NoHit => 1
    case Hit(foreign, far) => (if foreign then 1 else 0) + (if far then 1 else 0)
  }

  /** checkLineDistance, with the ray cast and the spline distance given as `probe`. */
  function CheckDistance(s: Line, probe: Probe): (r: Line)
    ensures !s.isDrawing || s.hasError ==> r == s
    ensures s.isDrawing && !s.hasError ==>
              r.hasError == (ErrorsRaised(probe) > 0) &&
              r.runningBlinks == s.runningBlinks + ErrorsRaised(probe) &&
              r.(hasError := s.hasError, runningBlinks := s.runningBlinks) == s
  {
    if !s.isDrawing || s.hasError then s
    else
      match probe
      case NoHit => CallError(s)
      case Hit(foreign, far) =>
        var s1 := if foreign then CallError(s) else s;
        if far then CallError(s1) else s1
  }

  /** Update, one frame: `mouseUp` is whether the button was released in this
      frame, `probe` what the distance check sees. */
  function Frame(s: Line, mouseUp: bool, probe: Probe): (r: Line)
    ensures !s.isDrawing || s.hasError ==> r == s
    ensures s.isDrawing && !s.hasError && mouseUp ==>
              !r.isDrawing && !r.hasError && r.lastPointID == 0 && AllIn(r.points, Off)
    ensures s.isDrawing && !s.hasError ==>
              r.runningBlinks == s.runningBlinks + ErrorsRaised(probe) &&
              r.unlocked == s.unlocked && r.direction == s.direction
    ensures s.isDrawing && !s.hasError && !mouseUp ==>
              r.hasError == (ErrorsRaised(probe) > 0) &&
              r.(hasError := s.hasError, runningBlinks := s.runningBlinks) == s
    ensures |r.points| == |s.points|
    ensures forall i :: 0 <= i < |s.points| ==> r.points[i].id == s.points[i].id
  {
    if !s.isDrawing || s.hasError then s
    else
      var s1 := CheckDistance(s, probe);
      if mouseUp then Reset(s1).(points := Painted(s1.points, Off)) else s1
  }

  /** The end of one blinkPoints animation: it has turned every point to the
      error state and off four times each, ending off, and then resets. */
  function BlinkDone(s: Line): (r: Line)
    requires s.runningBlinks > 0
    ensures !r.isDrawing && !r.hasError && r.lastPointID == 0 && AllIn(r.points, Off)
    ensures r.runningBlinks == s.runningBlinks - 1
    ensures r.unlocked == s.unlocked && r.direction == s.direction
    ensures |r.points| == |s.points|
    ensures forall i :: 0 <= i < |s.points| ==> r.points[i].id == s.points[i].id
  {
    Reset(s.(points := Painted(s.points, Off), runningBlinks := s.runningBlinks - 1))
  }

  /** What the engine can deliver to the component. */
  datatype Event =
    | TouchPoint(k: nat, mouseHeld: bool)  // the mouse is inside point k
    | Check(probe: Probe)                  // checkLineDistance called directly
    | Tick(mouseUp: bool, probe: Probe)    // one Update frame
    | BlinkFinished                        // a blink animation reached its end

  /** One event. A touch of a point that is not in the list, or a finished
      animation when none is running, cannot be delivered and changes nothing. */
  function Step(s: Line, e: Event): (r: Line)
    ensures |r.points| == |s.points|
    ensures forall i :: 0 <= i < |s.points| ==> r.points[i].id == s.points[i].id
    ensures s.unlocked <= r.unlocked <= s.unlocked + 1
  {
    match e
    case TouchPoint(k, held) => if k < |s.points| then Touch(s, k, held) else s
    case Check(probe) => CheckDistance(s, probe)
    case Tick(up, probe) => Frame(s, up, probe)
    case BlinkFinished => if s.runningBlinks > 0 then BlinkDone(s) else s
  }

  /** A sequence of events, in order. */
  function Run(s: Line, events: seq<Event>): (r: Line)
    decreases |events|
  {
    if events == [] then s else Run(Step(s, events[0]), events[1..])
  }

  /** The finer view of time in which a blink animation does not run as one
      event: between the other events, each running animation's turnAllPoints
      calls repaint every point (to the error state or off). */
  datatype Moment =
    | Deliver(e: Event)          // an engine event, as in `Step`
    | Repaint(st: PointState)    // one turnAllPoints call of a running animation

  /** One moment. A repaint with no animation running cannot happen and
      changes nothing. */
  function Interleave(s: Line, m: Moment): (r: Line)
    ensures |r.points| == |s.points|
    ensures forall i :: 0 <= i < |s.points| ==> r.points[i].id == s.points[i].id
    ensures m.Repaint? ==> r.(points := s.points) == s
  {
    match m
    case Deliver(e) => Step(s, e)
    case Repaint(st) => if s.runningBlinks > 0 then s.(points := Painted(s.points, st)) else s
  }

  /** A sequence of moments, in order. */
  function RunInterleaved(s: Line, moments: seq<Moment>): Line
    decreases |moments|
  {
    if moments == [] then s else RunInterleaved(Interleave(s, moments[0]), moments[1..])
  }
}
