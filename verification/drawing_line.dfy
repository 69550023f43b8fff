/** The DrawingLine component and the part of its curve manager it uses, as
    objects whose fields change in place. Every method is proved to perform the
    transition of module `TracingSpec` on the snapshot of the object, so what
    module `TracingProofs` proves of those transitions holds of the object.
 */
module Drawing {
  import opened TracingSpec

  /** The curve manager seen from one line: it counts calls of unlockNext. */
  class CurveManager {
    var unlocked: nat

    constructor ()
      ensures unlocked == 0
    {
      unlocked := 0;
    }

    /** unlockNext: the next image becomes available. */
    method UnlockNext()
      modifies this
      ensures unlocked == old(unlocked) + 1
    {
      unlocked := unlocked + 1;
    }
  }

  class DrawingLine {
    const curveManager: CurveManager
    const allPoints: array<LinePoint>

    var lastPointID: int
    var isDrawing: bool
    var hasError: bool
    var drawingDirection: int

    /** Blink animations started by callError that have not reached their end. */
    var runningBlinks: nat

    /** The line as a value. */
    ghost function Snapshot(): Line
      reads this, allPoints, curveManager
    {
      Line(lastPointID, isDrawing, hasError, drawingDirection, allPoints[..],
           curveManager.unlocked, runningBlinks)
    }

    /** A line over the given points, with the field initialisers of DrawingLine.cs. */
    constructor (points: seq<LinePoint>, manager: CurveManager)
      ensures fresh(allPoints) && curveManager == manager
      ensures Snapshot() == Init(points).(unlocked := manager.unlocked)
    {
      curveManager := manager;
      allPoints := new LinePoint[|points|](i requires 0 <= i < |points| => points[i]);
      lastPointID := 0;
      isDrawing := false;
      hasError := false;
      drawingDirection := 1;
      runningBlinks := 0;
      new;
      assert allPoints[..] == points;
    }

    /** pointTouched: the mouse is inside the point at index `k` of allPoints;
        `mouseHeld` is whether the left button is down. */
    method PointTouched(k: nat, mouseHeld: bool)
      requires k < allPoints.Length
      modifies this, allPoints, curveManager
      ensures Snapshot() == Touch(old(Snapshot()), k, mouseHeld)
    {
      ghost var s := Snapshot();
      if hasError {
        return;
      }
      if !mouseHeld {
        return;
      }
      var point := allPoints[k];
      if point.state == On {
        return;
      }
      if !isDrawing {
        if point.id == 1 {
          lastPointID := 0;
          drawingDirection := 1;
        }
        if point.id == allPoints.Length {
          lastPointID := allPoints.Length + 1;
          drawingDirection := -1;
        }
      }
      ghost var o := if s.isDrawing then s else Orient(s, point.id);
      assert lastPointID == o.lastPointID && drawingDirection == o.direction;
      if point.id != lastPointID + drawingDirection {
        CallError();
        return;
      }
      allPoints[k] := point.(state := On);
      isDrawing := true;
      if point.id != lastPointID {
        lastPointID := lastPointID + drawingDirection;
      }
      if lastPointID + drawingDirection > allPoints.Length || lastPointID + drawingDirection <= 0 {
        curveManager.UnlockNext();
        ResetDrawing();
      }
    }

    /** checkLineDistance, with what the ray cast and the spline see given as `probe`. */
    method CheckLineDistance(probe: Probe)
      modifies this
      ensures Snapshot() == CheckDistance(old(Snapshot()), probe)
    {
      if !isDrawing {
        return;
      }
      if hasError {
        return;
      }
      match probe
      case NoHit =>
        CallError();
      case Hit(foreignCollider, beyondMaxDistance) =>
        if foreignCollider {
          CallError();
        }
        if beyondMaxDistance {
          CallError();
        }
    }

    /** Update, one frame: `mouseUp` is whether the left button was released in
        this frame, `probe` what the distance check sees. */
    method Update(mouseUp: bool, probe: Probe)
      modifies this, allPoints
      ensures Snapshot() == Frame(old(Snapshot()), mouseUp, probe)
    {
      if !isDrawing {
        return;
      }
      if hasError {
        return;
      }
      CheckLineDistance(probe);
      if mouseUp {
        ResetDrawing();
        ghost var before := allPoints[..];
        var i := 0;
        while i < allPoints.Length
          modifies allPoints
          invariant 0 <= i <= allPoints.Length
          invariant forall j :: 0 <= j < i ==> allPoints[j] == before[j].(state := Off)
          invariant forall j :: i <= j < allPoints.Length ==> allPoints[j] == before[j]
        {
          allPoints[i] := allPoints[i].(state := Off);
          i := i + 1;
        }
        assert allPoints[..] == Painted(before, Off);
      }
    }

    /** callError: raise the error flag and start the blink animation. */
    method CallError()
      modifies this
      ensures Snapshot() == TracingSpec.CallError(old(Snapshot()))
    {
      hasError := true;
      runningBlinks := runningBlinks + 1;
    }

    /** blinkPoints, from its start to its end once its waits have elapsed:
        the points go to the error state and off four times, then the line is
        reset and the animation is over. */
    method BlinkPoints()
      requires runningBlinks > 0
      modifies this, allPoints
      ensures Snapshot() == BlinkDone(old(Snapshot()))
    {
      ghost var s := Snapshot();
      TurnAllPoints(false);
      TurnAllPoints(true);
      TurnAllPoints(false);
      TurnAllPoints(true);
      TurnAllPoints(false);
      TurnAllPoints(true);
      TurnAllPoints(false);
      TurnAllPoints(true);
      ResetDrawing();
      runningBlinks := runningBlinks - 1;
      assert allPoints[..] == Painted(s.points, Off);
    }

    /** turnAllPoints: every point to the error state (`on` false) or off (`on` true). */
    method TurnAllPoints(on: bool)
      modifies allPoints
      ensures allPoints[..] == Painted(old(allPoints[..]), if on then Off else Error)
    {
      var i := 0;
      while i < allPoints.Length
        invariant 0 <= i <= allPoints.Length
        invariant forall j :: 0 <= j < i ==>
                    allPoints[j] == old(allPoints[j]).(state := if on then Off else Error)
        invariant forall j :: i <= j < allPoints.Length ==> allPoints[j] == old(allPoints[j])
      {
        if !on {
          allPoints[i] := allPoints[i].(state := Error);
        } else {
          allPoints[i] := allPoints[i].(state := Off);
        }
        i := i + 1;
      }
    }

    /** resetDrawing: ready for a new trace; the direction is kept. */
    method ResetDrawing()
      modifies this
      ensures Snapshot() == Reset(old(Snapshot()))
    {
      isDrawing := false;
      lastPointID := 0;
      hasError := false;
    }
  }
}
