/** What the transitions of `TracingSpec` promise: which touches are accepted,
    that an accepted touch advances the trace by exactly one point, that the
    trace can only start at an end and only unlocks at the other end, and that
    every state reached from a fresh line keeps the invariant `Inv` (for
    well-numbered points that all start off, with each blink animation run as
    one event) and the bounds `Bounded` (for any well-numbered points).
 */
module TracingProofs {
  import opened TracingSpec

  /** The IDs of the points are exactly 1..Count, in any order. */
  predicate WellNumbered(points: seq<LinePoint>)
  {
    && (forall i :: 0 <= i < |points| ==> 1 <= points[i].id <= |points|)
    && (forall i, j :: 0 <= i < |points| && 0 <= j < |points| && i != j ==> points[i].id != points[j].id)
  }

  /** The point with ID `id` lies on the part of the line traced so far. */
  predicate Traced(s: Line, id: int)
  {
    if s.direction == 1 then 1 <= id <= s.lastPointID else s.lastPointID <= id <= |s.points|
  }

  /** The invariant of a line whose points are well numbered. While drawing, the
      last point is a real point and the points that are on are exactly those
      traced from the starting end up to it; while not drawing, the trace is
      empty and the points are all off or (after an unlock) all on; an error
      always has a blink animation running that will clear it. */
  predicate Inv(s: Line)
  {
    && WellNumbered(s.points)
    && (s.direction == 1 || s.direction == -1)
    && (s.hasError ==> s.runningBlinks > 0)
    && (s.isDrawing ==>
          && 1 <= s.lastPointID <= |s.points|
          && forall i :: 0 <= i < |s.points| ==> (s.points[i].state == On <==> Traced(s, s.points[i].id)))
    && (!s.isDrawing ==>
          s.lastPointID == 0 && (AllIn(s.points, Off) || AllIn(s.points, On)))
  }

  /** The touch of a point with ID `id` passes the check at the heart of
      pointTouched: during a trace only the next ID in the direction of travel,
      otherwise either end, or the ID one step from the (reset) last point. */
  predicate Accepts(s: Line, id: int)
  {
    if s.isDrawing then id == s.lastPointID + s.direction
    else id == 1 || id == |s.points| || id == s.lastPointID + s.direction
  }

  /** The direction a touch of `id` leaves behind when it is accepted. */
  function DirectionAfter(s: Line, id: int): int
  {
    if s.isDrawing then s.direction
    else if id == |s.points| then -1
    else if id == 1 then 1
    else s.direction
  }

  lemma ResetIdempotent(s: Line)
    ensures Reset(Reset(s)) == Reset(s)
  {
  }

  /** A rejected touch only raises the error: the last point, the drawing flag,
      the direction, the point states and the unlock count are unchanged. */
  lemma TouchRejected(s: Line, k: nat, mouseHeld: bool)
    requires k < |s.points|
    requires !Ignored(s, k, mouseHeld) && !Accepts(s, s.points[k].id)
    ensures Touch(s, k, mouseHeld) == CallError(s)
  {
  }

  /** An accepted touch turns the point on, moves the last point to it (or
      resets the line after exactly one unlock when that passes an end), and
      raises no error. */
  lemma TouchAccepted(s: Line, k: nat, mouseHeld: bool)
    requires k < |s.points|
    requires !Ignored(s, k, mouseHeld) && Accepts(s, s.points[k].id)
    ensures var r := Touch(s, k, mouseHeld);
            var id := s.points[k].id;
            && r.points == s.points[k := LinePoint(id, On)]
            && !r.hasError && r.runningBlinks == s.runningBlinks
            && r.direction == DirectionAfter(s, id)
            && (if PastEnd(s, id, r.direction)
                then r.unlocked == s.unlocked + 1 && !r.isDrawing && r.lastPointID == 0
                else r.unlocked == s.unlocked && r.isDrawing && r.lastPointID == id)
  {
  }

  /** A touch is accepted exactly when it turns its point on. */
  lemma AcceptedIffTurnedOn(s: Line, k: nat, mouseHeld: bool)
    requires k < |s.points|
    ensures Touch(s, k, mouseHeld).points[k].state == On <==>
              s.points[k].state == On || (!Ignored(s, k, mouseHeld) && Accepts(s, s.points[k].id))
  {
    if !Ignored(s, k, mouseHeld) {
      if Accepts(s, s.points[k].id) {
        TouchAccepted(s, k, mouseHeld);
      } else {
        TouchRejected(s, k, mouseHeld);
      }
    }
  }

  /** A fresh line whose points are well numbered and all off satisfies Inv. */
  lemma InitInv(points: seq<LinePoint>)
    requires WellNumbered(points) && AllIn(points, Off)
    ensures Inv(Init(points))
  {
  }

  /** With well-numbered points, passing an end after the point with ID `id`
      means `id` is the far end of the direction of travel. */
  lemma PastEndIsFarEnd(s: Line, id: int, direction: int)
    requires 1 <= id <= |s.points| && (direction == 1 || direction == -1)
    ensures PastEnd(s, id, direction) <==> id == (if direction == 1 then |s.points| else 1)
  {
  }

  /** When the last traced point is the far end, every point is traced. */
  lemma FarEndTracesAll(s: Line)
    requires WellNumbered(s.points) && (s.direction == 1 || s.direction == -1)
    requires s.lastPointID == (if s.direction == 1 then |s.points| else 1)
    ensures forall i :: 0 <= i < |s.points| ==> Traced(s, s.points[i].id)
  {
  }

  /** The accepted touch of the point after the last traced one extends the
      traced part by exactly that point. */
  lemma ExtendTraced(s: Line, t: Line, k: nat)
    requires Inv(s) && s.isDrawing && k < |s.points|
    requires s.points[k].id == s.lastPointID + s.direction
    requires t == s.(points := s.points[k := s.points[k].(state := On)], lastPointID := s.points[k].id)
    ensures forall i :: 0 <= i < |t.points| ==> (t.points[i].state == On <==> Traced(t, t.points[i].id))
  {
    forall i | 0 <= i < |t.points|
      ensures t.points[i].state == On <==> Traced(t, t.points[i].id)
    {
      if i != k {
        assert s.points[i].id != s.points[k].id;
        assert Traced(t, s.points[i].id) <==> Traced(s, s.points[i].id);
      }
    }
  }

  /** pointTouched keeps the invariant. */
  lemma TouchKeepsInv(s: Line, k: nat, mouseHeld: bool)
    requires Inv(s) && k < |s.points|
    ensures Inv(Touch(s, k, mouseHeld))
  {
    var r := Touch(s, k, mouseHeld);
    var id := s.points[k].id;
    if Ignored(s, k, mouseHeld) {
      return;
    }
    if !Accepts(s, id) {
      TouchRejected(s, k, mouseHeld);
      return;
    }
    TouchAccepted(s, k, mouseHeld);
    var d := r.direction;
    var t := s.(points := s.points[k := s.points[k].(state := On)], lastPointID := id, direction := d, isDrawing := true);
    assert WellNumbered(t.points) by {
      assert forall i :: 0 <= i < |t.points| ==> t.points[i].id == s.points[i].id;
    }
    if s.isDrawing {
      ExtendTraced(s, t, k);
    } else {
      assert AllIn(s.points, Off);
      assert id == 1 || id == |s.points|;
      forall i | 0 <= i < |t.points|
        ensures t.points[i].state == On <==> Traced(t, t.points[i].id)
      {
        if i != k {
          assert s.points[i].id != id;
        }
      }
    }
    PastEndIsFarEnd(s, id, d);
    if PastEnd(s, id, d) {
      FarEndTracesAll(t);
      assert AllIn(r.points, On);
    } else {
      assert r == t.(unlocked := r.unlocked);
    }
  }

  /** checkLineDistance keeps the invariant. */
  lemma CheckKeepsInv(s: Line, probe: Probe)
    requires Inv(s)
    ensures Inv(CheckDistance(s, probe))
  {
    var r := CheckDistance(s, probe);
    assert r.(hasError := s.hasError, runningBlinks := s.runningBlinks) == s;
  }

  /** An Update frame keeps the invariant. */
  lemma FrameKeepsInv(s: Line, mouseUp: bool, probe: Probe)
    requires Inv(s)
    ensures Inv(Frame(s, mouseUp, probe))
  {
    CheckKeepsInv(s, probe);
    var r := Frame(s, mouseUp, probe);
    assert WellNumbered(r.points) by {
      assert forall i :: 0 <= i < |r.points| ==> r.points[i].id == s.points[i].id;
    }
  }

  /** The end of a blink animation keeps the invariant. */
  lemma BlinkKeepsInv(s: Line)
    requires Inv(s) && s.runningBlinks > 0
    ensures Inv(BlinkDone(s))
  {
    var r := BlinkDone(s);
    assert WellNumbered(r.points) by {
      assert forall i :: 0 <= i < |r.points| ==> r.points[i].id == s.points[i].id;
    }
  }

  lemma StepKeepsInv(s: Line, e: Event)
    requires Inv(s)
    ensures Inv(Step(s, e))
  {
    match e
    case TouchPoint(k, held) =>
      if k < |s.points| { TouchKeepsInv(s, k, held); }
    case Check(probe) => CheckKeepsInv(s, probe);
    case Tick(up, probe) => FrameKeepsInv(s, up, probe);
    case BlinkFinished =>
      if s.runningBlinks > 0 { BlinkKeepsInv(s); }
  }

  /** Every sequence of events keeps the invariant. */
  lemma {:induction false} RunKeepsInv(s: Line, events: seq<Event>)
    requires Inv(s)
    ensures Inv(Run(s, events))
    decreases |events|
  {
    if events != [] {
      StepKeepsInv(s, events[0]);
      RunKeepsInv(Step(s, events[0]), events[1..]);
    }
  }

  /** The part of `Inv` that says nothing about the states of the points. */
  predicate Bounded(s: Line)
  {
    && WellNumbered(s.points)
    && (s.direction == 1 || s.direction == -1)
    && (s.hasError ==> s.runningBlinks > 0)
    && (s.isDrawing ==> 1 <= s.lastPointID <= |s.points|)
    && (!s.isDrawing ==> s.lastPointID == 0)
  }

  /** Whatever state the points are in, `Bounded` only looks at their IDs: a
      turnAllPoints in the middle of a blink animation cannot break it. */
  lemma RepaintKeepsBounded(s: Line, points: seq<LinePoint>)
    requires Bounded(s) && |points| == |s.points|
    requires forall i :: 0 <= i < |points| ==> points[i].id == s.points[i].id
    ensures Bounded(s.(points := points))
  {
  }

  /** Every event keeps `Bounded`, from any state that satisfies it. */
  lemma StepKeepsBounded(s: Line, e: Event)
    requires Bounded(s)
    ensures Bounded(Step(s, e))
  {
    match e
    case TouchPoint(k, held) =>
      if k < |s.points| && !Ignored(s, k, held) {
        if Accepts(s, s.points[k].id) {
          TouchAccepted(s, k, held);
        } else {
          TouchRejected(s, k, held);
        }
      }
    case Check(probe) =>
    case Tick(up, probe) =>
    case BlinkFinished =>
  }

  /** Every sequence of events keeps `Bounded`. */
  lemma {:induction false} RunKeepsBounded(s: Line, events: seq<Event>)
    requires Bounded(s)
    ensures Bounded(Run(s, events))
    decreases |events|
  {
    if events != [] {
      StepKeepsBounded(s, events[0]);
      RunKeepsBounded(Step(s, events[0]), events[1..]);
    }
  }

  /** In every state reached from a fresh line with well-numbered points,
      whatever the points' initial states: while drawing the last point ID
      lies in 1..Count, otherwise it is 0, the direction is +1 or -1, and an
      error is always being animated (and so will be cleared). */
  lemma ReachableBounds(points: seq<LinePoint>, events: seq<Event>)
    requires WellNumbered(points)
    ensures var r := Run(Init(points), events);
            && (r.isDrawing ==> 1 <= r.lastPointID <= |points|)
            && (!r.isDrawing ==> r.lastPointID == 0)
            && (r.direction == 1 || r.direction == -1)
            && (r.hasError ==> r.runningBlinks > 0)
  {
    RunKeepsBounded(Init(points), events);
    RunKeepsPoints(Init(points), events);
  }

  /** Every sequence of moments, with the turnAllPoints calls of running
      animations interleaved with the other events, keeps `Bounded`. */
  lemma {:induction false} InterleavedKeepsBounded(s: Line, moments: seq<Moment>)
    requires Bounded(s)
    ensures Bounded(RunInterleaved(s, moments))
    decreases |moments|
  {
    if moments != [] {
      var r := Interleave(s, moments[0]);
      match moments[0] {
        case Deliver(e) => StepKeepsBounded(s, e);
        case Repaint(_) => RepaintKeepsBounded(s, r.points);
      }
      InterleavedKeepsBounded(r, moments[1..]);
    }
  }

  /** The bounds of `ReachableBounds` also hold when blink animations repaint
      the points at any moment between the other events. */
  lemma ReachableBoundsInterleaved(points: seq<LinePoint>, moments: seq<Moment>)
    requires WellNumbered(points)
    ensures var r := RunInterleaved(Init(points), moments);
            && (r.isDrawing ==> 1 <= r.lastPointID <= |r.points|)
            && (!r.isDrawing ==> r.lastPointID == 0)
            && (r.direction == 1 || r.direction == -1)
            && (r.hasError ==> r.runningBlinks > 0)
  {
    InterleavedKeepsBounded(Init(points), moments);
  }

  /** A run never changes the number of points or their IDs. */
  lemma {:induction false} RunKeepsPoints(s: Line, events: seq<Event>)
    ensures |Run(s, events).points| == |s.points|
    ensures forall i :: 0 <= i < |s.points| ==> Run(s, events).points[i].id == s.points[i].id
    decreases |events|
  {
    if events != [] {
      RunKeepsPoints(Step(s, events[0]), events[1..]);
    }
  }

  /** When the line is not drawing, a touch that is not ignored is accepted
      exactly when it is of point 1 or point Count; an accepted one sets the
      direction to travel away from that end. */
  lemma FirstTouchIsAnEnd(s: Line, k: nat, mouseHeld: bool)
    requires Bounded(s) && k < |s.points|
    requires !s.isDrawing && !Ignored(s, k, mouseHeld)
    ensures var id := s.points[k].id;
            Accepts(s, id) <==> id == 1 || id == |s.points|
    ensures var id := s.points[k].id;
            Accepts(s, id) ==>
              Touch(s, k, mouseHeld).direction == (if id == |s.points| then -1 else 1)
  {
    var id := s.points[k].id;
    if Accepts(s, id) {
      TouchAccepted(s, k, mouseHeld);
    }
  }

  /** During a trace, a touch that keeps the line drawing moved the last point
      exactly one step in the direction of travel, and kept that direction. */
  lemma AdvanceByOne(s: Line, k: nat, mouseHeld: bool)
    requires Bounded(s) && k < |s.points| && s.isDrawing
    ensures var r := Touch(s, k, mouseHeld);
            r.isDrawing ==>
              r.direction == s.direction &&
              (r.lastPointID == s.lastPointID || r.lastPointID == s.lastPointID + s.direction)
    ensures var r := Touch(s, k, mouseHeld);
            r.isDrawing && r.points[k].state == On && s.points[k].state != On ==>
              r.lastPointID == s.lastPointID + s.direction == s.points[k].id
  {
    var id := s.points[k].id;
    if !Ignored(s, k, mouseHeld) {
      if Accepts(s, id) {
        TouchAccepted(s, k, mouseHeld);
      } else {
        TouchRejected(s, k, mouseHeld);
      }
    }
  }

  /** A touch unlocks the next image (once) exactly when it is accepted and its
      point is the far end of the trace. */
  lemma UnlockAtFarEnd(s: Line, k: nat, mouseHeld: bool)
    requires Bounded(s) && k < |s.points|
    ensures var r := Touch(s, k, mouseHeld);
            var id := s.points[k].id;
            r.unlocked == s.unlocked + 1 <==>
              !Ignored(s, k, mouseHeld) && Accepts(s, id) &&
              id == (if DirectionAfter(s, id) == 1 then |s.points| else 1)
  {
    var id := s.points[k].id;
    if !Ignored(s, k, mouseHeld) {
      if Accepts(s, id) {
        TouchAccepted(s, k, mouseHeld);
        PastEndIsFarEnd(s, id, DirectionAfter(s, id));
      } else {
        TouchRejected(s, k, mouseHeld);
      }
    }
  }

  /** The touch that unlocks leaves the line reset with every point on. */
  lemma UnlockLeavesAllOn(s: Line, k: nat, mouseHeld: bool)
    requires Inv(s) && k < |s.points|
    ensures var r := Touch(s, k, mouseHeld);
            r.unlocked == s.unlocked + 1 ==>
              !r.isDrawing && !r.hasError && r.lastPointID == 0 && AllIn(r.points, On)
  {
    var id := s.points[k].id;
    TouchKeepsInv(s, k, mouseHeld);
    if !Ignored(s, k, mouseHeld) {
      if Accepts(s, id) {
        TouchAccepted(s, k, mouseHeld);
        if PastEnd(s, id, DirectionAfter(s, id)) {
          var r := Touch(s, k, mouseHeld);
          assert r.points[k].state == On;
        }
      } else {
        TouchRejected(s, k, mouseHeld);
      }
    }
  }

  /** The IDs of the points, in list order. */
  function Ids(points: seq<LinePoint>): (ids: seq<int>)
    ensures |ids| == |points|
    ensures forall i :: 0 <= i < |points| ==> ids[i] == points[i].id
  {
    seq(|points|, i requires 0 <= i < |points| => points[i].id)
  }

  /** The first index at which `id` occurs in `ids`, or |ids| when it does not. */
  function IndexOf(ids: seq<int>, id: int): (i: nat)
    ensures i <= |ids|
    ensures i < |ids| <==> id in ids
    ensures i < |ids| ==> ids[i] == id
  {
    if ids == [] then 0
    else if ids[0] == id then 0
    else 1 + IndexOf(ids[1..], id)
  }

  /** The number of distinct values in a list without repetitions is its length. */
  lemma {:induction false} DistinctCard(ids: seq<int>)
    requires forall i, j :: 0 <= i < |ids| && 0 <= j < |ids| && i != j ==> ids[i] != ids[j]
    ensures |set x | x in ids| == |ids|
  {
    if ids != [] {
      var p := ids[..|ids| - 1];
      var last := ids[|ids| - 1];
      DistinctCard(p);
      forall i | 0 <= i < |p|
        ensures p[i] != last
      {
        assert p[i] == ids[i];
      }
      assert last !in p;
      assert (set x | x in ids) == (set x | x in p) + {last};
    }
  }

  /** The IDs 1..n. */
  function Range(n: nat): (r: set<int>)
    ensures forall x :: x in r <==> 1 <= x <= n
    ensures |r| == n
  {
    if n == 0 then {} else Range(n - 1) + {n}
  }

  /** A subset is no larger than its superset. */
  lemma SubsetCard(a: set<int>, b: set<int>)
    requires a <= b
    ensures |a| <= |b|
  {
    assert b == a + (b - a);
    assert a * (b - a) == {};
  }

  /** Count distinct IDs from 1..Count leave none out: every ID of the line
      belongs to some point. */
  lemma WellNumberedCovers(points: seq<LinePoint>, id: int)
    requires WellNumbered(points) && 1 <= id <= |points|
    ensures id in Ids(points)
  {
    var ids := Ids(points);
    DistinctCard(ids);
    if id !in ids {
      var found := set x | x in ids;
      var range := Range(|points|);
      assert found <= range - {id};
      assert range * {id} == {id};
      SubsetCard(found, range - {id});
      assert false;
    }
  }

  /** During a trace, the touch of the point with the next ID, located by its
      ID, is accepted: it keeps the invariant and the IDs, and either moves the
      last point to it or, at the far end, unlocks once with every point on. */
  lemma TouchNext(s: Line, id: int) returns (k: nat)
    requires Inv(s) && s.isDrawing && !s.hasError && id == s.lastPointID + s.direction
    requires 1 <= id <= |s.points|
    ensures k == IndexOf(Ids(s.points), id) && k < |s.points|
    ensures var t := Touch(s, k, true);
            && Inv(t) && Ids(t.points) == Ids(s.points) && !t.hasError && t.direction == s.direction
            && t.runningBlinks == s.runningBlinks
            && (PastEnd(s, id, s.direction) ==>
                  t.unlocked == s.unlocked + 1 && !t.isDrawing && AllIn(t.points, On))
            && (!PastEnd(s, id, s.direction) ==>
                  t.unlocked == s.unlocked && t.isDrawing && t.lastPointID == id)
  {
    WellNumberedCovers(s.points, id);
    k := IndexOf(Ids(s.points), id);
    assert s.points[k].id == id && !Traced(s, id);
    TouchAccepted(s, k, true);
    TouchKeepsInv(s, k, true);
    UnlockAtFarEnd(s, k, true);
    UnlockLeavesAllOn(s, k, true);
    var t := Touch(s, k, true);
    assert Ids(t.points) == Ids(s.points);
  }

  /** Touches, with the button held, of the points with the last `m` IDs,
      in increasing order: |ids| - m + 1, ..., |ids|. */
  function SweepUp(ids: seq<int>, m: nat): seq<Event>
  {
    if m == 0 then [] else [TouchPoint(IndexOf(ids, |ids| - m + 1), true)] + SweepUp(ids, m - 1)
  }

  /** Touches, with the button held, of the points with IDs m, ..., 1. */
  function SweepDown(ids: seq<int>, m: nat): seq<Event>
  {
    if m == 0 then [] else [TouchPoint(IndexOf(ids, m), true)] + SweepDown(ids, m - 1)
  }

  /** Running an upward sweep is running its first touch, then the rest. */
  lemma RunSweepUp(s: Line, ids: seq<int>, m: nat, k: nat)
    requires m >= 1 && k == IndexOf(ids, |ids| - m + 1) && k < |s.points|
    ensures Run(s, SweepUp(ids, m)) == Run(Touch(s, k, true), SweepUp(ids, m - 1))
  {
    assert SweepUp(ids, m) == [TouchPoint(k, true)] + SweepUp(ids, m - 1);
    RunTouchFirst(s, k, SweepUp(ids, m - 1));
  }

  /** Running a downward sweep is running its first touch, then the rest. */
  lemma RunSweepDown(s: Line, ids: seq<int>, m: nat, k: nat)
    requires m >= 1 && k == IndexOf(ids, m) && k < |s.points|
    ensures Run(s, SweepDown(ids, m)) == Run(Touch(s, k, true), SweepDown(ids, m - 1))
  {
    assert SweepDown(ids, m) == [TouchPoint(k, true)] + SweepDown(ids, m - 1);
    RunTouchFirst(s, k, SweepDown(ids, m - 1));
  }

  /** Running a touch of an existing point followed by more events. */
  lemma RunTouchFirst(s: Line, k: nat, rest: seq<Event>)
    requires k < |s.points|
    ensures Run(s, [TouchPoint(k, true)] + rest) == Run(Touch(s, k, true), rest)
  {
    var events := [TouchPoint(k, true)] + rest;
    assert events[0] == TouchPoint(k, true) && events[1..] == rest;
  }

  /** The first touch of an upward sweep during a forward trace, with `m`
      points still to go. */
  lemma StepUp(s: Line, ids: seq<int>, m: nat) returns (t: Line)
    requires Inv(s) && ids == Ids(s.points)
    requires s.isDrawing && !s.hasError && s.runningBlinks == 0 && s.direction == 1 && s.lastPointID == |s.points| - m
    requires 1 <= m < |s.points|
    ensures Run(s, SweepUp(ids, m)) == Run(t, SweepUp(ids, m - 1))
    ensures Inv(t) && ids == Ids(t.points) && !t.hasError && t.runningBlinks == 0 && t.direction == 1
    ensures m == 1 ==> t.unlocked == s.unlocked + 1 && !t.isDrawing && AllIn(t.points, On)
    ensures m > 1 ==> t.unlocked == s.unlocked && t.isDrawing && t.lastPointID == |t.points| - (m - 1)
  {
    var n := |s.points|;
    assert |ids| == n;
    var k := TouchNext(s, n - m + 1);
    RunSweepUp(s, ids, m, k);
    t := Touch(s, k, true);
  }

  /** The first touch of a downward sweep during a backward trace, with
      last point j + 1. */
  lemma StepDown(s: Line, ids: seq<int>, j: nat) returns (t: Line)
    requires Inv(s) && ids == Ids(s.points)
    requires s.isDrawing && !s.hasError && s.runningBlinks == 0 && s.direction == -1 && s.lastPointID == j + 1 >= 2
    ensures Run(s, SweepDown(ids, j)) == Run(t, SweepDown(ids, j - 1))
    ensures Inv(t) && ids == Ids(t.points) && !t.hasError && t.runningBlinks == 0 && t.direction == -1
    ensures j == 1 ==> t.unlocked == s.unlocked + 1 && !t.isDrawing && AllIn(t.points, On)
    ensures j > 1 ==> t.unlocked == s.unlocked && t.isDrawing && t.lastPointID == j
  {
    var k := TouchNext(s, j);
    RunSweepDown(s, ids, j, k);
    t := Touch(s, k, true);
  }

  /** Mid-trace forwards with `m` points still to go and no blink animation
      running, touching the points with the remaining IDs in increasing order,
      wherever they are in the list, completes the line with exactly one
      unlock. */
  lemma {:induction false} FinishUp(s: Line, ids: seq<int>, m: nat)
    requires Inv(s) && ids == Ids(s.points)
    requires s.isDrawing && !s.hasError && s.runningBlinks == 0 && s.direction == 1 && s.lastPointID == |s.points| - m
    requires 1 <= m < |s.points|
    ensures var r := Run(s, SweepUp(ids, m));
            r.unlocked == s.unlocked + 1 && !r.isDrawing && AllIn(r.points, On)
    decreases m
  {
    var t := StepUp(s, ids, m);
    if m > 1 {
      FinishUp(t, ids, m - 1);
    } else {
      assert SweepUp(ids, 0) == [] && Run(t, []) == t;
    }
  }

  /** Mid-trace backwards with no blink animation running, touching the points
      with the remaining IDs in decreasing order, wherever they are in the
      list, completes the line with exactly one unlock. */
  lemma {:induction false} FinishDown(s: Line, ids: seq<int>, j: nat)
    requires Inv(s) && ids == Ids(s.points)
    requires s.isDrawing && !s.hasError && s.runningBlinks == 0 && s.direction == -1 && s.lastPointID == j + 1 >= 2
    ensures var r := Run(s, SweepDown(ids, j));
            r.unlocked == s.unlocked + 1 && !r.isDrawing && AllIn(r.points, On)
    decreases j
  {
    var t := StepDown(s, ids, j);
    if j > 1 {
      FinishDown(t, ids, j - 1);
    } else {
      assert SweepDown(ids, 0) == [] && Run(t, []) == t;
    }
  }

  /** The first touch of a trace on a fresh line, of the point with ID 1 or
      Count: it starts the trace away from that end, or, with a single point,
      already unlocks. */
  lemma StartTrace(points: seq<LinePoint>, id: int)
    requires WellNumbered(points) && AllIn(points, Off) && (id == 1 || id == |points|) && |points| > 0
    ensures IndexOf(Ids(points), id) < |points|
    ensures var t := Touch(Init(points), IndexOf(Ids(points), id), true);
            && Inv(t) && Ids(t.points) == Ids(points) && !t.hasError && t.runningBlinks == 0
            && (if |points| == 1 then t.unlocked == 1 && !t.isDrawing && AllIn(t.points, On)
                else t.unlocked == 0 && t.isDrawing && t.lastPointID == id &&
                     t.direction == (if id == 1 then 1 else -1))
  {
    var s := Init(points);
    WellNumberedCovers(points, id);
    var k := IndexOf(Ids(points), id);
    InitInv(points);
    TouchAccepted(s, k, true);
    TouchKeepsInv(s, k, true);
    UnlockAtFarEnd(s, k, true);
    UnlockLeavesAllOn(s, k, true);
    var t := Touch(s, k, true);
    assert Ids(t.points) == Ids(points);
  }

  /** A fresh line with well-numbered points, all off, is unlocked exactly once
      by touching its points from ID 1 to ID Count with the button held. */
  lemma {:induction false} TraceForwardUnlocks(points: seq<LinePoint>)
    requires WellNumbered(points) && AllIn(points, Off) && |points| > 0
    ensures var r := Run(Init(points), SweepUp(Ids(points), |points|));
            r.unlocked == 1 && !r.isDrawing && AllIn(r.points, On)
  {
    var n := |points|;
    var ids := Ids(points);
    StartTrace(points, 1);
    var k := IndexOf(ids, 1);
    RunSweepUp(Init(points), ids, n, k);
    var t := Touch(Init(points), k, true);
    if n > 1 {
      FinishUp(t, ids, n - 1);
    } else {
      assert SweepUp(ids, 0) == [] && Run(t, []) == t;
    }
  }

  /** A fresh line with well-numbered points, all off, is unlocked exactly once
      by touching its points from ID Count down to ID 1 with the button held. */
  lemma {:induction false} TraceBackwardUnlocks(points: seq<LinePoint>)
    requires WellNumbered(points) && AllIn(points, Off) && |points| > 0
    ensures var r := Run(Init(points), SweepDown(Ids(points), |points|));
            r.unlocked == 1 && !r.isDrawing && AllIn(r.points, On)
  {
    var n := |points|;
    var ids := Ids(points);
    StartTrace(points, n);
    var k := IndexOf(ids, n);
    RunSweepDown(Init(points), ids, n, k);
    var t := Touch(Init(points), k, true);
    if n > 1 {
      FinishDown(t, ids, n - 1);
    } else {
      assert SweepDown(ids, 0) == [] && Run(t, []) == t;
    }
  }
}
