/** The touch-gesture recogniser of gestures.js, as a state machine.

    A DOM touch event is its list of touches (page coordinates and the
    element touched) and, where the handler reads the wall clock, a
    timestamp `now` in milliseconds. `dispatch` appends a `Gesture` to the
    recogniser's log. `calcAngle` and `calcDistance`, followed by the
    `parseInt` that truncates them, are uninterpreted integer-valued
    functions of the first two fingers. The `setTimeout` callbacks
    (the hold check and the deferred single tap) are entries of the
    recogniser's state and fire when the caller says so. */
module Gestures {
  import opened Options
  import opened Maths

  /** How long a touch must last to be a hold, in milliseconds. */
  const HoldDelay: int := 650
  /** The longest gap between two taps that makes a double tap, and the
      delay before a single tap is reported, in milliseconds. */
  const TapWindow: int := 250
  /** A one-finger displacement beyond this is a swipe. */
  const SwipeThreshold: real := 30.0
  /** A two-finger displacement beyond this is a drag. */
  const DragThreshold: real := 10.0
  /** A change of finger distance beyond this is a pinch. */
  const PinchThreshold: int := 10
  /** A change of finger angle beyond this starts a rotation. */
  const RotateThreshold: int := 20

  datatype Point = Point(x: real, y: real)

  /** One entry of a touch list: its page coordinates and the element it
      landed on (already lifted from a text node to its parent). */
  datatype Touch = Touch(pageX: real, pageY: real, target: nat)

  /** `calcAngle` and `calcDistance` after `parseInt`: the inclination of
      the line through two fingers, in whole degrees, and the whole part
      of their distance (`calcDistance` is its negation). */
  datatype Geometry = Geometry(angle: (Point, Point) -> int, span: (Point, Point) -> nat)

  datatype Direction = Left | Right | Up | Down

  /** The events the recogniser dispatches, with the property each carries. */
  datatype Gesture =
    | Swiping | Swipe | SwipeTo(direction: Direction)
    | DoubleTap | SingleTap | Hold
    | Rotating(angle: int) | Rotate(angle: int) | RotateRight(angle: int) | RotateLeft(angle: int)
    | Pinching(distance: int) | Pinch(distance: int) | PinchOut(distance: int) | PinchIn(distance: int)
    | Drag | DragTo(direction: Direction)

  function Dist(a: int, b: int): (d: nat)
    ensures d == a - b || d == b - a
  {
    if a < b then b - a else a - b
  }

  function Opposite(d: Direction): Direction
  {
    match d
    case Left => Right
    case Right => Left
    case Up => Down
    case Down => Up
  }

  predicate Horizontal(d: Direction)
  {
    d == Left || d == Right
  }

  /** `getSwipeDirection` from (x1, y1) to (x2, y2): along the axis of the
      larger displacement (ties go horizontal), towards the side the
      finger moved to. */
  function SwipeDirection(x1: real, x2: real, y1: real, y2: real): (d: Direction)
    ensures Horizontal(d) <==> Abs(x1 - x2) >= Abs(y1 - y2)
    ensures d == Left ==> x2 < x1
    ensures d == Right ==> x2 >= x1
    ensures d == Up ==> y2 < y1
    ensures d == Down ==> y2 >= y1
  {
    if Abs(x1 - x2) >= Abs(y1 - y2) then
      (if x1 - x2 > 0.0 then Left else Right)
    else
      (if y1 - y2 > 0.0 then Up else Down)
  }

  /** Retracing a stroke reverses its direction, unless the finger did not
      move at all. */
  lemma ReversedSwipe(x1: real, x2: real, y1: real, y2: real)
    requires x1 != x2 || y1 != y2
    ensures SwipeDirection(x2, x1, y2, y1) == Opposite(SwipeDirection(x1, x2, y1, y2))
  {
    assert Abs(x2 - x1) == Abs(x1 - x2) && Abs(y2 - y1) == Abs(y1 - y2);
  }

  /** `getFingerPosition`: the page coordinates of the first `fingers`
      touches, in order. */
  method FingerPositions(touches: seq<Touch>, fingers: nat) returns (result: seq<Point>)
    requires fingers <= |touches|
    ensures |result| == fingers
    ensures forall i :: 0 <= i < fingers ==> result[i] == Point(touches[i].pageX, touches[i].pageY)
  {
    result := [];
    var i := 0;
    while i < fingers
      invariant 0 <= i <= fingers && |result| == i
      invariant forall j :: 0 <= j < i ==> result[j] == Point(touches[j].pageX, touches[j].pageY)
    {
      result := result + [Point(touches[i].pageX, touches[i].pageY)];
      i := i + 1;
    }
  }

  /** A touch start is the second tap of a double tap when the previous
      start is recorded and lies 1 to 250 ms back; the first start (no
      recorded time, or the falsy time 0) counts as 0 ms back. */
  function IsDoubleTap(last: Option<int>, now: int): (b: bool)
    ensures b <==> last.Some? && last.value != 0 && 0 < now - last.value <= TapWindow
  {
    var delta := now - (if last.Some? && last.value != 0 then last.value else now);
    delta > 0 && delta <= TapWindow
  }

  // ---------------------------------------------------------------------
  // Rotation unwinding

  /** The step of the unwinding loop of `gestureRotation` as written:
      180 degrees, subtracted when the previous angle difference is
      negative and added otherwise, whatever side the gap is on. */
  function FixedTurn(previous: int): int
  {
    if previous < 0 then -180 else 180
  }

  /** The unwinding loop as written: while `diff` is more than 90 degrees
      from the previous difference, add `turn`, at most `budget` times. */
  function UnwindFixed(diff: int, previous: int, turn: int, budget: nat): int
    decreases budget
  {
    if Dist(diff, previous) > 90 && budget > 0 then UnwindFixed(diff + turn, previous, turn, budget - 1)
    else diff
  }

  /** The unwinding the loop evidently intends: each step of 180 degrees
      goes towards the previous difference. The result never lies farther
      from `previous` than `diff`, and lies within 90 degrees of it
      whenever the budget of steps suffices. */
  function UnwindToward(diff: int, previous: int, budget: nat): (r: int)
    ensures Dist(r, previous) <= Dist(diff, previous)
    ensures Dist(diff, previous) <= 90 + 180 * budget ==> Dist(r, previous) <= 90
    decreases budget
  {
    if Dist(diff, previous) > 90 && budget > 0 then
      UnwindToward(if diff > previous then diff - 180 else diff + 180, previous, budget - 1)
    else diff
  }

  /** Unwinding changes the difference by whole half turns only, so it
      still describes the same line through the two fingers. */
  lemma {:induction false} UnwindKeepsLine(diff: int, previous: int, budget: nat)
    ensures (UnwindToward(diff, previous, budget) - diff) % 180 == 0
    decreases budget
  {
    if Dist(diff, previous) > 90 && budget > 0 {
      var next := if diff > previous then diff - 180 else diff + 180;
      UnwindKeepsLine(next, previous, budget - 1);
      var r := UnwindToward(next, previous, budget - 1);
      assert r - diff == (r - next) + (next - diff);
    }
  }

  /** As written, once `diff` lies more than 90 degrees beyond `previous`
      on the side the fixed step points to, every step moves it farther
      away and the loop spends its whole budget. */
  lemma {:induction false} FixedTurnRunsAway(diff: int, previous: int, budget: nat)
    requires (previous >= 0 && diff > previous + 90) || (previous < 0 && diff < previous - 90)
    ensures UnwindFixed(diff, previous, FixedTurn(previous), budget)
            == if previous >= 0 then diff + 180 * budget else diff - 180 * budget
    decreases budget
  {
    if budget > 0 {
      FixedTurnRunsAway(diff + FixedTurn(previous), previous, budget - 1);
    }
  }

  /** As written, the loop does settle within 90 degrees of `previous`
      when `diff` lies on the side the fixed step closes (below
      `previous` for a non-negative previous difference, above it for a
      negative one) and the budget of steps suffices. */
  lemma {:induction false} FixedTurnSettles(diff: int, previous: int, budget: nat)
    requires previous >= 0 ==> previous - 90 - 180 * budget <= diff <= previous + 90
    requires previous < 0 ==> previous - 90 <= diff <= previous + 90 + 180 * budget
    ensures Dist(UnwindFixed(diff, previous, FixedTurn(previous), budget), previous) <= 90
    decreases budget
  {
    if Dist(diff, previous) > 90 && budget > 0 {
      FixedTurnSettles(diff + FixedTurn(previous), previous, budget - 1);
    }
  }

  /** Two fingers first placed on a line inclined at 170 degrees and then
      at 5 degrees (the line turned 15 degrees through the wrap at 180)
      give diff = 165 against a previous difference of 0. As written the
      loop returns 1965; unwinding towards the previous difference
      returns -15. */
  lemma RotationAcrossTheWrap()
    ensures UnwindFixed(165, 0, FixedTurn(0), 10) == 1965
    ensures UnwindToward(165, 0, 10) == -15
  {
    FixedTurnRunsAway(165, 0, 10);
  }

  /** The unwinding loop of `gestureRotation` as written: the sign is fixed
      before the loop from the previous difference, and `i++ < 10` allows
      at most ten steps. */
  method UnwindAsWritten(diff: int, previous: int) returns (r: int)
    ensures r == UnwindFixed(diff, previous, FixedTurn(previous), 10)
  {
    var turn := FixedTurn(previous);
    r := diff;
    var i := 0;
    while Dist(r, previous) > 90 && i < 10
      invariant 0 <= i <= 10
      decreases 10 - i
      invariant UnwindFixed(r, previous, turn, 10 - i) == UnwindFixed(diff, previous, turn, 10)
    {
      i := i + 1;
      r := r + turn;
    }
  }

  /** The unwinding loop with each step taken towards the previous
      difference, as evidently intended. */
  method UnwindAngle(diff: int, previous: int) returns (r: int)
    ensures r == UnwindToward(diff, previous, 10)
  {
    r := diff;
    var i := 0;
    while Dist(r, previous) > 90 && i < 10
      invariant 0 <= i <= 10
      decreases 10 - i
      invariant UnwindToward(r, previous, 10 - i) == UnwindToward(diff, previous, 10)
    {
      i := i + 1;
      r := if r > previous then r - 180 else r + 180;
    }
  }

  /** What `gestureRotation` does with the angle difference, given the
      angle recorded at the start, the previous difference and the current
      angle: `None` leaves it alone, `Some(d)` sets it to `d` and reports
      `rotating` with angle `d`. The unwinding is the loop as written. */
  function RotationStep(initialAngle: int, previous: int, angle: int): Option<int>
  {
    var diff := initialAngle - angle;
    if Dist(diff, 0) > RotateThreshold || previous != 0 then Some(UnwindFixed(diff, previous, FixedTurn(previous), 10))
    else None
  }

  /** As written, a rotation is reported once the fingers' line has turned
      more than 20 degrees, and from then on at every move. The new
      difference settles within 90 degrees of the previous one when the
      raw difference lies on the side the fixed step closes and the
      previous difference is at most 1700 degrees from 0 (so that ten half
      turns reach it); on the other side, more than 90 degrees away, it is
      pushed ten half turns further, whatever the previous difference. */
  lemma RotationStepAsWritten(initialAngle: int, previous: int, angle: int)
    requires 0 <= initialAngle < 180 && 0 <= angle < 180
    ensures previous == 0 ==> (RotationStep(initialAngle, previous, angle).Some?
                               <==> Dist(initialAngle, angle) > RotateThreshold)
    ensures previous != 0 ==> RotationStep(initialAngle, previous, angle).Some?
    ensures var diff := initialAngle - angle;
            RotationStep(initialAngle, previous, angle).Some? && Dist(previous, 0) <= 1700 &&
            (previous >= 0 ==> diff <= previous + 90) && (previous < 0 ==> diff >= previous - 90) ==>
              Dist(RotationStep(initialAngle, previous, angle).value, previous) <= 90
    ensures var diff := initialAngle - angle;
            RotationStep(initialAngle, previous, angle).Some? && previous >= 0 && diff > previous + 90 ==>
              RotationStep(initialAngle, previous, angle).value == diff + 1800
    ensures var diff := initialAngle - angle;
            RotationStep(initialAngle, previous, angle).Some? && previous < 0 && diff < previous - 90 ==>
              RotationStep(initialAngle, previous, angle).value == diff - 1800
  {
    var diff := initialAngle - angle;
    var r := UnwindFixed(diff, previous, FixedTurn(previous), 10);
    assert RotationStep(initialAngle, previous, angle)
        == if Dist(diff, 0) > RotateThreshold || previous != 0 then Some(r) else None;
    if (previous >= 0 && diff > previous + 90) || (previous < 0 && diff < previous - 90) {
      FixedTurnRunsAway(diff, previous, 10);
    } else if Dist(previous, 0) <= 1700 {
      FixedTurnSettles(diff, previous, 10);
    }
  }

  /** `RotationStep` with the unwinding corrected: each half turn goes
      towards the previous difference. */
  function RotationStepToward(initialAngle: int, previous: int, angle: int): Option<int>
  {
    var diff := initialAngle - angle;
    if Dist(diff, 0) > RotateThreshold || previous != 0 then Some(UnwindToward(diff, previous, 10))
    else None
  }

  /** With the corrected unwinding, a rotation is reported under the same
      conditions, and for raw angles in the range `calcAngle` produces and
      a previous difference at most 1700 degrees from 0 (so that ten half
      turns reach it), each new difference lies within 90 degrees of the
      previous one, whichever side the raw difference is on. */
  lemma RotationStepSettles(initialAngle: int, previous: int, angle: int)
    requires 0 <= initialAngle < 180 && 0 <= angle < 180
    ensures previous == 0 ==> (RotationStepToward(initialAngle, previous, angle).Some?
                               <==> Dist(initialAngle, angle) > RotateThreshold)
    ensures previous != 0 ==> RotationStepToward(initialAngle, previous, angle).Some?
    ensures RotationStepToward(initialAngle, previous, angle).Some? && Dist(previous, 0) <= 1700 ==>
              Dist(RotationStepToward(initialAngle, previous, angle).value, previous) <= 90
  {
    if Dist(previous, 0) <= 1700 {
      assert Dist(initialAngle - angle, previous) <= 90 + 180 * 10;
    }
  }

  /** What `gesturePinch` does with the distance difference, given the
      distance recorded at the start and the current one (both negated
      spans, as `calcDistance` returns them). */
  function PinchStep(initialDistance: int, distance: int): Option<int>
  {
    var diff := initialDistance - distance;
    if Dist(diff, 0) > PinchThreshold then Some(diff) else None
  }

  /** A pinch is reported only when the span changed by more than 10, and
      its difference is positive exactly when the fingers spread. */
  lemma PinchFollowsSpan(startSpan: nat, span: nat)
    ensures PinchStep(-(startSpan as int), -(span as int)).Some? <==> Dist(span, startSpan) > PinchThreshold
    ensures PinchStep(-(startSpan as int), -(span as int)).Some? ==>
              (PinchStep(-(startSpan as int), -(span as int)).value > 0 <==> span > startSpan)
  {
  }

  // ---------------------------------------------------------------------
  // Gestures reported at touch end

  function RotateEvents(angle: int): seq<Gesture>
  {
    if angle == 0 then []
    else [Rotate(angle), if angle > 0 then RotateRight(angle) else RotateLeft(angle)]
  }

  function PinchEvents(distance: int): seq<Gesture>
  {
    if distance == 0 then []
    else [Pinch(distance), if distance > 0 then PinchOut(distance) else PinchIn(distance)]
  }

  function DragEvents(from: Point, to: Point): seq<Gesture>
  {
    if Abs(from.x - to.x) > DragThreshold || Abs(from.y - to.y) > DragThreshold then
      [Drag, DragTo(SwipeDirection(from.x, to.x, from.y, to.y))]
    else []
  }

  /** The gestures a two-finger touch end reports, from the recorded
      angle and distance differences and the first and current positions. */
  function TwoFingerEvents(angle: int, distance: int, first: seq<Point>, current: seq<Point>): seq<Gesture>
    requires |current| > 0 ==> |first| > 0
  {
    RotateEvents(angle) + PinchEvents(distance)
    + (if angle == 0 && distance == 0 && |current| > 0 then DragEvents(first[0], current[0]) else [])
  }

  /** A two-finger end reports a drag exactly when neither a rotation nor
      a pinch was recorded, a current touch exists and the first finger
      moved more than 10 pixels along some axis; and a rotation (a pinch) exactly when its
      difference is non-zero, on the side its sign gives. */
  lemma TwoFingerEventsClassify(angle: int, distance: int, first: seq<Point>, current: seq<Point>)
    requires |current| > 0 ==> |first| > 0
    ensures Drag in TwoFingerEvents(angle, distance, first, current)
        <==> angle == 0 && distance == 0 && |current| > 0
             && (Abs(first[0].x - current[0].x) > DragThreshold || Abs(first[0].y - current[0].y) > DragThreshold)
    ensures Rotate(angle) in TwoFingerEvents(angle, distance, first, current) <==> angle != 0
    ensures RotateRight(angle) in TwoFingerEvents(angle, distance, first, current) <==> angle > 0
    ensures RotateLeft(angle) in TwoFingerEvents(angle, distance, first, current) <==> angle < 0
    ensures Pinch(distance) in TwoFingerEvents(angle, distance, first, current) <==> distance != 0
    ensures PinchOut(distance) in TwoFingerEvents(angle, distance, first, current) <==> distance > 0
    ensures PinchIn(distance) in TwoFingerEvents(angle, distance, first, current) <==> distance < 0
  {
    var r, p := RotateEvents(angle), PinchEvents(distance);
    var d := if angle == 0 && distance == 0 && |current| > 0 then DragEvents(first[0], current[0]) else [];
    assert TwoFingerEvents(angle, distance, first, current) == r + p + d;
    assert Drag !in r && Drag !in p;
    assert angle != 0 || distance != 0 ==> d == [];
    assert PinchOut(distance) !in r && PinchIn(distance) !in r && Pinch(distance) !in r;
    assert RotateRight(angle) !in p && RotateLeft(angle) !in p && Rotate(angle) !in p;
    assert forall g :: g in d ==> g == Drag || g.DragTo?;
  }

  /** `GESTURE`: the record of the touch in progress. Each field is `None`
      while undefined, as after `clean` resets the record to `{}`. */
  datatype Session = Session(
    el: Option<nat>,
    fingers: Option<nat>,
    last: Option<int>,
    isDoubleTap: Option<bool>,
    initialAngle: Option<int>,
    initialDistance: Option<int>,
    angleDifference: Option<int>,
    distanceDifference: Option<int>)

  const Blank: Session := Session(None, None, None, None, None, None, None, None)

  class Recognizer {
    const geo: Geometry
    /** `FIRST_TOUCH` and `CURRENT_TOUCH`. */
    var first: seq<Point>
    var current: seq<Point>
    /** `GESTURE`. */
    var gesture: Session
    /** `TOUCH_TIMEOUT`: the due time of the deferred single tap, while it
        is scheduled and not cleared. */
    var tapDue: Option<int>
    /** The due times of the hold checks scheduled by one-finger starts and
        not yet fired (nothing clears them). */
    var holdDue: seq<int>
    /** The gestures dispatched so far, in order. */
    var log: seq<Gesture>

    /** A touch is in progress exactly when its element, finger count and
        start time are recorded; its first positions are one per finger;
        current positions exist only during a touch; and a two-finger touch
        has its angle and distance records. */
    ghost predicate Valid()
      reads this
    {
      && (gesture.el.Some? <==> gesture.fingers.Some?)
      && (gesture.last.Some? <==> gesture.fingers.Some?)
      && (gesture.fingers.None? ==> first == [] && current == [])
      && (gesture.fingers.Some? ==> gesture.fingers.value >= 1 && |first| == gesture.fingers.value)
      && (gesture.fingers == Some(2) ==>
            && gesture.initialAngle.Some? && gesture.initialDistance.Some?
            && gesture.angleDifference.Some? && gesture.distanceDifference.Some?)
    }

    /** The state `clean` leaves: no touch, no deferred single tap. */
    ghost predicate Clear()
      reads this
    {
      first == [] && current == [] && gesture == Blank && tapDue == None
    }

    /** `gestureSwipe`: a current position exists, an element is recorded
        and the first finger moved more than 30 along some axis. */
    predicate SwipeMoved()
      reads this
      requires Valid()
    {
      && |current| > 0 && gesture.el.Some?
      && (Abs(first[0].x - current[0].x) > SwipeThreshold || Abs(first[0].y - current[0].y) > SwipeThreshold)
    }

    constructor(geo: Geometry)
      ensures Valid() && Clear() && this.geo == geo && holdDue == [] && log == []
    {
      this.geo := geo;
      first, current, gesture, tapDue := [], [], Blank, None;
      holdDue, log := [], [];
    }

    /** `dispatch`: the gesture is logged when an element is recorded. */
    method Dispatch(g: Gesture)
      modifies this
      ensures log == if old(gesture.el).Some? then old(log) + [g] else old(log)
      ensures first == old(first) && current == old(current) && gesture == old(gesture)
      ensures tapDue == old(tapDue) && holdDue == old(holdDue)
    {
      if gesture.el.Some? {
        log := log + [g];
      }
    }

    /** `clean`, also the `touchcancel` handler: forgets the touch and
        clears the deferred single tap. */
    method Clean()
      modifies this
      ensures Valid() && Clear()
      ensures holdDue == old(holdDue) && log == old(log)
    {
      first, current, gesture := [], [], Blank;
      tapDue := None;
    }

    /** `hold`, run by the hold check `holdDue[k]` firing at `now`: a touch
        that started at least 650 ms ago is reported as a hold and
        forgotten. */
    method HoldCheck(k: nat, now: int)
      requires Valid() && k < |holdDue| && holdDue[k] <= now
      modifies this
      ensures Valid()
      ensures holdDue == old(holdDue[..k] + holdDue[k + 1..])
      ensures var held := old(gesture.last).Some? && old(gesture.last).value != 0
                          && now - old(gesture.last).value >= HoldDelay;
              && (held ==> Clear() && log == old(log) + [Hold])
              && (!held ==> first == old(first) && current == old(current) && gesture == old(gesture)
                            && tapDue == old(tapDue) && log == old(log))
    {
      holdDue := holdDue[..k] + holdDue[k + 1..];
      if gesture.last.Some? && gesture.last.value != 0 && now - gesture.last.value >= HoldDelay {
        Dispatch(Hold);
        Clean();
      }
    }

    /** The deferred single tap firing at `now`: it reports the tap and
        forgets the touch. */
    method SingleTapFires(now: int)
      requires Valid() && tapDue.Some? && tapDue.value <= now
      modifies this
      ensures Valid() && Clear()
      ensures holdDue == old(holdDue)
      ensures log == if old(gesture.el).Some? then old(log) + [SingleTap] else old(log)
    {
      tapDue := None;
      Dispatch(SingleTap);
      Clean();
    }

    /** `start` at `now`: clears the deferred single tap, records the
        touch's positions, element, finger count and time; one finger
        decides the double tap and schedules a hold check, two fingers
        record the initial angle and distance and zero both differences. */
    method Start(touches: seq<Touch>, now: int)
      requires Valid() && |touches| >= 1
      modifies this
      ensures Valid()
      ensures |first| == |touches|
      ensures forall i :: 0 <= i < |touches| ==> first[i] == Point(touches[i].pageX, touches[i].pageY)
      ensures current == old(current) && log == old(log) && tapDue == None
      ensures var g := old(gesture).(el := Some(touches[0].target), fingers := Some(|touches|), last := Some(now));
              && (|touches| == 1 ==>
                    && gesture == g.(isDoubleTap := Some(IsDoubleTap(old(gesture.last), now)))
                    && holdDue == old(holdDue) + [now + HoldDelay])
              && (|touches| == 2 ==>
                    && gesture == g.(initialAngle := Some(geo.angle(first[0], first[1])),
                                     initialDistance := Some(-(geo.span(first[0], first[1]) as int)),
                                     angleDifference := Some(0), distanceDifference := Some(0))
                    && holdDue == old(holdDue))
              && (|touches| > 2 ==> gesture == g && holdDue == old(holdDue))
    {
      var doubleTap := IsDoubleTap(gesture.last, now);
      tapDue := None;
      var fingers := |touches|;
      first := FingerPositions(touches, fingers);
      gesture := gesture.(el := Some(touches[0].target), fingers := Some(fingers), last := Some(now));
      if fingers == 1 {
        gesture := gesture.(isDoubleTap := Some(doubleTap));
        holdDue := holdDue + [now + HoldDelay];
      } else if fingers == 2 {
        gesture := gesture.(initialAngle := Some(geo.angle(first[0], first[1])),
                            initialDistance := Some(-(geo.span(first[0], first[1]) as int)),
                            angleDifference := Some(0), distanceDifference := Some(0));
      }
    }

    /** `gestureRotation`, with its unwinding loop as written. */
    method GestureRotation()
      requires Valid() && gesture.fingers == Some(2) && |current| >= 2
      modifies this
      ensures Valid()
      ensures first == old(first) && current == old(current) && tapDue == old(tapDue) && holdDue == old(holdDue)
      ensures var step := RotationStep(old(gesture.initialAngle).value, old(gesture.angleDifference).value,
                                       geo.angle(current[0], current[1]));
              && gesture == (if step.Some? then old(gesture).(angleDifference := step) else old(gesture))
              && log == old(log) + (if step.Some? then [Rotating(step.value)] else [])
    {
      var angle := geo.angle(current[0], current[1]);
      var diff := gesture.initialAngle.value - angle;
      if Dist(diff, 0) > RotateThreshold || gesture.angleDifference.value != 0 {
        diff := UnwindAsWritten(diff, gesture.angleDifference.value);
        gesture := gesture.(angleDifference := Some(diff));
        Dispatch(Rotating(diff));
      }
    }

    /** `gesturePinch`. */
    method GesturePinch()
      requires Valid() && gesture.fingers == Some(2) && |current| >= 2
      modifies this
      ensures Valid()
      ensures first == old(first) && current == old(current) && tapDue == old(tapDue) && holdDue == old(holdDue)
      ensures var step := PinchStep(old(gesture.initialDistance).value, -(geo.span(current[0], current[1]) as int));
              && gesture == (if step.Some? then old(gesture).(distanceDifference := step) else old(gesture))
              && log == old(log) + (if step.Some? then [Pinching(step.value)] else [])
    {
      var distance := -(geo.span(current[0], current[1]) as int);
      var diff := gesture.initialDistance.value - distance;
      if Dist(diff, 0) > PinchThreshold {
        gesture := gesture.(distanceDifference := Some(diff));
        Dispatch(Pinching(diff));
      }
    }

    /** `move`: without a touch in progress nothing happens; a change in the
        number of fingers forgets the touch; otherwise the current
        positions are replaced, a swipe in progress is reported, and two
        fingers update the rotation and the pinch. */
    method Move(touches: seq<Touch>)
      requires Valid()
      modifies this
      ensures Valid()
      ensures holdDue == old(holdDue)
      ensures old(gesture.el).None? ==>
                first == old(first) && current == old(current) && gesture == old(gesture)
                && tapDue == old(tapDue) && log == old(log)
      ensures old(gesture.el).Some? && old(gesture.fingers) != Some(|touches|) ==>
                Clear() && log == old(log)
      ensures old(gesture.el).Some? && old(gesture.fingers) == Some(|touches|) ==>
                && first == old(first) && tapDue == old(tapDue)
                && |current| == |touches|
                && (forall i :: 0 <= i < |touches| ==> current[i] == Point(touches[i].pageX, touches[i].pageY))
                && (|touches| != 2 ==>
                      gesture == old(gesture) && log == old(log) + (if SwipeMoved() then [Swiping] else []))
                && (|touches| == 2 ==>
                      var rot := RotationStep(old(gesture.initialAngle).value, old(gesture.angleDifference).value,
                                              geo.angle(current[0], current[1]));
                      var pin := PinchStep(old(gesture.initialDistance).value, -(geo.span(current[0], current[1]) as int));
                      && gesture == old(gesture).(angleDifference := if rot.Some? then rot else old(gesture.angleDifference),
                                                  distanceDifference := if pin.Some? then pin else old(gesture.distanceDifference))
                      && log == old(log) + (if SwipeMoved() then [Swiping] else [])
                                + (if rot.Some? then [Rotating(rot.value)] else [])
                                + (if pin.Some? then [Pinching(pin.value)] else []))
    {
      if gesture.el.Some? {
        var fingers := |touches|;
        if gesture.fingers == Some(fingers) {
          current := FingerPositions(touches, fingers);
          if SwipeMoved() {
            Dispatch(Swiping);
          }
          assert log == old(log) + (if SwipeMoved() then [Swiping] else []);
          if fingers == 2 {
            ghost var swiped := log;
            GestureRotation();
            ghost var rotated := log;
            GesturePinch();
            assert log == swiped + (rotated[|swiped|..]) + log[|rotated|..];
          }
        } else {
          Clean();
        }
      }
    }

    /** `end`. One finger: a swipe reports `swipe` and its direction, else a
        double tap reports `doubleTap`, and both forget the touch; otherwise
        a single tap is deferred by 250 ms. Two fingers: the recorded
        rotation, pinch or drag is reported and the touch forgotten. Any
        other state is left alone. */
    method End(now: int)
      requires Valid()
      modifies this
      ensures Valid()
      ensures holdDue == old(holdDue)
      ensures old(gesture.fingers) == Some(1) && old(SwipeMoved()) ==>
                Clear() && log == old(log) + [Swipe, SwipeTo(SwipeDirection(old(first[0].x), old(current[0].x),
                                                                           old(first[0].y), old(current[0].y)))]
      ensures old(gesture.fingers) == Some(1) && !old(SwipeMoved()) && old(gesture.isDoubleTap) == Some(true) ==>
                Clear() && log == old(log) + [DoubleTap]
      ensures old(gesture.fingers) == Some(1) && !old(SwipeMoved()) && old(gesture.isDoubleTap) != Some(true) ==>
                first == old(first) && current == old(current) && gesture == old(gesture)
                && tapDue == Some(now + TapWindow) && log == old(log)
      ensures old(gesture.fingers) == Some(2) ==>
                Clear() && log == old(log) + TwoFingerEvents(old(gesture.angleDifference).value,
                                                             old(gesture.distanceDifference).value,
                                                             old(first), old(current))
      ensures old(gesture.fingers) != Some(1) && old(gesture.fingers) != Some(2) ==>
                first == old(first) && current == old(current) && gesture == old(gesture)
                && tapDue == old(tapDue) && log == old(log)
    {
      if gesture.fingers == Some(1) {
        if SwipeMoved() {
          var direction := SwipeDirection(first[0].x, current[0].x, first[0].y, current[0].y);
          Dispatch(Swipe);
          Dispatch(SwipeTo(direction));
          Clean();
        } else if gesture.isDoubleTap == Some(true) {
          Dispatch(DoubleTap);
          Clean();
        } else {
          tapDue := Some(now + TapWindow);
        }
      } else if gesture.fingers == Some(2) {
        EndTwoFingers();
      }
    }

    /** The two-finger branch of `end`: the recorded rotation and pinch are
        reported, or else a drag of more than 10, and the touch is
        forgotten. */
    method EndTwoFingers()
      requires Valid() && gesture.fingers == Some(2)
      modifies this
      ensures Valid() && Clear() && holdDue == old(holdDue)
      ensures log == old(log) + TwoFingerEvents(old(gesture.angleDifference).value,
                                                old(gesture.distanceDifference).value, old(first), old(current))
    {
      ghost var events := TwoFingerEvents(gesture.angleDifference.value, gesture.distanceDifference.value,
                                          first, current);
      ghost var before := log;
      var angle := gesture.angleDifference.value;
      var distance := gesture.distanceDifference.value;
      var anyEvent := false;
      if angle != 0 {
        Dispatch(Rotate(angle));
        Dispatch(if angle > 0 then RotateRight(angle) else RotateLeft(angle));
        anyEvent := true;
      }
      assert log == before + RotateEvents(angle);
      if distance != 0 {
        Dispatch(Pinch(distance));
        Dispatch(if distance > 0 then PinchOut(distance) else PinchIn(distance));
        anyEvent := true;
      }
      assert log == before + RotateEvents(angle) + PinchEvents(distance);
      if !anyEvent && |current| > 0 {
        if Abs(first[0].x - current[0].x) > DragThreshold || Abs(first[0].y - current[0].y) > DragThreshold {
          Dispatch(Drag);
          Dispatch(DragTo(SwipeDirection(first[0].x, current[0].x, first[0].y, current[0].y)));
        }
      }
      assert log == before + events;
      Clean();
    }
  }
}
