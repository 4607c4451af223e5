# Orbit simulator and touch-gesture recogniser, modelled in Dafny

This project models the computational core of a small interactive orbit
game. It has two parts.

The first part is gravity.js. It models:
- `binarySearch`, the bracketing and bisection root finder that the
  simulation uses as `fsolve`, and the unused `newtonRaphson`;
- the simulation clock, whose virtual time runs at `speed` times the
  wall-clock time and is handed to listeners on every tick;
- the orbit object built by `createOrbit`:
  - `reset` converts a position and velocity into orbital elements: the
    angular momentum `l`, the eccentricity `e`, the periapsis angle
    `theta0` and the periapsis epoch `T`;
  - the `draw*` functions derive the axes and the epoch;
  - `advance` solves Kepler's, the hyperbolic or Barker's equation for
    the anomaly at a given time and rotates the result into place;
  - `turn` and `thrust` steer and burn;
  - `width`, `height` and `radius` give the extent of the drawing.

The second part is gestures.js, the touch-gesture recogniser. It is a
state machine over `FIRST_TOUCH`, `CURRENT_TOUCH`, `GESTURE` and the
pending timers. Every `dispatch` appends a `Gesture` to a log.

## Files
- maths.dfy (`Maths`) holds the numeric library (`Math.*`, `cosh`,
  `sinh`, `atanh`) as a record of uninterpreted functions. The laws a
  proof relies on are predicates that callers require:
  - the Pythagorean identity;
  - `sqrt` is the non-negative root;
  - `sin` is 1-Lipschitz;
  - `sinh` grows at least as fast as its argument;
  - division by a non-zero divisor is exact;
  - `atan2(0, 0)` is 0 and `sin(0)` is 0.
- root_finding.dfy (`RootFinding`) holds `binarySearch` as two loops,
  with the secant step and the bracket invariant, and `newtonRaphson`.
- conics.dfy (`Conics`) holds the pure geometry of the three regimes:
  - rotations;
  - the semi-axes;
  - the Kepler, hyperbolic and Barker residuals and their growth rates;
  - the positions on each conic;
  - the epochs the `draw*` functions compute.
- orbit.dfy (`Orbits`) holds the conversion done by `reset` and the class
  `Orbit`, whose fields are the closure variables of `createOrbit`.
- clock.dfy (`Clocks`) holds the class `Clock`, the clock closure.
- gestures.dfy (`Gestures`) holds the recogniser: the class `Recognizer`
  and the pure classification rules.
- options.dfy (`Options`) holds an option type, for undefined fields and
  for computations that yield no number.

Points where the code's behaviour is easy to misread, which the model
follows as written:
- **The root finder.** `fsolve` is `binarySearch`. It ignores the
  derivative, uses no warm start and has no Newton phase. Its first
  bracket is [-2, 2], and it doubles until the sign changes, without a
  cap.
- **Angular momentum.** `reset` takes the absolute value, so `l` is never
  negative. A zero `l` (a radial fall) is not rejected: it yields `e = 1`
  and the parabola branch.
- **Rejected input.** `reset` returns without change only at the origin
  (`r == 0`).
- **The clock's ticks.** A clock that is stopped and restarted before its
  pending tick fires ends up with two tick chains. The old tick finds the
  clock running again, so it reschedules itself. `Clock.Pause` states
  this through `pending`.
- **The hold timer.** It is never cleared. A one-finger touch released
  after 400 ms and before 650 ms is reported as `hold` once the timer
  fires, and that cancels the deferred `singleTap`. `HoldCheck` and `End`
  state the steps.

## Model

| member | source | states |
|---|---|---|
| RootFinding.Tolerance | gravity.js:26 | the tolerance is positive, and it is the caller's own whenever that is non-zero (0 falls back to 1e-10) |
| RootFinding.SecantPoint | gravity.js:48 | the weighted (secant) point of a sign-changing bracket lies inside the bracket |
| RootFinding.SignReplace | gravity.js:40-56 | replacing the endpoint whose value has the new point's sign keeps a sign change across the bracket |
| RootFinding.ExpandBracket | gravity.js:27-35 | the expansion keeps x0 = -x1 and doubles both on every pass, starting at [-2, 2]; it stops at the first 2^k whose bracket changes sign, and the bracket it returns is one with a sign change |
| RootFinding.RefineStep | gravity.js:37-56 | one pass (bisection, then secant step) stays inside the old bracket, at least halves its width, and keeps a sign change across it; the point returned is one of the new endpoints |
| RootFinding.BinarySearch | gravity.js:25-59 | for a function that changes sign on some bracket [-2^n, 2^n], the search ends; its result is an endpoint of a sign-changing bracket inside [-2^n, 2^n], with \|f\| within the tolerance or a bracket no wider than it; a 0/0 secant step yields no number |
| RootFinding.GrowthBrackets | gravity.js:30-35 | a function growing at a positive rate changes sign on some bracket [-2^n, 2^n], so the expansion loop ends |
| RootFinding.ZeroInBracket | gravity.js:36-57 | for such a function, every zero lies inside every sign-changing bracket |
| RootFinding.EstimateNearZero | gravity.js:57-58 | the value returned lies within max(tol, tol/K) of every zero of a function growing at rate K |
| RootFinding.NewtonRaphson | gravity.js:12-22 | a value returned has \|f\| below the tolerance |
| Conics.RegimeOf | gravity.js:318-324 | the branch `advance` takes: ellipse iff e < 1, hyperbola iff e > 1, parabola iff e = 1 |
| Conics.RotationPreservesNorms | gravity.js:280-291 | rotating a state keeps its distance and speed |
| Conics.RotationInverse | gravity.js:280-291 | rotating by -theta0 (`reset`, lines 355-356) and then by theta0 (`rotateSolution`) gives back the state |
| Conics.TimeScale | gravity.js:241 | a^(3/2) = a sqrt(a) is positive |
| Conics.KeplerStep | gravity.js:238-244 | Kepler's residual a^(3/2)(E - e sin E) - (t - T) grows at rate at least a^(3/2)(1 - e) for e < 1 |
| Conics.HyperbolicStep | gravity.js:252-258 | the hyperbolic residual a^(3/2)(e sinh E - E) - (t - T) grows at rate at least a^(3/2)(e - 1) for e > 1 |
| Conics.BarkerStep | gravity.js:266-273 | Barker's residual l^3/2 (D + D^3/3) - (t - T) grows at rate at least l^3/2 |
| Conics.BarkerRateIsSlope | gravity.js:271-273 | the derivative `solveParabola` hands to `fsolve`, l^3/2 (1 + D^2), is the limit of the residual's difference quotient and is positive for l > 0 |
| Conics.SemiMajor | gravity.js:205 | a = l^2/\|1 - e^2\| is positive, with a(1 - e^2) = l^2 for ellipses and a(e^2 - 1) = l^2 for hyperbolas (line 230) |
| Conics.SemiMinor | gravity.js:206 | b = a sqrt\|1 - e^2\| is positive with b^2 = a^2 \|1 - e^2\| (line 231) |
| Conics.ResidualGrows | gravity.js:238-278 | in every regime the residual `advance` solves grows at a positive rate, so `binarySearch` on it terminates |
| Conics.EllipseEpoch | gravity.js:207-209 | the epoch T set by `drawEllipse` makes Kepler's residual vanish at the anomaly of (x0, y0) |
| Conics.CircularEpoch | gravity.js:341-345 | for a circle, `drawEllipse(0, 0)` sets T = t |
| Conics.ParabolaEpoch | gravity.js:222-224 | the epoch T set by `drawParabola` makes Barker's residual vanish at D = tan(theta1/2) |
| Conics.HyperbolaEpoch | gravity.js:229-234 | the epoch T set by `drawHyperbola` makes the elliptic form of Kepler's residual vanish at the `atanh` anomaly (as written) |
| Conics.EllipseMotion | gravity.js:245-249 | definition, no contract: the position and velocity `solveEllipse` computes at anomaly E; characterised by `EllipseDistance` and `EllipseWithinMajorAxis` |
| Conics.HyperbolaMotion | gravity.js:259-263 | definition, no contract: the position and velocity `solveHyperbola` computes at anomaly E; used by `Orbit.SolveHyperbola` |
| Conics.ParabolaMotion | gravity.js:274-277 | definition, no contract: the position and velocity `solveParabola` computes at D, with vx = vy D as written; used by `Orbit.SolveParabola`, characterised by `ParabolaMomentumAsWritten` |
| Conics.ParabolaMotionCorrected | gravity.js:274-277 | definition, no contract: the same position with the velocity the position implies, vx = -vy D; characterised by `ParabolaMotionCorrectedKeepsMomentum` |
| Conics.FocalDistance | gravity.js:274-275 | the distance l^2/2 (1 + D^2) of the parabola point at D from the focus is positive for l != 0 |
| Conics.ParabolaRadius | gravity.js:274-275 | the point x = l^2/2 (1 - D^2), y = l^2 D lies `FocalDistance(l, D)` from the focus |
| Conics.ParabolaSpeed | gravity.js:276-277 | with vy = 2 / (l (1 + D^2)) and vx = +-vy D, the speed is that of escape: v^2 r = 2 |
| Conics.ParabolaMomentumAsWritten | gravity.js:274-277 | as written, vx is the corrected one negated, and the angular momentum x vy - y vx is l (1 - 3 D^2) / (1 + D^2), not l, while the speed is still that of escape |
| Conics.ParabolaMotionCorrectedKeepsMomentum | gravity.js:266-277 | the corrected velocity is the time derivative of the position along Barker's equation, (-l^2 D, l^2) / BarkerRate(l, D); it carries angular momentum exactly l and the speed of escape |
| Conics.EllipseDistance | gravity.js:245-249 | the position `solveEllipse` computes lies at distance a(1 - e cos E) from the focus |
| Conics.EllipseWithinMajorAxis | gravity.js:301-306 | every rotated point of an ellipse lies within 2a of the focus on both axes, so `width`/`height` = 2a + satRadius encloses the orbit |
| Orbits.Distance | gravity.js:330-331 | r = sqrt(x^2 + y^2) is non-negative, squares to x^2 + y^2, and is zero only at the origin |
| Orbits.AngularMomentum | gravity.js:333-337 | l = r^2 vt equals \|x vy - y vx\| |
| Orbits.MomentumIdentity | gravity.js:333-337 | the radial-frame formula for l equals \|x vy - y vx\| |
| Orbits.RadialVector | gravity.js:335-339 | the vector (l r vt - 1, l vr) has squared length 1 + l^2(v^2 - 2/r), and is (-1, 0) when l = 0 |
| Orbits.EccentricityVector | gravity.js:335-339 | the same identity for the state passed to `reset` |
| Orbits.EnergyIdentity | gravity.js:335-340 | (l r vt - 1)^2 + (l vr)^2 = 1 + l^2(v^2 - 2/r), for every direction (ct, st) on the unit circle |
| Orbits.Eccentricity | gravity.js:340 | e >= 0, and e = 1 when l = 0 |
| Orbits.EccentricityEnergy | gravity.js:340 | e^2 = 1 + l^2(v^2 - 2/r), the relation noted at line 174 |
| Orbits.EnergyDecidesRegime | gravity.js:340-361 | for l != 0, the orbit is an ellipse iff v^2 < 2/r, a parabola iff v^2 = 2/r, a hyperbola iff v^2 > 2/r |
| Orbits.ParabolicState | gravity.js:330-340 | a state at distance h > 0 moving at the speed of escape (v^2 h = 2) is one `reset` finds at distance h with e = 1 |
| Orbits.ParabolaResetRecoversElements | gravity.js:328-340 | `reset` applied to the corrected parabola state at any D recovers the orbit's own l and e = 1 |
| Orbits.ParabolaResetLosesMomentum | gravity.js:274-277 | as written, `reset` applied to the state of a parabola with l = 1 at D = 1/2 finds e = 1 but l = 0.2 |
| Orbits.Boost | gravity.js:366-371 | the thrust keeps the position, and a zero speed change leaves the state unchanged; the velocity change has length \|speed_change\| (`BoostMagnitude`) |
| Orbits.BoostMagnitude | gravity.js:366-372 | `thrust` keeps the position and changes the velocity by a vector of length \|speed_change\| |
| Orbits.CentreDistance | gravity.js:210-211 | the ellipse centre lies at distance a e from the focus |
| Orbits.SolveAnomaly | gravity.js:239-244 | the anomaly found is an endpoint of a sign-changing bracket of the residual, within tolerance, and close to every zero of the residual |
| Orbits.Orbit.constructor | gravity.js:170-191 | a new orbit has l = e = theta0 = T = t = angle = 0 |
| Orbits.Orbit.DrawEllipse | gravity.js:203-220 | sets a, b to the semi-axes of (l, e), T to the epoch of (x0, y0), and the centre to -a e (cos theta0, sin theta0) |
| Orbits.Orbit.DrawParabola | gravity.js:222-227 | sets T to the Barker epoch of theta1 |
| Orbits.Orbit.DrawHyperbola | gravity.js:229-236 | sets a, b to the semi-axes of (l, e) and T to the (elliptic-form) epoch of (x0, y0) |
| Orbits.Orbit.Reset | gravity.js:328-362 | at the origin nothing changes; elsewhere l and e become those of the state, and theta0, T, a, b and the centre are set as the regime of e dictates (`Oriented`), a parabola keeping the axes and centre and a hyperbola the centre |
| Orbits.Orbit.Orient | gravity.js:341-361 | the regime dispatch of `reset` after l and e are known: the state is `Oriented` for its regime, with the axes and centre kept where the source does not redraw them |
| Orbits.Orbit.OrientCircle | gravity.js:341-346 | e = 0: theta0 is the polar angle of the state, T = t, the axes are those of (l, 0) and the centre is the focus |
| Orbits.Orbit.OrientParabola | gravity.js:347-352 | e = 1: theta0 = theta - theta1, T is the Barker epoch of the true anomaly theta1, and the axes and the centre are left as they were |
| Orbits.Orbit.OrientEllipse | gravity.js:347-358 | 0 < e < 1: theta0 = theta - theta1, the axes are those of (l, e), the centre is at -a e (cos theta0, sin theta0), and T is the epoch `drawEllipse` derives from the state rotated by -theta0 |
| Orbits.Orbit.OrientHyperbola | gravity.js:347-361 | e > 1: theta0 = theta - theta1, the axes are those of (l, e), T is the epoch `drawHyperbola` derives from the state rotated by -theta0, and the centre is left as it was |
| Orbits.Orbit.SolveEllipse | gravity.js:238-250 | the new state is the point of the ellipse at the anomaly found, and that anomaly lies within max(tol, tol/K) of every solution of Kepler's equation, K its growth rate |
| Orbits.Orbit.SolveHyperbola | gravity.js:252-264 | the same for the hyperbola and the hyperbolic equation |
| Orbits.Orbit.SolveParabola | gravity.js:266-278 | the same for the parabola and Barker's equation, with the velocity as written (`ParabolaMotion`) |
| Orbits.Orbit.RotateSolution | gravity.js:280-291 | the state is rotated by theta0, keeping its distance and speed |
| Orbits.Orbit.Advance | gravity.js:314-327 | t becomes the new time, and the state is the point of the current conic, rotated by theta0, at an anomaly within max(tol, tol/K) of every solution of the regime's equation |
| Orbits.Orbit.Turn | gravity.js:363-365 | the heading offset grows by the change |
| Orbits.Orbit.Thrust | gravity.js:366-372 | away from the origin, l and e become those of the state whose velocity is boosted along the heading, and theta0, T, the axes and the centre are those `reset` sets for it (`Oriented`); at the origin every element, axis and the centre are unchanged |
| Orbits.Orbit.Radius | gravity.js:307-309 | max(\|x\|, \|y\|) bounds both coordinates and is one of them |
| Orbits.Orbit.Extent | gravity.js:301-306 | definition, no contract: `width` and `height`; characterised by `ExtentHoldsBody` |
| Orbits.Orbit.ExtentHoldsBody | gravity.js:301-306 | on every orbit `width` = `height` is at least `radius` + satRadius: on an ellipse because the body stays within 2a of the focus on both axes |
| Clocks.Projected | gravity.js:86-87 | the virtual time never runs backwards at a non-negative speed, and is unchanged when no wall-clock time elapsed |
| Clocks.ReanchorKeepsReadings | gravity.js:86-87 | re-anchoring the clock at a tick does not change what it shows at any later wall-clock time |
| Clocks.Clock.constructor | gravity.js:75-80 | time 0, speed 0.3, no listeners, then `start`: running, anchored now, one tick scheduled (line 125) |
| Clocks.Clock.Iterate | gravity.js:82-93 | a stopped clock's tick ends its chain; a running one advances time by speed times the elapsed wall-clock time, re-anchors, notifies every listener in order with the new time, reschedules, and keeps every later reading |
| Clocks.Clock.Start | gravity.js:96-101 | a running clock is unchanged; a stopped one is anchored now and schedules a tick |
| Clocks.Clock.Stop | gravity.js:102-105 | the clock stops and forgets its anchor; time, speed and listeners are kept |
| Clocks.Clock.Pause | gravity.js:106-109 | running is toggled, and only the anchor and the schedule change with it |
| Clocks.Clock.SetSpeed | gravity.js:110-112 | only the speed changes |
| Clocks.Clock.GetSpeed | gravity.js:113-115 | returns the speed |
| Clocks.Clock.GetTime | gravity.js:116-118 | returns the virtual time |
| Clocks.Clock.AddListener | gravity.js:119-121 | the listener is appended and nothing else changes |
| Gestures.SwipeDirection | gestures.js:68-74 | horizontal iff \|dx\| >= \|dy\| (ties horizontal); Left/Right/Up/Down point to where the finger went |
| Gestures.ReversedSwipe | gestures.js:68-74 | retracing a stroke that moved gives the opposite direction |
| Gestures.FingerPositions | gestures.js:48-60 | one point per finger, in order, with the touches' page coordinates |
| Gestures.IsDoubleTap | gestures.js:210-225 | a double tap iff the previous start is recorded (and not the falsy 0) and lies 1 to 250 ms back |
| Gestures.UnwindToward | gestures.js:176-182 | corrected unwinding: never farther from the previous difference, and within 90 degrees of it when ten half turns suffice |
| Gestures.UnwindKeepsLine | gestures.js:179-181 | unwinding changes the difference by whole half turns |
| Gestures.FixedTurnRunsAway | gestures.js:178-181 | as written, a difference more than 90 degrees beyond the previous one on the side of the fixed step gets ten steps of 180 added |
| Gestures.RotationAcrossTheWrap | gestures.js:176-181 | the counterexample: 1965 as written, -15 corrected |
| Gestures.UnwindAsWritten | gestures.js:176-181 | the loop as written computes the fixed-sign unwinding |
| Gestures.UnwindAngle | gestures.js:176-181 | the corrected loop computes the unwinding towards the previous difference |
| Gestures.FixedTurnSettles | gestures.js:178-181 | as written, the loop ends within 90 degrees of the previous difference when `diff` lies on the side the fixed step closes and ten steps suffice |
| Gestures.RotationStep | gestures.js:171-186 | definition, no contract: the step as written; characterised by `RotationStepAsWritten` |
| Gestures.RotationStepAsWritten | gestures.js:171-186 | as written, rotation is reported once the angle moved more than 20 degrees, then at every move; for a previous difference at most 1700 degrees from 0 (where ten half turns reach), the new difference lies within 90 degrees of the previous one when the raw difference is on the side the fixed step closes; for any previous difference, a raw difference more than 90 degrees away on the other side is pushed 1800 degrees further |
| Gestures.RotationStepToward | gestures.js:176-182 | definition, no contract: the step with the corrected unwinding; characterised by `RotationStepSettles` |
| Gestures.RotationStepSettles | gestures.js:171-186 | for the corrected step (`RotationStepToward`): reported under the same conditions, and, for a previous difference at most 1700 degrees from 0 (where ten half turns reach), every new difference lies within 90 degrees of the previous one |
| Gestures.PinchStep | gestures.js:192-201 | definition, no contract: the per-move pinch step; characterised by `PinchFollowsSpan` |
| Gestures.TwoFingerEvents | gestures.js:288-321 | definition, no contract: the events a two-finger end dispatches, in order; characterised by `TwoFingerEventsClassify` |
| Gestures.PinchFollowsSpan | gestures.js:192-200 | a pinch is reported iff the span changed by more than 10, and its difference is positive iff the fingers spread |
| Gestures.TwoFingerEventsClassify | gestures.js:288-321 | a two-finger end reports a drag exactly when there is no rotation and no pinch, a current touch exists and the first finger moved more than 10 along x or y; and reports rotate/pinch exactly for non-zero differences, on the side of their sign |
| Gestures.Recognizer.constructor | gestures.js:16-21 | no touch, no timers, an empty log |
| Gestures.Recognizer.Dispatch | gestures.js:124-142 | the gesture is logged iff an element is recorded |
| Gestures.Recognizer.Clean | gestures.js:112-117 | no touch, no current positions, `GESTURE` emptied, the deferred tap cleared |
| Gestures.Recognizer.HoldCheck | gestures.js:147-152 | the hold check fires; a touch recorded at least 650 ms ago is reported as `hold` and forgotten, else nothing changes |
| Gestures.Recognizer.SingleTapFires | gestures.js:281-284 | the deferred tap reports `singleTap` and forgets the touch |
| Gestures.Recognizer.Start | gestures.js:209-233 | records positions, element, fingers and time and clears the deferred tap; one finger decides the double tap and schedules a hold check; two fingers record angle and distance and zero both differences |
| Gestures.Recognizer.GestureRotation | gestures.js:171-187 | the angle difference and the `rotating` event follow `RotationStep`, the step as written (the unwinding loop `UnwindAsWritten`) |
| Gestures.Recognizer.GesturePinch | gestures.js:192-201 | the distance difference and the `pinching` event follow `PinchStep` |
| Gestures.Recognizer.SwipeMoved | gestures.js:157-166 | definition, no contract: `gestureSwipe`, a one-finger displacement over 30 on either axis with an element recorded; used by `Move` and `End` |
| Gestures.Recognizer.Move | gestures.js:241-261 | no touch: no change; another finger count: cleaned; else the current positions are replaced, `swiping` is logged for a displacement over 30 (`gestureSwipe`), and two fingers update rotation (the step as written, `RotationStep`) then pinch (`PinchStep`), logging `rotating` and `pinching` for the steps taken |
| Gestures.Recognizer.End | gestures.js:268-322 | one finger: swipe and direction, else double tap, each followed by a clean, else a single tap deferred 250 ms; two fingers: the `TwoFingerEvents` and a clean; otherwise no change |
| Gestures.Recognizer.EndTwoFingers | gestures.js:288-321 | the two-finger events in order, then a clean |

## Findings

| source | as written | input that shows it | evidently intended | confidence | as-written member | corrected member |
|---|---|---|---|---|---|---|
| gravity.js:277 | `solveParabola` sets `vx = vy * D` | a parabola with l = 1 advanced to D = 1/2: the state is (0.375, 0.5) moving at (0.8, 1.6), whose angular momentum x vy - y vx is 0.2; `reset` on it gives a different parabola | `vx = -vy * D`, the time derivative of x = l^2/2 (1 - D^2) along Barker's equation, which keeps angular momentum l | high; not executed | Orbits.ParabolaResetLosesMomentum | Conics.ParabolaMotionCorrectedKeepsMomentum |
| gestures.js:178-181 | the 180-degree step of the unwinding loop takes its sign from the previous angle difference (`-` if negative, else `+`), whatever side of it `diff` lies on | a first rotating move with initial angle 170 and current angle 5 (the finger line turned 15 degrees across the 180 wrap): previous difference 0, diff 165; every step adds 180, and the loop ends after ten steps at 1965 | each step brings `diff` towards the previous difference, giving -15 | high; not executed | Gestures.RotationAcrossTheWrap | Gestures.UnwindAngle |

`Gestures.UnwindAsWritten` is the loop as written and `Gestures.FixedTurnRunsAway` the general
statement behind the counterexample. The recogniser's `GestureRotation` runs the loop as
written; the corrected `UnwindAngle` and `RotationStepToward` stand beside it, with
`RotationStepSettles` proved of the corrected step.

`Conics.ParabolaMomentumAsWritten` gives the as-written angular momentum for every D,
l (1 - 3 D^2) / (1 + D^2), which equals l only at periapsis. `Conics.ParabolaMotionCorrected` is the
corrected motion, and `Orbits.ParabolaResetRecoversElements` shows that `reset` recovers l and e = 1
from it. `Orbit.SolveParabola`, and so `Advance`, computes the velocity as written, as the program does.

## Left out
- Floating point: numbers are reals, with no NaN, no infinities and no rounding.
- The `||` defaults on falsy values (`tol || 1e-10`, `x0 || 0`, `extra_angle || 0`) are modelled where they matter (`Tolerance`); elsewhere the caller passes the value.
- Transcendental functions are uninterpreted fields of `Maths.Lib`; only the laws listed under Files are assumed of them, as preconditions.
- SVG and DOM work is not modelled: the attribute writes of `drawEllipse`, `redrawSatellite`, `createSvg`, the view, `document.createEvent`/`dispatchEvent`, `preventDefault`, and the event-listener registration of gestures.js.
- The clock's `setTimeout` is a list of due times, and the wall clock is a parameter. Listeners are opaque identifiers that are assumed not to call back into the clock during a tick.
- RootFinding.BinarySearch: its termination rests on a ghost witness `n`, a bracket [-2^n, 2^n] across which f changes sign. The source loops for ever when there is none; in the model that case is excluded by the precondition.
- RootFinding.NewtonRaphson: the source recursion is unbounded; a `fuel` count bounds it, and a zero derivative ends it with no value.
- Orbits.Orbit.Advance: requires l > 0. A radial fall (l = 0) gives a zero-rate Barker residual, so in real arithmetic its root search does not end unless t = T. In double arithmetic the cube of the bracket end overflows after about 340 doublings, the residual becomes NaN (0 times Infinity), the expansion loop stops, and `binarySearch` returns NaN.
- Orbits.Orbit.DrawHyperbola: the epoch uses the elliptic form E - e sin E with the local `atanh`, which is the negation of the inverse hyperbolic tangent. So `reset` followed by `advance` does not reproduce the state on a hyperbola, and that round trip is not claimed.
- Orbits.Orbit.Reset: the round trip of `reset` then `advance` for ellipses, periodicity, and the composition of two thrusts are not stated. They need inverse laws for `atan2` with `cos` and `sin`, and a bound on how the solver's tolerance carries through to the position, which the uninterpreted library does not provide.
- Orbits.Orbit.SolveParabola: on a parabola that round trip fails as written, whatever laws are added: the velocity of gravity.js:277 has the wrong sign of vx, so `reset` finds another angular momentum (see Findings). For the corrected motion only l and e are shown to come back (`ParabolaResetRecoversElements`); theta0 and T need the `atan2` laws above.
- `randomize`, `stats` and `position` are not part of this model, apart from the state read by `Position()`.
- The initial state of the orbit is not modelled: the source leaves `x`, `y`, `vx`, `vy`, `a`, `b`, `cx`, `cy` undefined until the first `reset` and `advance`, while the model starts them at 0.
- Gestures.Recognizer.Start: the `targetTouches` list of the first touch, which `getFingerPosition` prefers when present, is not modelled; positions come from the event's touch list. `getElementParentIfText` is taken as already applied to each touch's target.
- Gestures: `calcAngle` and `calcDistance` with their `parseInt` are uninterpreted integer functions of the first two fingers; only their ranges are assumed where a lemma needs them.
- Gestures: the `iniTouch`/`currentTouch` properties that `dispatch` attaches are not logged. Note that `pinch` carries its distance under the property name `angle` in the source.
- Gestures.Recognizer.GestureRotation: the `eval` of `diff ± 180` is an integer addition.
