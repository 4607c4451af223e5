/** The simulation clock of gravity.js: a virtual time that advances at
    `speed` times the elapsed wall-clock time, sampled by a self-rescheduling
    tick that hands the new time to every listener.

    The wall clock (`new Date().getTime()`) is a parameter `now`, in
    milliseconds. A `window.setTimeout` is an entry in `pending`, the due
    times of the ticks scheduled and not yet fired; the browser firing one
    is a call of `Iterate` naming it. A listener is an opaque identifier,
    and calling it is recorded as the pair (listener, time) in the
    sequence `Iterate` returns. */
module Clocks {
  import opened Options

  /** The delay, in milliseconds, between one tick and the next. */
  const Delay: int := 18

  /** The virtual time a clock anchored at wall-clock `anchor` with virtual
      time `time` shows at wall-clock `now`, when it runs at `speed`. */
  function Projected(time: real, speed: real, anchor: int, now: int): (t: real)
    ensures speed >= 0.0 && now >= anchor ==> t >= time
    ensures now == anchor ==> t == time
  {
    var elapsed := (now - anchor) as real;
    assert speed >= 0.0 && elapsed >= 0.0 ==> speed * elapsed >= 0.0;
    time + speed * elapsed
  }

  /** Moving the anchor of a running clock to `mid` leaves every later
      reading unchanged: ticks only re-anchor the clock. */
  lemma ReanchorKeepsReadings(time: real, speed: real, anchor: int, mid: int, later: int)
    ensures Projected(Projected(time, speed, anchor, mid), speed, mid, later)
            == Projected(time, speed, anchor, later)
  {
    var d1, d2 := (mid - anchor) as real, (later - mid) as real;
    assert (later - anchor) as real == d1 + d2;
    assert speed * (d1 + d2) == speed * d1 + speed * d2;
  }

  class Clock {
    var time: real
    var speed: real
    var realTime: Option<int>
    var running: bool
    var listeners: seq<nat>
    var pending: seq<int>

    /** A clock runs exactly when it holds a wall-clock anchor, and while it
        runs a tick is scheduled. */
    ghost predicate Valid()
      reads this
    {
      && (running <==> realTime.Some?)
      && (running ==> |pending| >= 1)
    }

    /** The virtual time the clock shows at wall-clock `now`. */
    ghost function Reading(now: int): real
      reads this
    {
      if realTime.Some? then Projected(time, speed, realTime.value, now) else time
    }

    /** The closure's initial state, followed by its `control.start()`. */
    constructor(now: int)
      ensures Valid()
      ensures time == 0.0 && speed == 0.3 && listeners == []
      ensures running && realTime == Some(now) && pending == [now + Delay]
    {
      time := 0.0;
      speed := 0.3;
      listeners := [];
      running := true;
      realTime := Some(now);
      pending := [now + Delay];
    }

    /** `iterate`, run by the timer `pending[k]` firing at `now`: a stopped
        clock lets its tick chain end; a running one advances its time by
        speed times the wall-clock time elapsed since the anchor, re-anchors
        at `now`, notifies every listener in order and schedules the next
        tick. */
    method Iterate(k: nat, now: int) returns (notified: seq<(nat, real)>)
      requires Valid() && k < |pending| && pending[k] <= now
      modifies this
      ensures Valid()
      ensures speed == old(speed) && listeners == old(listeners) && running == old(running)
      ensures !old(running) ==>
        && time == old(time) && realTime == old(realTime) && notified == []
        && pending == old(pending[..k] + pending[k + 1..])
      ensures old(running) ==>
        && time == Projected(old(time), speed, old(realTime.value), now)
        && realTime == Some(now)
        && pending == old(pending[..k] + pending[k + 1..]) + [now + Delay]
        && |notified| == |listeners|
        && forall i :: 0 <= i < |notified| ==> notified[i] == (listeners[i], time)
      ensures old(running) ==> forall later :: Reading(later) == old(Reading(later))
    {
      var rest := pending[..k] + pending[k + 1..];
      if !running || realTime.None? {
        pending := rest;
        return [];
      }
      running := false;
      forall later {
        ReanchorKeepsReadings(time, speed, realTime.value, now, later);
      }
      time := Projected(time, speed, realTime.value, now);
      realTime := Some(now);
      notified := [];
      for i := 0 to |listeners|
        invariant |notified| == i
        invariant forall j :: 0 <= j < i ==> notified[j] == (listeners[j], time)
      {
        notified := notified + [(listeners[i], time)];
      }
      pending := rest + [now + Delay];
      running := true;
    }

    /** `start`: a running clock is left alone; a stopped one is anchored
        at `now` and schedules its first tick. */
    method Start(now: int)
      requires Valid()
      modifies this
      ensures Valid() && running
      ensures time == old(time) && speed == old(speed) && listeners == old(listeners)
      ensures old(running) ==> realTime == old(realTime) && pending == old(pending)
      ensures !old(running) ==> realTime == Some(now) && pending == old(pending) + [now + Delay]
    {
      if running {
        return;
      }
      running := true;
      realTime := Some(now);
      pending := pending + [now + Delay];
    }

    /** `stop`: the clock forgets its anchor; the tick already scheduled
        still fires, and then ends its chain. */
    method Stop()
      requires Valid()
      modifies this
      ensures Valid() && !running && realTime == None
      ensures time == old(time) && speed == old(speed) && listeners == old(listeners)
      ensures pending == old(pending)
    {
      running := false;
      realTime := None;
    }

    /** `pause`: starts a stopped clock and stops a running one. */
    method Pause(now: int)
      requires Valid()
      modifies this
      ensures Valid() && running == !old(running)
      ensures time == old(time) && speed == old(speed) && listeners == old(listeners)
      ensures running ==> realTime == Some(now) && pending == old(pending) + [now + Delay]
      ensures !running ==> realTime == None && pending == old(pending)
    {
      if !running {
        Start(now);
      } else {
        Stop();
      }
    }

    /** `setSpeed`: only the rate changes; readings up to the next tick use
        the new rate over the whole interval since the anchor. */
    method SetSpeed(newSpeed: real)
      requires Valid()
      modifies this
      ensures Valid() && speed == newSpeed
      ensures time == old(time) && realTime == old(realTime) && running == old(running)
      ensures listeners == old(listeners) && pending == old(pending)
    {
      speed := newSpeed;
    }

    method GetSpeed() returns (s: real)
      ensures s == speed
    {
      s := speed;
    }

    method GetTime() returns (t: real)
      ensures t == time
    {
      t := time;
    }

    /** `addListener`: the listener is notified after those added before. */
    method AddListener(listener: nat)
      requires Valid()
      modifies this
      ensures Valid() && listeners == old(listeners) + [listener]
      ensures time == old(time) && speed == old(speed) && realTime == old(realTime)
      ensures running == old(running) && pending == old(pending)
    {
      listeners := listeners + [listener];
    }
  }
}
