/** The emulator's motor and sensor bookkeeping (src/emulator.cc).

    The emulator turns the magnet patterns the robot hands it into wheel
    speeds, gates the seven line sensors by their LEDs, and once per time
    slice advances the motor clocks, refreshes the sensors from the map and
    picks a translation and a rotation from the two wheel speeds.  The pose
    integration that uses them (trigonometry on floats) is not modelled: the
    map lookup at each sensor is an input of `UpdateWorld`.
 */
module Emulation {
  import opened Magnets

  /** Simulated length of one `update_world_` tick, in seconds. */
  const TIME_SLICE: real := 0.001

  /** Number of LEDs and of line sensors. */
  const SENSORS: nat := 7

  /** Every LED off, or every reading 0. */
  const Dark: seq<int> := [0, 0, 0, 0, 0, 0, 0]

  datatype Option<T> = None | Some(value: T)

  // ---------------------------------------------------------------------------
  // compute_speed

  /** How the emulator reads the change from the stored pattern to a new one. */
  datatype Transition =
    | Jammed        // more than one magnet on in the new pattern
    | Backward      // the active magnet came from the next slot
    | Forward       // the active magnet came from the previous slot
    | NoTransition  // no magnet on, or neither neighbour was on before

  /** The transitions whose speed is a reciprocal of the clock. */
  predicate Divides(t: Transition) {
    t == Backward || t == Forward
  }

  /** The branch `compute_speed` takes for the new pattern `curr` against the stored `prev`. */
  function Classify(curr: Pattern, prev: Pattern): (t: Transition)
    ensures t == Jammed <==> Sum(curr) > 1
    ensures t == Backward <==>
      Sum(curr) <= 1 && FirstActive(curr, 0) < MAGNETS && prev[(FirstActive(curr, 0) + 1) % MAGNETS] == 1
    ensures t == Forward <==>
      && Sum(curr) <= 1 && FirstActive(curr, 0) < MAGNETS
      && prev[(FirstActive(curr, 0) + 1) % MAGNETS] != 1 && prev[(FirstActive(curr, 0) + 3) % MAGNETS] == 1
    ensures Sum(curr) <= 1 && FirstActive(curr, 0) == MAGNETS ==> t == NoTransition
  {
    if Sum(curr) > 1 then Jammed
    else
      var i := FirstActive(curr, 0);
      if i == MAGNETS then NoTransition
      else if prev[(i + 1) % MAGNETS] == 1 then Backward
      else if prev[(i + 3) % MAGNETS] == 1 then Forward
      else NoTransition
  }

  /** The speed of a transition measured over `dt` seconds.  The source returns
      no value at all for NoTransition; this model returns 0 there. */
  function Speed(t: Transition, dt: real): (v: real)
    requires Divides(t) ==> dt > 0.0
    ensures v > 0.0 <==> t == Forward
    ensures v < 0.0 <==> t == Backward
    ensures t == Forward ==> v * dt == 1.0
    ensures t == Backward ==> v * dt == -1.0
    ensures !Divides(t) ==> v == 0.0
  {
    match t
    case Jammed => 0.0
    case Backward => -(1.0 / dt)
    case Forward => 1.0 / dt
    case NoTransition => 0.0
  }

  /** `compute_speed` as written: it falls off its end, returning nothing, on NoTransition. */
  function SpeedAsWritten(t: Transition, dt: real): (r: Option<real>)
    requires Divides(t) ==> dt > 0.0
    ensures r.None? <==> t == NoTransition
    ensures t == Jammed ==> r == Some(0.0)
    ensures t == Forward ==> r.Some? && r.value * dt == 1.0
    ensures t == Backward ==> r.Some? && r.value * dt == -1.0
  {
    match t
    case Jammed => Some(0.0)
    case Backward => Some(-(1.0 / dt))
    case Forward => Some(1.0 / dt)
    case NoTransition => None
  }

  /** `compute_speed`: the sum test for a jam, then the search for the active magnet. */
  method ComputeSpeed(curr: Pattern, prev: Pattern, dt: real) returns (speed: real)
    requires Divides(Classify(curr, prev)) ==> dt > 0.0
    ensures speed == Speed(Classify(curr, prev), dt)
    ensures Sum(curr) > 1 ==> speed == 0.0
  {
    if curr[0] + curr[1] + curr[2] + curr[3] > 1 {
      return 0.0;
    }
    var i := 0;
    while i < MAGNETS
      invariant 0 <= i <= MAGNETS
      invariant FirstActive(curr, i) == FirstActive(curr, 0)
    {
      if curr[i] == 1 {
        if prev[(i + 1) % MAGNETS] == 1 {
          return -(1.0 / dt);
        }
        if prev[(i + 3) % MAGNETS] == 1 {
          return 1.0 / dt;
        }
        break;
      }
      i := i + 1;
    }
    // The source has no return statement here; 0 is this model's choice.
    return 0.0;
  }

  /** Whatever the stored pattern, a pattern with two or more magnets on is a jam of speed 0. */
  lemma JamIsStill(curr: Pattern, prev: Pattern, dt: real)
    requires Sum(curr) > 1
    ensures Classify(curr, prev) == Jammed
    ensures Speed(Classify(curr, prev), dt) == 0.0
  {
  }

  /** With magnet `i` alone on: a stored magnet at i+1 means backward and wins over
      one at i-1, which means forward; with neither there is no transition. */
  lemma OneMagnetTransition(curr: Pattern, prev: Pattern, i: int)
    requires OneHot(curr, i)
    ensures prev[(i + 1) % MAGNETS] == 1 ==> Classify(curr, prev) == Backward
    ensures prev[(i + 1) % MAGNETS] != 1 && prev[(i + 3) % MAGNETS] == 1 ==> Classify(curr, prev) == Forward
    ensures prev[(i + 1) % MAGNETS] != 1 && prev[(i + 3) % MAGNETS] != 1 ==> Classify(curr, prev) == NoTransition
  {
    OneHotFound(curr, i);
  }

  /** A single magnet moving from slot j to slot j+1 is a forward step. */
  lemma StepUpIsForward(prev: Pattern, curr: Pattern, j: int)
    requires OneHot(prev, j) && OneHot(curr, (j + 1) % MAGNETS)
    ensures Classify(curr, prev) == Forward
  {
    OneMagnetTransition(curr, prev, (j + 1) % MAGNETS);
    assert (j + 1) % MAGNETS + 1 != j + MAGNETS;
  }

  /** A single magnet moving from slot j+1 to slot j is a backward step. */
  lemma StepDownIsBackward(prev: Pattern, curr: Pattern, j: int)
    requires OneHot(prev, (j + 1) % MAGNETS) && OneHot(curr, j)
    ensures Classify(curr, prev) == Backward
  {
    OneMagnetTransition(curr, prev, j);
  }

  /** The two examples of a phase step: [1,0,0,0] then [0,1,0,0] is forward (the
      active slot's predecessor was on), and [0,0,0,1] then [1,0,0,0] is forward too. */
  lemma PhaseStepExamples(dt: real)
    requires dt > 0.0
    ensures Classify([0, 1, 0, 0], [1, 0, 0, 0]) == Forward
    ensures Speed(Classify([0, 1, 0, 0], [1, 0, 0, 0]), dt) == 1.0 / dt
    ensures Classify([1, 0, 0, 0], [0, 0, 0, 1]) == Forward
    ensures Classify([1, 0, 0, 0], [0, 1, 0, 0]) == Backward
  {
    StepUpIsForward([1, 0, 0, 0], [0, 1, 0, 0], 0);
    StepUpIsForward([0, 0, 0, 1], [1, 0, 0, 0], 3);
    StepDownIsBackward([0, 1, 0, 0], [1, 0, 0, 0], 0);
  }

  /** The source's result, where it has one, is the modelled speed; it has none exactly
      on NoTransition, where the model answers 0. */
  lemma AsWrittenAgrees(t: Transition, dt: real)
    requires Divides(t) ==> dt > 0.0
    ensures SpeedAsWritten(t, dt).None? <==> t == NoTransition
    ensures SpeedAsWritten(t, dt).Some? ==> SpeedAsWritten(t, dt).value == Speed(t, dt)
    ensures t == NoTransition ==> Speed(t, dt) == 0.0
  {
  }

  /** The first step the robot reports lands on the missing return: the emulator still
      stores all zeros, so no neighbour of the new magnet was on. */
  lemma FirstStepHasNoReturnValue(curr: Pattern, i: int, dt: real)
    requires OneHot(curr, i)
    ensures Classify(curr, Zeros) == NoTransition
    ensures SpeedAsWritten(Classify(curr, Zeros), dt) == None
  {
    OneMagnetTransition(curr, Zeros, i);
  }

  // ---------------------------------------------------------------------------
  // One wheel's state in the emulator

  /** One wheel as the emulator sees it: the stored pattern (`r_motor_`), the pattern
      at the end of the last tick (`r_motor_prev_`), the motor clock and the speed. */
  datatype Motor = Motor(pattern: Pattern, prev: Pattern, clock: real, speed: real)

  /** A new pattern can be stored without dividing by a zero clock. */
  predicate Settable(m: Motor, p: Pattern) {
    Divides(Classify(p, m.pattern)) ==> m.clock > 0.0
  }

  /** `set_r_motor` / `set_l_motor`: speed against the stored pattern, clock back to 0,
      the new pattern stored; the pattern of the last tick plays no part. */
  function SetMotor(m: Motor, p: Pattern): (r: Motor)
    requires Settable(m, p)
    ensures r.pattern == p && r.prev == m.prev && r.clock == 0.0
    ensures r.speed > 0.0 <==> Classify(p, m.pattern) == Forward
    ensures r.speed < 0.0 <==> Classify(p, m.pattern) == Backward
    ensures Classify(p, m.pattern) == Forward ==> r.speed * m.clock == 1.0
    ensures Classify(p, m.pattern) == Backward ==> r.speed * m.clock == -1.0
  {
    Motor(p, m.prev, 0.0, Speed(Classify(p, m.pattern), m.clock))
  }

  /** The motor part of one `update_world_` tick: the clock grows by a time slice and
      the stored pattern becomes the previous one. */
  function TickMotor(m: Motor): (r: Motor)
    ensures r.clock > m.clock && r.prev == m.pattern
    ensures r.pattern == m.pattern && r.speed == m.speed
  {
    m.(clock := m.clock + TIME_SLICE, prev := m.pattern)
  }

  /** `n` ticks in a row. */
  function Elapse(m: Motor, n: nat): Motor {
    if n == 0 then m else TickMotor(Elapse(m, n - 1))
  }

  /** After a pattern is stored, the clock reads TIME_SLICE times the number of ticks
      since, and nothing but the clock and the previous pattern moves. */
  lemma {:induction false} ClockCountsTicks(m: Motor, p: Pattern, n: nat)
    requires Settable(m, p)
    ensures Elapse(SetMotor(m, p), n).clock == TIME_SLICE * (n as real)
    ensures Elapse(SetMotor(m, p), n).pattern == p
    ensures Elapse(SetMotor(m, p), n).speed == SetMotor(m, p).speed
    ensures n > 0 ==> Elapse(SetMotor(m, p), n).prev == p
  {
    if n > 0 {
      ClockCountsTicks(m, p, n - 1);
    }
  }

  // ---------------------------------------------------------------------------
  // LED gating and the sensor refresh

  /** Readings and map flags hold 0 or 1 only. */
  predicate Binary(s: seq<int>) {
    forall i :: 0 <= i < |s| ==> s[i] == 0 || s[i] == 1
  }

  /** `sensor & led` for a 0/1 sensor: the LED flag's lowest bit when the sensor is on. */
  function Gate(sensor: int, led: int): (r: int)
    requires sensor == 0 || sensor == 1
    ensures r == 1 <==> sensor == 1 && led % 2 == 1
    ensures r == 0 || r == 1
  {
    if sensor == 1 then led % 2 else 0
  }

  /** What `get_sensors` reports: every sensor ANDed with its own LED. */
  function Readings(sensors: seq<int>, leds: seq<int>): (r: seq<int>)
    requires |sensors| == SENSORS && |leds| == SENSORS && Binary(sensors)
    ensures |r| == SENSORS && Binary(r)
    ensures forall i :: 0 <= i < SENSORS && leds[i] == 1 ==> r[i] == sensors[i]
    ensures forall i :: 0 <= i < SENSORS && leds[i] == 0 ==> r[i] == 0
  {
    seq(SENSORS, i requires 0 <= i < SENSORS => Gate(sensors[i], leds[i]))
  }

  /** With every LED off, every reading is 0, whatever the track under the sensors. */
  lemma DarkReadsNothing(sensors: seq<int>)
    requires |sensors| == SENSORS && Binary(sensors)
    ensures Readings(sensors, Dark) == Dark
  {
  }

  /** The sensor part of `update_world_`: a sensor inside the map reads 1 exactly when
      its pixel is black; a sensor outside keeps its last reading. */
  function Refresh(sensors: seq<int>, inBounds: seq<bool>, black: seq<bool>): (r: seq<int>)
    requires |sensors| == SENSORS && |inBounds| == SENSORS && |black| == SENSORS
    ensures |r| == SENSORS
    ensures Binary(sensors) ==> Binary(r)
    ensures forall i :: 0 <= i < SENSORS && inBounds[i] ==> (r[i] == 1 <==> black[i])
    ensures forall i :: 0 <= i < SENSORS && !inBounds[i] ==> r[i] == sensors[i]
  {
    seq(SENSORS, i requires 0 <= i < SENSORS =>
      if inBounds[i] then (if black[i] then 1 else 0) else sensors[i])
  }

  /** The translation and the rotation `update_world_` derives from the two wheel speeds:
      the slower wheel's speed, and right minus left. */
  function Motion(left: real, right: real): (m: (real, real))
    ensures m.0 <= left && m.0 <= right && (m.0 == left || m.0 == right)
    ensures m.1 == right - left
  {
    if left < right then (left, right - left) else (right, right - left)
  }

  /** Both wheels at rest: no translation and no rotation. */
  lemma RestIsStill()
    ensures Motion(0.0, 0.0) == (0.0, 0.0)
  {
  }

  // ---------------------------------------------------------------------------
  // The emulator object

  /** The calls the robot makes into the emulator, recorded in order. */
  datatype Event =
    | LedsSet(leds: seq<int>)
    | SensorsRead(readings: seq<int>)
    | RightMotorSet(pattern: Pattern)
    | LeftMotorSet(pattern: Pattern)

  /** Overwrite `dst` with `src`, slot by slot. */
  method Store(dst: array<int>, src: seq<int>)
    requires dst.Length == |src|
    modifies dst
    ensures dst[..] == src
  {
    for i := 0 to dst.Length
      invariant dst[..i] == src[..i]
    {
      dst[i] := src[i];
    }
  }

  /** The emulator singleton, reduced to what the robot and the tick touch. */
  class Emulator {
    const robotSensors: array<int>   // raw track state under each sensor
    const robotLeds: array<int>      // LED enable flags, as last set by the robot
    const rMotor: array<int>         // stored right pattern
    const lMotor: array<int>         // stored left pattern
    const rPrev: array<int>          // right pattern at the end of the last tick
    const lPrev: array<int>          // left pattern at the end of the last tick
    var rSpeed: real
    var lSpeed: real
    var rClock: real
    var lClock: real
    ghost var log: seq<Event>        // every call the robot made, in order

    ghost function Repr(): set<object> {
      {this, robotSensors, robotLeds, rMotor, lMotor, rPrev, lPrev}
    }

    ghost predicate Valid()
      reads this, robotSensors
    {
      && robotSensors.Length == SENSORS && robotLeds.Length == SENSORS
      && robotSensors != robotLeds
      && rMotor.Length == MAGNETS && lMotor.Length == MAGNETS
      && rPrev.Length == MAGNETS && lPrev.Length == MAGNETS
      && rMotor != lMotor && rMotor != rPrev && rMotor != lPrev
      && lMotor != rPrev && lMotor != lPrev && rPrev != lPrev
      && Binary(robotSensors[..])
      && rClock >= 0.0 && lClock >= 0.0
    }

    function RightMotor(): Motor
      reads this`rClock, this`rSpeed, rMotor, rPrev
      requires rMotor.Length == MAGNETS && rPrev.Length == MAGNETS
    {
      Motor(rMotor[..], rPrev[..], rClock, rSpeed)
    }

    function LeftMotor(): Motor
      reads this`lClock, this`lSpeed, lMotor, lPrev
      requires lMotor.Length == MAGNETS && lPrev.Length == MAGNETS
    {
      Motor(lMotor[..], lPrev[..], lClock, lSpeed)
    }

    /** Everything at zero: patterns, sensors, LEDs, clocks and speeds. */
    constructor ()
      ensures Valid() && fresh(Repr() - {this})
      ensures RightMotor() == Motor(Zeros, Zeros, 0.0, 0.0)
      ensures LeftMotor() == Motor(Zeros, Zeros, 0.0, 0.0)
      ensures robotSensors[..] == Dark && robotLeds[..] == Dark
      ensures log == []
    {
      robotSensors := new int[SENSORS](_ => 0);
      robotLeds := new int[SENSORS](_ => 0);
      rMotor := new int[MAGNETS](_ => 0);
      lMotor := new int[MAGNETS](_ => 0);
      rPrev := new int[MAGNETS](_ => 0);
      lPrev := new int[MAGNETS](_ => 0);
      rSpeed, lSpeed := 0.0, 0.0;
      rClock, lClock := 0.0, 0.0;
      log := [];
      new;
      assert robotSensors[..] == Dark;
      assert rMotor[..] == Zeros && rPrev[..] == Zeros;
      assert lMotor[..] == Zeros && lPrev[..] == Zeros;
    }

    /** `set_r_motor`: record the speed of the step, restart the clock, store the pattern. */
    method SetRMotor(motor: Pattern) returns (status: int)
      requires Valid()
      requires Settable(RightMotor(), motor)
      modifies this`rSpeed, this`rClock, this`log, rMotor
      ensures Valid()
      ensures status == 0
      ensures RightMotor() == SetMotor(old(RightMotor()), motor)
      ensures log == old(log) + [RightMotorSet(motor)]
    {
      rSpeed := ComputeSpeed(motor, rMotor[..], rClock);
      rClock := 0.0;
      Store(rMotor, motor);
      log := log + [RightMotorSet(motor)];
      status := 0;
    }

    /** `set_l_motor`: the same for the left wheel. */
    method SetLMotor(motor: Pattern) returns (status: int)
      requires Valid()
      requires Settable(LeftMotor(), motor)
      modifies this`lSpeed, this`lClock, this`log, lMotor
      ensures Valid()
      ensures status == 0
      ensures LeftMotor() == SetMotor(old(LeftMotor()), motor)
      ensures log == old(log) + [LeftMotorSet(motor)]
    {
      lSpeed := ComputeSpeed(motor, lMotor[..], lClock);
      lClock := 0.0;
      Store(lMotor, motor);
      log := log + [LeftMotorSet(motor)];
      status := 0;
    }

    /** `set_leds`: copy all seven flags. */
    method SetLeds(leds: seq<int>) returns (status: int)
      requires Valid() && |leds| == SENSORS
      modifies this`log, robotLeds
      ensures Valid()
      ensures status == 0
      ensures robotLeds[..] == leds
      ensures log == old(log) + [LedsSet(leds)]
    {
      Store(robotLeds, leds);
      log := log + [LedsSet(leds)];
      status := 0;
    }

    /** `get_sensors`: write each sensor ANDed with its LED into the caller's buffer. */
    method GetSensors(sensors: array<int>) returns (status: int)
      requires Valid() && sensors.Length == SENSORS && sensors !in Repr()
      modifies this`log, sensors
      ensures Valid()
      ensures status == 0
      ensures sensors[..] == Readings(robotSensors[..], robotLeds[..])
      ensures log == old(log) + [SensorsRead(sensors[..])]
    {
      ghost var expected := Readings(robotSensors[..], robotLeds[..]);
      for i := 0 to SENSORS
        modifies sensors
        invariant sensors[..i] == expected[..i]
      {
        sensors[i] := Gate(robotSensors[i], robotLeds[i]);
      }
      log := log + [SensorsRead(sensors[..])];
      status := 0;
    }

    /** The discrete part of `update_world_`: both clocks advance one slice, the
        translation and rotation are chosen from the speeds, the sensors are refreshed
        from the map (`inBounds[i]`: sensor i is inside the map; `black[i]`: its pixel
        is black), and the stored patterns become the previous ones. */
    method UpdateWorld(inBounds: seq<bool>, black: seq<bool>) returns (vect: real, rot: real)
      requires Valid() && |inBounds| == SENSORS && |black| == SENSORS
      modifies this`rClock, this`lClock, robotSensors, rPrev, lPrev
      ensures Valid()
      ensures RightMotor() == TickMotor(old(RightMotor()))
      ensures LeftMotor() == TickMotor(old(LeftMotor()))
      ensures robotSensors[..] == Refresh(old(robotSensors[..]), inBounds, black)
      ensures (vect, rot) == Motion(lSpeed, rSpeed)
    {
      rClock := rClock + TIME_SLICE;
      lClock := lClock + TIME_SLICE;

      if lSpeed < rSpeed {
        vect := lSpeed;
        rot := rSpeed - lSpeed;
      } else {
        vect := rSpeed;
        rot := rSpeed - lSpeed;
      }

      ghost var refreshed := Refresh(robotSensors[..], inBounds, black);
      for i := 0 to SENSORS
        modifies robotSensors
        invariant robotSensors[..i] == refreshed[..i]
        invariant forall k :: i <= k < SENSORS ==> robotSensors[k] == old(robotSensors[k])
      {
        if inBounds[i] {
          if black[i] {
            robotSensors[i] := 1;
          } else {
            robotSensors[i] := 0;
          }
        }
      }
      assert robotSensors[..] == robotSensors[..SENSORS];

      Store(rPrev, rMotor[..]);
      Store(lPrev, lMotor[..]);
    }
  }
}
