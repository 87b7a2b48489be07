# Line-follower simulator: controller and emulator bookkeeping

This project models the logic of a small line-following robot simulator, in Dafny.
It has two halves that call each other:

- **The controller** (`src/robot/robot.c`). It drives each wheel through a stepper
  motor: a ring of four magnets with exactly one magnet on.
  - Each call to `set_speed` subtracts a drive coefficient from that wheel's step
    counter.
  - When the counter reaches 0 or below, the counter goes back to 200, the ring
    advances one slot, and the new pattern is reported to the emulator.
  - `robot_frame` reads the seven line sensors one LED at a time. It then derives
    the two coefficients from a priority rule and calls `set_speed`.
- **The emulator's bookkeeping** (`src/emulator.cc`).
  - `compute_speed` turns two consecutive magnet patterns and the time between them
    into a wheel speed.
  - `set_r_motor` and `set_l_motor` store the pattern and restart that wheel's clock.
  - `set_leds` and `get_sensors` gate each sensor by its LED.
  - One tick of `update_world_` advances both clocks by the time slice and keeps the
    patterns as the previous ones. It picks the translation and rotation from the two
    speeds and refreshes the sensors from the map.

The files:

- `magnets.dfy` (module `Magnets`): the four-slot pattern type, and the
  first-active-magnet search that both halves use.
- `emulator.dfy` (module `Emulation`):
  - `compute_speed`, split into a classification of the transition (`Classify`) and
    a speed (`Speed`), plus the searching method `ComputeSpeed` proved against them.
  - The value view of one motor (`Motor`, `SetMotor`, `TickMotor`).
  - LED gating, the sensor refresh and the motion choice.
  - The class `Emulator`. Its arrays stand for the emulator singleton's arrays. Its
    ghost `log` records every callback the robot makes, in order.
- `robot.dfy` (module `Controller`):
  - The ring advance (`Advanced`, and the in-place `AdvanceRing`).
  - One wheel's half of `set_speed` (`Wheel`, `Drive`) and its cadence over many
    calls.
  - The coefficient rule, the LED sweep as a sequence of callback events, and the
    class `Robot` holding the controller's global state.
  - The C function pointers become direct calls on one `Emulator` object.
- `simulation.dfy` (module `Simulation`): one turn of the emulator's main loop,
  `robot_frame(TIME_SLICE)` followed by `update_world_`. The class `Simulator` holds
  the invariant that couples the robot's rings with the emulator's stored patterns.

The model makes the following choices:

- **Integers.** The counters are floats in the source but only ever hold small
  integers, so they are `int` here. Speeds and clocks are `real`.
- **Sensor gating.** `get_sensors` computes `sensor & led`. The sensors only ever
  hold 0 or 1, and `Valid` keeps that invariant. So the bitwise AND is `led % 2` when
  the sensor is 1, and 0 otherwise. Dafny's `%` is Euclidean, so `led % 2` is the
  low bit, negative LED values included.
- **The missing return.** When no neighbour of the new active magnet was on before,
  `compute_speed` reaches its end without a `return`. This happens when the pattern is
  all zeros, or when the magnet did not move by one slot. The model gives speed 0 there
  and records the source's behaviour separately (see Findings).
- **Phase direction.** `[1,0,0,0]` followed by `[0,1,0,0]` is a forward step with a
  positive speed, because slot `(1 + 3) % 4 = 0` was on (`PhaseStepExamples`).
- **Sensors outside the map.** A sensor outside the map keeps its last reading
  (`src/emulator.cc:244-257`, `Refresh`).

## Model

| member | source | states |
|---|---|---|
| Magnets.FirstActive | src/emulator.cc:289-303 | the slot found is the first holding 1 at or after the start, or 4 when there is none; every slot skipped is not 1 |
| Magnets.OneHotFound | src/emulator.cc:285-290 | with exactly one magnet on, at i, the sum test sees 1 (not jammed) and the search finds i |
| Emulation.Classify | src/emulator.cc:285-303 | the branch `compute_speed` takes: a jam exactly when more than one magnet is on; otherwise, for the first active magnet, backward exactly when the stored slot after it was on, forward exactly when that one was off and the stored slot before it was on; no magnet on is no transition |
| Emulation.SpeedAsWritten | src/emulator.cc:285-304 | the source's result as written: no value exactly on "no transition"; 0 on a jam; a value v with v × dt = 1 forward and −1 backward |
| Emulation.Speed | src/emulator.cc:285-301 | the speed is positive exactly on a forward step and negative exactly on a backward one; a forward step gives speed × dt = 1, a backward one gives −1, a jam or no transition gives 0 |
| Emulation.ComputeSpeed | src/emulator.cc:279-304 | the sum test and the search loop give the speed of the classified transition; more than one magnet on gives 0 whatever the stored pattern |
| Emulation.JamIsStill | src/emulator.cc:285-286 | a pattern with more than one magnet on is a jam of speed 0, whatever the previous pattern |
| Emulation.OneMagnetTransition | src/emulator.cc:289-303 | with magnet i alone on: a stored magnet at i+1 means backward and takes priority; otherwise one at i−1 means forward; otherwise there is no transition |
| Emulation.StepUpIsForward | src/emulator.cc:297-301 | a single magnet moving from slot j to j+1 (mod 4) is a forward step |
| Emulation.StepDownIsBackward | src/emulator.cc:292-296 | a single magnet moving from slot j+1 to j (mod 4) is a backward step |
| Emulation.PhaseStepExamples | src/emulator.cc:289-301 | [1,0,0,0] then [0,1,0,0] is forward with speed 1/dt; [0,0,0,1] then [1,0,0,0] is forward; [0,1,0,0] then [1,0,0,0] is backward |
| Emulation.AsWrittenAgrees | src/emulator.cc:279-304 | the source has no result exactly on "no transition", where the model gives 0; wherever the source returns a value, the model gives that value |
| Emulation.FirstStepHasNoReturnValue | src/emulator.cc:25-26 | against the all-zero pattern the constructor stores, any one-magnet pattern is "no transition", where the source returns nothing |
| Emulation.SetMotor | src/emulator.cc:311-316 | the stored pattern becomes the new one, the previous pattern is kept, the clock is 0; the speed is positive exactly on a forward step and negative exactly on a backward one, with speed × old clock = 1 or −1 |
| Emulation.TickMotor | src/emulator.cc:211-212 | one tick makes the clock grow, makes the stored pattern the previous one, and keeps the stored pattern and the speed |
| Emulation.ClockCountsTicks | src/emulator.cc:211-212 | after a pattern is stored, n ticks leave the clock at TIME_SLICE × n, keep the stored pattern and the speed, and make the stored pattern the previous one |
| Emulation.Gate | src/emulator.cc:353 | a 0/1 sensor ANDed with an LED flag reads 1 exactly when the sensor is 1 and the flag's low bit is 1 |
| Emulation.Readings | src/emulator.cc:352-353 | every reading is 0 or 1; a sensor whose LED is 1 reads its track state; one whose LED is 0 reads 0 |
| Emulation.DarkReadsNothing | src/emulator.cc:352-353 | with every LED off, every reading is 0 |
| Emulation.Refresh | src/emulator.cc:240-257 | a sensor inside the map reads 1 exactly when its pixel is black; one outside keeps its reading; readings stay 0/1 |
| Emulation.Motion | src/emulator.cc:215-226 | the translation is the smaller of the two speeds; the rotation is right minus left, in both branches |
| Emulation.RestIsStill | src/emulator.cc:215-226 | both speeds 0 give no translation and no rotation |
| Emulation.Store | src/emulator.cc:315-316 | the destination array ends up holding the source pattern, slot by slot |
| Emulation.Emulator.constructor | src/emulator.cc:12-30 | every sensor, LED, stored and previous pattern, clock and speed starts at 0; nothing has been logged |
| Emulation.Emulator.SetRMotor | src/emulator.cc:306-319 | the speed is computed against the stored pattern (not the previous one); the clock becomes 0; the pattern is stored; the left wheel is untouched; the call is logged and returns 0 |
| Emulation.Emulator.SetLMotor | src/emulator.cc:321-334 | the same for the left wheel, leaving the right one untouched |
| Emulation.Emulator.SetLeds | src/emulator.cc:336-346 | all seven flags are copied, the call is logged, and it returns 0 |
| Emulation.Emulator.GetSensors | src/emulator.cc:348-356 | the buffer receives each sensor gated by its LED, the call is logged, and it returns 0 |
| Emulation.Emulator.UpdateWorld | src/emulator.cc:207-275 | both clocks advance by TIME_SLICE; the stored patterns become the previous ones; the sensors are refreshed; translation and rotation come from the two speeds |
| Controller.Advanced | src/robot/robot.c:54-60 | the first active magnet is cleared and the slot after it, cyclically, is set, every other slot unchanged; a ring with no magnet on is left as it is |
| Controller.AdvanceRotates | src/robot/robot.c:54-60 | a ring with exactly one magnet on, at i, has after an advance exactly one on, at (i+1) mod 4 |
| Controller.AdvanceRing | src/robot/robot.c:67-73 | the in-place search-and-advance loop, with its early exit, leaves the advanced ring |
| Controller.Drive | src/robot/robot.c:47-53 | with a positive coefficient, a counter in (0, 200] stays in (0, 200] |
| Controller.DriveKeepsOneMagnet | src/robot/robot.c:47-75 | when the counter runs out, the counter is 200 and the single magnet moves one slot on; otherwise only the counter changes |
| Controller.Period | src/robot/robot.c:4 | ceil(200 / c) is at least 1, and it is the least number of calls whose coefficients reach 200 |
| Controller.Cadence | src/robot/robot.c:47-53 | from a full counter and a constant coefficient, after q whole periods and k further calls, the ring has advanced exactly q times and the counter reads 200 − k·c |
| Controller.FiresAtPeriodEnd | src/robot/robot.c:51-53 | under a constant coefficient, the call that advances the ring is exactly the last call of each period |
| Controller.TwentyEveryTen | src/robot/robot.c:47-53 | with coefficient 20, n calls advance the ring n / 10 times, and call n+1 advances it exactly when n+1 is a multiple of 10 |
| Controller.CoeffR | src/robot/robot.c:103-111 | the right coefficient is in {10, 13, 15, 20}: 20 exactly when sensor 0 is on, 15 exactly when sensor 0 is off and sensor 1 on, 13 exactly when sensors 0 and 1 are off and sensor 2 on, 10 exactly when sensors 0, 1 and 2 are off |
| Controller.CoeffL | src/robot/robot.c:113-118 | the mirror rule on sensors 6, 5, 4: 20 exactly when sensor 6 is on, 15 exactly when 6 is off and 5 on, 13 exactly when 6 and 5 are off and 4 on, 10 exactly when all three are off |
| Controller.CoeffsMirror | src/robot/robot.c:103-118 | the left rule is the right rule applied to the mirrored readings, and the other way round |
| Controller.CoeffsIgnoreCentre | src/robot/robot.c:103-118 | sensor 3 never matters; the right coefficient reads only sensors 0–2 and the left only 4–6 |
| Controller.CoeffExamples | src/robot/robot.c:103-118 | only the leftmost sensor on steers right (20, 10), only the rightmost the other way (10, 20), none on gives (10, 10) |
| Controller.Coefficients | src/robot/robot.c:103-118 | the two if-chains compute the coefficient rule on the swept readings |
| Controller.SweepStep | src/robot/robot.c:87-96 | one channel of the sweep is three calls, the last of which turns every LED off |
| Controller.SweepLog | src/robot/robot.c:85-100 | a sweep over n sensors is 3n calls |
| Controller.SweepShape | src/robot/robot.c:85-100 | a sweep of n sensors makes 3n calls, and calls 3k to 3k+2 are the step for sensor k |
| Controller.SweepAt | src/robot/robot.c:85-100 | call x of a sweep is call x mod 3 of the step for sensor x / 3 |
| Controller.MasksLightOne | src/robot/robot.c:88-96 | each LED setting of the sweep lights at most one LED |
| Controller.OneLedAtATime | src/robot/robot.c:85-100 | every set_leds call of a sweep has at most one LED on |
| Controller.SweepEndsDark | src/robot/robot.c:95-96 | the last call of a sweep turns every LED off |
| Controller.SweepReadsEachSensor | src/robot/robot.c:88-99 | the reading kept for sensor k was taken with LED k alone on: it shows sensor k's track state and 0 for every other sensor |
| Controller.SpeedLog | src/robot/robot.c:51-75 | set_speed reports once per wheel whose counter ran out and not otherwise; the left report, with the left wheel's new ring, comes first and the right report, with the right wheel's new ring, last |
| Controller.SampleChannel | src/robot/robot.c:87-96 | LED i is set alone, the sensors are read, the LEDs go dark again, and the three calls are logged |
| Controller.Sweep | src/robot/robot.c:85-100 | total_sensors holds each sensor's track state; the LEDs end dark; the log is the whole sweep |
| Controller.Robot.Connect | src/robot/robot.c:18-40 | both counters are 200 and both rings are [1,0,0,0] |
| Controller.Robot.SetSpeed | src/robot/robot.c:42-76 | each wheel is driven by its own coefficient only; the ring's one magnet moves on exactly when that counter runs out; the emulator gets the left report then the right, each only on its own advance |
| Controller.Robot.ReleaseLeft | src/robot/robot.c:51-62 | a spent left counter is reset to 200, the ring advances, and the new pattern is reported exactly once; otherwise nothing changes; the right wheel and the emulator's right motor are left as they were |
| Controller.Robot.ReleaseRight | src/robot/robot.c:64-75 | the same for the right wheel, leaving the left wheel and the emulator's left motor as they were |
| Controller.Robot.Frame | src/robot/robot.c:78-123 | the wheels are driven by the coefficient rule on the sensors as they were; the sensors are unchanged, the LEDs end dark, the log is the sweep then the speed reports, and the frame returns 0 |
| Simulation.TurnKeepsWheelInv | src/emulator.cc:91-102 | in the main loop, an advance never divides by a zero clock; coupling, counter bounds and non-negative speed are kept; every advance but the first is forward with speed × clock = 1, and the first has speed 0 |
| Simulation.Simulator.constructor | src/emulator.cc:12-30 | both stored patterns, previous patterns, clocks and speeds start at 0, every sensor and LED flag starts at 0, the log is empty, and the robot is connected with full counters and rings on magnet 0; the emulator, its arrays, the robot and its rings are all new objects, so a caller can go on to step the simulator |
| Simulation.Simulator.Step | src/emulator.cc:91-102 | one turn drives both wheels by the coefficients of the current sensors, stores and ticks what was reported, refreshes the sensors, leaves every LED off and keeps the loop invariant |
| Simulation.Simulator.RobotTurn | src/emulator.cc:100 | the robot's frame keeps the coupling between the robot's rings and the emulator's patterns, and leaves every LED off |
| Simulation.Simulator.WorldTurn | src/emulator.cc:101 | the world tick restores "clock positive or counter full" for both wheels |

## Left out

- The SFML window, event handling, fonts, on-screen text, screenshots and the
  sleep-paced main loop are not modelled: they are user interface and I/O.
  `Simulation.Simulator.Step` stands for one turn of that loop.
- The pose update with `cos`, `sin` and `atan`, and the sprite's `TransformToGlobal`,
  are floating-point trigonometry and library code. Each sensor's in-bounds flag and
  pixel colour are inputs to `UpdateWorld` instead, and the `dt` that only scales the
  pose is not modelled.
- Tracer painting is not modelled: it only draws.
- IEEE floating point is not modelled. Speeds and clocks are exact reals, and the
  counters are integers.
- Emulation.Emulator.SetRMotor: requires a positive clock whenever the transition
  divides. The source would divide by a zero clock and store an IEEE infinity. The
  main loop never does this (`Simulation.TurnKeepsWheelInv`).
- Emulation.Emulator.SetLMotor: the same precondition, for the same reason.
- Controller.Robot.Frame: requires both wheels to be able to advance without a zero
  clock, for the same reason.
- The emulator singleton and the C function-pointer callbacks are not modelled. The
  robot holds one `Emulator` object and calls its methods directly.
- The magnet-layout drawing and the other constants of `src/emulator.hh` and
  `src/robot/robot.h` are not modelled. They carry no behaviour; only `TIME_SLICE`,
  the four magnets and the seven sensors are used.

## Findings

| source | as written | input that shows it | evidently intended | confidence | as-written member | corrected member |
|---|---|---|---|---|---|---|
| src/emulator.cc:289-304 | `compute_speed` has no `return` after its search loop, so no neighbour of the active magnet being on, or no magnet on at all, returns an undefined value | the first `set_r_motor([0,1,0,0])` after construction, against the stored `[0,0,0,0]` | speed 0, as for a jam | not executed | Emulation.SpeedAsWritten, Emulation.FirstStepHasNoReturnValue | Emulation.Speed, Emulation.ComputeSpeed, Emulation.AsWrittenAgrees |
