/** The emulator's main loop: one `robot_frame` followed by one `update_world_` per
    turn, with the robot talking to the emulator through its callbacks.

    The robot keeps its own copy of each magnet ring and the emulator stores the last
    pattern reported.  Until a wheel's first advance the emulator still holds all zeros
    while the robot's ring has magnet 0 on; from then on the two agree.  That coupling
    is what makes every later advance a forward step of speed 1 / (time since the last
    one), and it makes the very first advance land on the case `compute_speed` returns
    nothing for. */
module Simulation {
  import opened Magnets
  import opened Emulation
  import opened Controller

  /** The emulator's stored pattern against the robot's ring of the same wheel. */
  predicate Coupled(stored: Pattern, ring: Pattern) {
    stored == ring || (stored == Zeros && ring == InitialRing)
  }

  /** What holds of one wheel at every point of the main loop, the robot's side `w`
      against the emulator's side `m`: the stored pattern is coupled to the ring, the
      counter is in (0, 200], the clock is not negative and the wheel never turns
      backward. */
  predicate Reachable(w: Wheel, m: Motor) {
    && Coupled(m.pattern, w.ring)
    && 0 < w.count <= MOTOR_DEFAULT_COUNT
    && m.clock >= 0.0
    && m.speed >= 0.0
  }

  /** What holds at the head of each turn, after a tick: moreover the clock only reads 0
      while the counter is still full, so no advance of this turn can divide by it. */
  predicate WheelInv(w: Wheel, m: Motor) {
    Reachable(w, m) && (m.clock > 0.0 || w.count == MOTOR_DEFAULT_COUNT)
  }

  /** One turn of one wheel: drive it by a coefficient of the controller's range and let
      the emulator store what was reported.  An advance never divides by a zero clock,
      the invariant is kept, and the reported speed is 1 / clock for every advance but
      the first, which reports 0 because the emulator still stores zeros. */
  lemma {:induction false} TurnKeepsWheelInv(w: Wheel, m: Motor, coeff: int, i: int)
    requires OneHot(w.ring, i) && WheelInv(w, m) && 10 <= coeff <= MAX_COEFF
    ensures Fires(w, coeff) ==> Settable(m, Drive(w, coeff).ring)
    ensures Reachable(Drive(w, coeff), Reported(m, w, coeff))
    ensures !Fires(w, coeff) ==> Reported(m, w, coeff) == m
    ensures Fires(w, coeff) ==> Reported(m, w, coeff).clock == 0.0
    ensures Fires(w, coeff) && m.pattern == w.ring ==>
              Reported(m, w, coeff).speed > 0.0 && Reported(m, w, coeff).speed * m.clock == 1.0
    ensures Fires(w, coeff) && m.pattern != w.ring ==> Reported(m, w, coeff).speed == 0.0
  {
    DriveKeepsOneMagnet(w, coeff, i);
    if Fires(w, coeff) {
      var next := Drive(w, coeff).ring;
      if m.pattern == w.ring {
        StepUpIsForward(w.ring, next, i);
      } else {
        FirstStepHasNoReturnValue(next, (i + 1) % MAGNETS, m.clock);
      }
    }
  }

  /** The emulator and the robot connected to it. */
  class Simulator {
    const emu: Emulator
    const robot: Robot

    ghost predicate Valid()
      reads this, robot, robot.motorL, robot.motorR
      reads emu, emu.robotSensors, emu.rMotor, emu.lMotor, emu.rPrev, emu.lPrev
    {
      && Connected()
      && WheelInv(robot.WheelL(), emu.LeftMotor())
      && WheelInv(robot.WheelR(), emu.RightMotor())
    }

    /** Between the robot's half of a turn and the emulator's. */
    ghost predicate Connected()
      reads this, robot, robot.motorL, robot.motorR
      reads emu, emu.robotSensors, emu.rMotor, emu.lMotor, emu.rPrev, emu.lPrev
    {
      && robot.emu == emu && robot.Valid()
      && Reachable(robot.WheelL(), emu.LeftMotor())
      && Reachable(robot.WheelR(), emu.RightMotor())
    }

    /** The emulator's constructor followed by `robot_connect`. */
    constructor ()
      ensures Valid()
      ensures robot.WheelL() == Wheel(MOTOR_DEFAULT_COUNT, InitialRing)
      ensures robot.WheelR() == Wheel(MOTOR_DEFAULT_COUNT, InitialRing)
      ensures emu.RightMotor() == Motor(Zeros, Zeros, 0.0, 0.0)
      ensures emu.LeftMotor() == Motor(Zeros, Zeros, 0.0, 0.0)
      ensures emu.robotSensors[..] == Dark && emu.robotLeds[..] == Dark
      ensures emu.log == []
      ensures fresh(emu) && fresh(emu.Repr() - {emu})
      ensures fresh(robot) && fresh(robot.motorL) && fresh(robot.motorR)
    {
      var e := new Emulator();
      emu := e;
      robot := new Robot.Connect(e);
    }

    /** One turn of the main loop: `robot_frame(TIME_SLICE)` then `update_world_`.  The
        wheels are driven by the coefficients of the sensors as they were, the emulator
        stores what was reported and ticks, and the sensors are refreshed from the map. */
    method Step(inBounds: seq<bool>, black: seq<bool>) returns (vect: real, rot: real)
      requires Valid() && |inBounds| == SENSORS && |black| == SENSORS
      modifies robot, robot.motorL, robot.motorR
      modifies emu`log, emu`lSpeed, emu`lClock, emu`rSpeed, emu`rClock
      modifies emu.robotLeds, emu.robotSensors, emu.rMotor, emu.lMotor, emu.rPrev, emu.lPrev
      ensures Valid()
      ensures emu.robotLeds[..] == Dark
      ensures robot.WheelL() == Drive(old(robot.WheelL()), CoeffL(old(emu.robotSensors[..])))
      ensures robot.WheelR() == Drive(old(robot.WheelR()), CoeffR(old(emu.robotSensors[..])))
      ensures emu.LeftMotor() ==
              TickMotor(Reported(old(emu.LeftMotor()), old(robot.WheelL()), CoeffL(old(emu.robotSensors[..]))))
      ensures emu.RightMotor() ==
              TickMotor(Reported(old(emu.RightMotor()), old(robot.WheelR()), CoeffR(old(emu.robotSensors[..]))))
      ensures emu.robotSensors[..] == Refresh(old(emu.robotSensors[..]), inBounds, black)
      ensures emu.log == old(emu.log) + SweepLog(old(emu.robotSensors[..]), SENSORS)
                       + SpeedLog(old(robot.WheelL()), CoeffL(old(emu.robotSensors[..])),
                                  old(robot.WheelR()), CoeffR(old(emu.robotSensors[..])))
      ensures (vect, rot) == Motion(emu.lSpeed, emu.rSpeed)
    {
      RobotTurn();
      vect, rot := WorldTurn(inBounds, black);
    }

    /** The robot's half of a turn: `robot_frame(TIME_SLICE)`, whose `dt` is unused. */
    method RobotTurn()
      requires Valid()
      modifies robot, robot.motorL, robot.motorR
      modifies emu`log, emu`lSpeed, emu`lClock, emu`rSpeed, emu`rClock
      modifies emu.robotLeds, emu.rMotor, emu.lMotor
      ensures Connected()
      ensures emu.robotSensors[..] == old(emu.robotSensors[..])
      ensures emu.robotLeds[..] == Dark
      ensures robot.WheelL() == Drive(old(robot.WheelL()), CoeffL(old(emu.robotSensors[..])))
      ensures robot.WheelR() == Drive(old(robot.WheelR()), CoeffR(old(emu.robotSensors[..])))
      ensures emu.LeftMotor() == Reported(old(emu.LeftMotor()), old(robot.WheelL()), CoeffL(old(emu.robotSensors[..])))
      ensures emu.RightMotor() == Reported(old(emu.RightMotor()), old(robot.WheelR()), CoeffR(old(emu.robotSensors[..])))
      ensures emu.log == old(emu.log) + SweepLog(old(emu.robotSensors[..]), SENSORS)
                       + SpeedLog(old(robot.WheelL()), CoeffL(old(emu.robotSensors[..])),
                                  old(robot.WheelR()), CoeffR(old(emu.robotSensors[..])))
    {
      ghost var sensed := emu.robotSensors[..];
      TurnKeepsWheelInv(robot.WheelL(), emu.LeftMotor(), CoeffL(sensed), robot.phaseL);
      TurnKeepsWheelInv(robot.WheelR(), emu.RightMotor(), CoeffR(sensed), robot.phaseR);
      var _ := robot.Frame(TIME_SLICE);
    }

    /** The emulator's half of a turn: `update_world_`. */
    method WorldTurn(inBounds: seq<bool>, black: seq<bool>) returns (vect: real, rot: real)
      requires Connected() && |inBounds| == SENSORS && |black| == SENSORS
      modifies emu`lClock, emu`rClock, emu.robotSensors, emu.rPrev, emu.lPrev
      ensures Valid()
      ensures robot.WheelL() == old(robot.WheelL()) && robot.WheelR() == old(robot.WheelR())
      ensures emu.LeftMotor() == TickMotor(old(emu.LeftMotor()))
      ensures emu.RightMotor() == TickMotor(old(emu.RightMotor()))
      ensures emu.robotSensors[..] == Refresh(old(emu.robotSensors[..]), inBounds, black)
      ensures emu.log == old(emu.log)
      ensures (vect, rot) == Motion(emu.lSpeed, emu.rSpeed)
    {
      vect, rot := emu.UpdateWorld(inBounds, black);
    }
  }
}
