/** The robot controller (src/robot/robot.c).

    Each frame the controller reads the seven line sensors one LED at a time,
    derives a drive coefficient per wheel from the readings, and subtracts it
    from that wheel's step counter.  A counter that reaches 0 or below is reset
    and the wheel's magnet ring advances one slot, which is reported to the
    emulator.  The four C callbacks become calls on one `Emulator` object.
 */
module Controller {
  import opened Magnets
  import opened Emulation

  /** Value a step counter starts from and is reset to. */
  const MOTOR_DEFAULT_COUNT: int := 200

  /** The largest coefficient `robot_frame` ever computes. */
  const MAX_COEFF: int := 20

  // ---------------------------------------------------------------------------
  // One wheel

  /** The ring after one advance: the first active magnet is cleared and the next
      slot, cyclically, is set; a ring with no active magnet is left as it is. */
  function Advanced(p: Pattern): (r: Pattern)
    ensures FirstActive(p, 0) == MAGNETS ==> r == p
    ensures FirstActive(p, 0) < MAGNETS ==>
      && r[FirstActive(p, 0)] == 0 && r[(FirstActive(p, 0) + 1) % MAGNETS] == 1
      && forall k :: 0 <= k < MAGNETS && k != FirstActive(p, 0) && k != (FirstActive(p, 0) + 1) % MAGNETS ==> r[k] == p[k]
  {
    var i := FirstActive(p, 0);
    if i == MAGNETS then p else p[i := 0][(i + 1) % MAGNETS := 1]
  }

  /** An advance moves the single active magnet from slot i to slot (i+1) mod 4. */
  lemma AdvanceRotates(p: Pattern, i: int)
    requires OneHot(p, i)
    ensures OneHot(Advanced(p), (i + 1) % MAGNETS)
  {
    OneHotFound(p, i);
  }

  /** An advance as the robot performs it, in place, with the source's early exit. */
  method AdvanceRing(ring: array<int>)
    requires ring.Length == MAGNETS
    modifies ring
    ensures ring[..] == Advanced(old(ring[..]))
  {
    ghost var p: Pattern := ring[..];
    for i := 0 to MAGNETS
      invariant ring[..] == p
      invariant FirstActive(p, i) == FirstActive(p, 0)
    {
      if ring[i] == 1 {
        ring[i] := 0;
        ring[(i + 1) % MAGNETS] := 1;
        return;
      }
    }
  }

  /** A wheel of the controller: its step counter and its magnet ring. */
  datatype Wheel = Wheel(count: int, ring: Pattern)

  /** The wheel's counter runs out during this call. */
  predicate Fires(w: Wheel, coeff: int) {
    w.count - coeff <= 0
  }

  /** One wheel's half of `set_speed`: subtract the coefficient; on running out,
      reset the counter and advance the ring. */
  function Drive(w: Wheel, coeff: int): (r: Wheel)
    ensures coeff > 0 && 0 < w.count <= MOTOR_DEFAULT_COUNT ==> 0 < r.count <= MOTOR_DEFAULT_COUNT
  {
    if Fires(w, coeff) then Wheel(MOTOR_DEFAULT_COUNT, Advanced(w.ring))
    else Wheel(w.count - coeff, w.ring)
  }

  /** With one magnet on, a drive keeps exactly one on: the next one if the counter ran
      out, the same one otherwise. */
  lemma DriveKeepsOneMagnet(w: Wheel, coeff: int, i: int)
    requires OneHot(w.ring, i)
    ensures Fires(w, coeff) ==> OneHot(Drive(w, coeff).ring, (i + 1) % MAGNETS) && Drive(w, coeff).count == MOTOR_DEFAULT_COUNT
    ensures !Fires(w, coeff) ==> Drive(w, coeff) == Wheel(w.count - coeff, w.ring)
  {
    if Fires(w, coeff) {
      AdvanceRotates(w.ring, i);
    }
  }

  /** `n` calls with the same coefficient. */
  function Run(w: Wheel, coeff: int, n: nat): Wheel {
    if n == 0 then w else Drive(Run(w, coeff, n - 1), coeff)
  }

  /** How many of those `n` calls advanced the ring. */
  function Firings(w: Wheel, coeff: int, n: nat): nat {
    if n == 0 then 0
    else Firings(w, coeff, n - 1) + (if Fires(Run(w, coeff, n - 1), coeff) then 1 else 0)
  }

  /** ceil(200 / c): the number of calls it takes a coefficient c to run a full counter out. */
  function Period(coeff: int): (p: int)
    requires coeff > 0
    ensures p >= 1
    ensures (p - 1) * coeff < MOTOR_DEFAULT_COUNT <= p * coeff
  {
    var q := (MOTOR_DEFAULT_COUNT + coeff - 1) / coeff;
    var r := (MOTOR_DEFAULT_COUNT + coeff - 1) % coeff;
    assert MOTOR_DEFAULT_COUNT + coeff - 1 == q * coeff + r;
    assert (q - 1) * coeff == q * coeff - coeff;
    q
  }

  /** Multiplying by a positive coefficient keeps the order of call counts. */
  lemma {:induction false} MulBelow(k: int, p: int, c: int)
    requires 0 <= k < p && c > 0
    ensures k * c <= (p - 1) * c
    decreases p - k
  {
    if k < p - 1 {
      MulBelow(k + 1, p, c);
      assert (k + 1) * c == k * c + c;
    }
  }

  /** From a full counter, after n = q whole periods and k < Period(c) further calls,
      the ring has advanced exactly q times and the counter reads 200 - k*c. */
  lemma {:induction false} Cadence(ring: Pattern, coeff: int, n: nat, q: nat, k: nat)
    requires coeff > 0 && k < Period(coeff) && n == q * Period(coeff) + k
    ensures Run(Wheel(MOTOR_DEFAULT_COUNT, ring), coeff, n).count == MOTOR_DEFAULT_COUNT - k * coeff
    ensures Firings(Wheel(MOTOR_DEFAULT_COUNT, ring), coeff, n) == q
    decreases n
  {
    var w0 := Wheel(MOTOR_DEFAULT_COUNT, ring);
    var p := Period(coeff);
    if k > 0 {
      Cadence(ring, coeff, n - 1, q, k - 1);
      MulBelow(k, p, coeff);
      assert k * coeff == (k - 1) * coeff + coeff;
      assert !Fires(Run(w0, coeff, n - 1), coeff);
    } else if q > 0 {
      assert n - 1 == (q - 1) * p + (p - 1);
      Cadence(ring, coeff, n - 1, q - 1, p - 1);
      assert Fires(Run(w0, coeff, n - 1), coeff);
    }
  }

  /** Within a period only its last call advances the ring: call number n + 1, with
      n = q * Period(c) + k, fires iff k is Period(c) - 1. */
  lemma FiresAtPeriodEnd(ring: Pattern, coeff: int, n: nat, q: nat, k: nat)
    requires coeff > 0 && k < Period(coeff) && n == q * Period(coeff) + k
    ensures Fires(Run(Wheel(MOTOR_DEFAULT_COUNT, ring), coeff, n), coeff) <==> k == Period(coeff) - 1
  {
    var p := Period(coeff);
    Cadence(ring, coeff, n, q, k);
    assert (k + 1) * coeff == k * coeff + coeff;
    if k + 1 < p {
      MulBelow(k + 1, p, coeff);
    }
  }

  /** Splitting a call count into tens. */
  lemma Tens(n: nat)
    ensures n == (n / 10) * 10 + n % 10 && 0 <= n % 10 < 10
    ensures (n + 1) % 10 == 0 <==> n % 10 == 9
  {
  }

  /** A coefficient of 20 advances the wheel every 10 calls: after n calls it has
      advanced n / 10 times, and call n + 1 advances it iff n + 1 is a multiple of 10. */
  lemma TwentyEveryTen(ring: Pattern, n: nat)
    ensures Firings(Wheel(MOTOR_DEFAULT_COUNT, ring), 20, n) == n / 10
    ensures Fires(Run(Wheel(MOTOR_DEFAULT_COUNT, ring), 20, n), 20) <==> (n + 1) % 10 == 0
  {
    assert Period(20) == 10;
    Tens(n);
    Cadence(ring, 20, n, n / 10, n % 10);
    FiresAtPeriodEnd(ring, 20, n, n / 10, n % 10);
  }

  // ---------------------------------------------------------------------------
  // The coefficient rule

  /** The right coefficient: 10, plus 10, 5 or 3 for the first lit sensor among 0, 1, 2. */
  function CoeffR(total: seq<int>): (c: int)
    requires |total| == SENSORS
    ensures c == 10 || c == 13 || c == 15 || c == 20
    ensures c == 20 <==> total[0] != 0
    ensures c == 15 <==> total[0] == 0 && total[1] != 0
    ensures c == 13 <==> total[0] == 0 && total[1] == 0 && total[2] != 0
    ensures c == 10 <==> total[0] == 0 && total[1] == 0 && total[2] == 0
  {
    10 + (if total[0] != 0 then 10 else if total[1] != 0 then 5 else if total[2] != 0 then 3 else 0)
  }

  /** The left coefficient: the mirror image, on sensors 6, 5, 4. */
  function CoeffL(total: seq<int>): (c: int)
    requires |total| == SENSORS
    ensures c == 10 || c == 13 || c == 15 || c == 20
    ensures c == 20 <==> total[6] != 0
    ensures c == 15 <==> total[6] == 0 && total[5] != 0
    ensures c == 13 <==> total[6] == 0 && total[5] == 0 && total[4] != 0
    ensures c == 10 <==> total[6] == 0 && total[5] == 0 && total[4] == 0
  {
    10 + (if total[6] != 0 then 10 else if total[5] != 0 then 5 else if total[4] != 0 then 3 else 0)
  }

  /** The readings seen from the other side of the robot. */
  function Mirrored(total: seq<int>): (m: seq<int>)
    requires |total| == SENSORS
    ensures |m| == SENSORS
    ensures forall i :: 0 <= i < SENSORS ==> m[i] == total[SENSORS - 1 - i]
  {
    seq(SENSORS, i requires 0 <= i < SENSORS => total[SENSORS - 1 - i])
  }

  /** The left rule is the right rule on the mirrored readings, and back. */
  lemma CoeffsMirror(total: seq<int>)
    requires |total| == SENSORS
    ensures CoeffL(total) == CoeffR(Mirrored(total))
    ensures CoeffR(total) == CoeffL(Mirrored(total))
  {
  }

  /** The centre sensor never steers, and each coefficient reads only its own side:
      the right one sensors 0..2, the left one sensors 4..6. */
  lemma CoeffsIgnoreCentre(total: seq<int>, other: seq<int>)
    requires |total| == SENSORS && |other| == SENSORS
    ensures total[..3] == other[..3] ==> CoeffR(total) == CoeffR(other)
    ensures total[4..] == other[4..] ==> CoeffL(total) == CoeffL(other)
  {
    if total[..3] == other[..3] {
      assert total[0] == other[0] && total[1] == other[1] && total[2] == other[2] by {
        assert forall k :: 0 <= k < 3 ==> total[..3][k] == total[k] && other[..3][k] == other[k];
      }
    }
    if total[4..] == other[4..] {
      assert total[4] == other[4] && total[5] == other[5] && total[6] == other[6] by {
        assert forall k :: 0 <= k < 3 ==> total[4..][k] == total[4 + k] && other[4..][k] == other[4 + k];
      }
    }
  }

  /** The boundary cases: only the leftmost sensor lit, only the rightmost, none. */
  lemma CoeffExamples()
    ensures CoeffR([1, 0, 0, 0, 0, 0, 0]) == 20 && CoeffL([1, 0, 0, 0, 0, 0, 0]) == 10
    ensures CoeffR([0, 0, 0, 0, 0, 0, 1]) == 10 && CoeffL([0, 0, 0, 0, 0, 0, 1]) == 20
    ensures CoeffR(Dark) == 10 && CoeffL(Dark) == 10
  {
  }

  // ---------------------------------------------------------------------------
  // The sensor sweep

  /** The LED flags with LED k alone on. */
  function LedMask(k: nat): (m: seq<int>)
    ensures |m| == SENSORS
  {
    seq(SENSORS, j => if j == k then 1 else 0)
  }

  /** At most one LED is on. */
  predicate AtMostOneOn(leds: seq<int>) {
    forall j, k :: 0 <= j < k < |leds| ==> leds[j] == 0 || leds[k] == 0
  }

  /** The three calls the sweep makes for sensor k. */
  function SweepStep(raw: seq<int>, k: nat): (r: seq<Event>)
    requires |raw| == SENSORS && Binary(raw)
    ensures |r| == 3 && r[2] == LedsSet(Dark)
  {
    [LedsSet(LedMask(k)), SensorsRead(Readings(raw, LedMask(k))), LedsSet(Dark)]
  }

  /** The calls the sweep makes for sensors 0 .. n-1, over track state `raw`. */
  function SweepLog(raw: seq<int>, n: nat): (r: seq<Event>)
    requires |raw| == SENSORS && Binary(raw)
    ensures |r| == 3 * n
  {
    if n == 0 then [] else SweepLog(raw, n - 1) + SweepStep(raw, n - 1)
  }

  /** The sweep's log is its steps laid end to end, three calls each. */
  lemma {:induction false} SweepShape(raw: seq<int>, n: nat)
    requires |raw| == SENSORS && Binary(raw)
    ensures |SweepLog(raw, n)| == 3 * n
    ensures forall k :: 0 <= k < n ==> SweepLog(raw, n)[3 * k .. 3 * k + 3] == SweepStep(raw, k)
  {
    if n > 0 {
      SweepShape(raw, n - 1);
      var prefix, log := SweepLog(raw, n - 1), SweepLog(raw, n);
      assert log == prefix + SweepStep(raw, n - 1);
      forall k | 0 <= k < n
        ensures log[3 * k .. 3 * k + 3] == SweepStep(raw, k)
      {
        if k < n - 1 {
          assert 3 * k + 3 <= |prefix|;
          assert log[3 * k .. 3 * k + 3] == prefix[3 * k .. 3 * k + 3];
        } else {
          assert log[3 * k .. 3 * k + 3] == log[|prefix| ..];
        }
      }
    }
  }

  /** A mask and the all-off setting light at most one LED. */
  lemma MasksLightOne(k: nat)
    ensures AtMostOneOn(LedMask(k)) && AtMostOneOn(Dark)
  {
  }

  /** Call x of a sweep is call x mod 3 of the step for sensor x / 3. */
  lemma SweepAt(raw: seq<int>, n: nat, x: nat)
    requires |raw| == SENSORS && Binary(raw) && x < 3 * n
    ensures |SweepLog(raw, n)| == 3 * n
    ensures SweepLog(raw, n)[x] == SweepStep(raw, x / 3)[x % 3]
  {
    SweepShape(raw, n);
    var k := x / 3;
    assert SweepLog(raw, n)[3 * k .. 3 * k + 3] == SweepStep(raw, k);
    assert SweepLog(raw, n)[x] == SweepLog(raw, n)[3 * k .. 3 * k + 3][x - 3 * k];
  }

  /** Every LED setting of a sweep has at most one LED on. */
  lemma OneLedAtATime(raw: seq<int>, n: nat)
    requires |raw| == SENSORS && Binary(raw)
    ensures forall x :: 0 <= x < |SweepLog(raw, n)| && SweepLog(raw, n)[x].LedsSet? ==>
              AtMostOneOn(SweepLog(raw, n)[x].leds)
  {
    SweepShape(raw, n);
    forall x | 0 <= x < |SweepLog(raw, n)| && SweepLog(raw, n)[x].LedsSet?
      ensures AtMostOneOn(SweepLog(raw, n)[x].leds)
    {
      SweepAt(raw, n, x);
      MasksLightOne(x / 3);
    }
  }

  /** A complete sweep ends with every LED off. */
  lemma SweepEndsDark(raw: seq<int>, n: nat)
    requires |raw| == SENSORS && Binary(raw) && n > 0
    ensures SweepLog(raw, n)[|SweepLog(raw, n)| - 1] == LedsSet(Dark)
  {
    SweepShape(raw, n);
    SweepAt(raw, n, 3 * n - 1);
  }

  /** The reading taken for sensor k, while LED k alone was on, shows sensor k's track
      state and nothing for the other sensors. */
  lemma SweepReadsEachSensor(raw: seq<int>, n: nat, k: nat)
    requires |raw| == SENSORS && Binary(raw) && k < n <= SENSORS
    ensures |SweepLog(raw, n)| == 3 * n
    ensures SweepLog(raw, n)[3 * k] == LedsSet(LedMask(k))
    ensures var e := SweepLog(raw, n)[3 * k + 1];
              && e.SensorsRead? && |e.readings| == SENSORS && e.readings[k] == raw[k]
              && forall j :: 0 <= j < SENSORS && j != k ==> e.readings[j] == 0
  {
    SweepAt(raw, n, 3 * k);
    SweepAt(raw, n, 3 * k + 1);
  }

  /** The calls `set_speed` makes: left motor first, then right, each only on firing. */
  function SpeedLog(left: Wheel, coeffL: int, right: Wheel, coeffR: int): (r: seq<Event>)
    ensures |r| == (if Fires(left, coeffL) then 1 else 0) + (if Fires(right, coeffR) then 1 else 0)
    ensures Fires(left, coeffL) ==> r[0] == LeftMotorSet(Drive(left, coeffL).ring)
    ensures Fires(right, coeffR) ==> r[|r| - 1] == RightMotorSet(Drive(right, coeffR).ring)
  {
    (if Fires(left, coeffL) then [LeftMotorSet(Drive(left, coeffL).ring)] else [])
    + (if Fires(right, coeffR) then [RightMotorSet(Drive(right, coeffR).ring)] else [])
  }

  /** The emulator's view of one wheel after the controller drove it. */
  function Reported(m: Motor, w: Wheel, coeff: int): Motor
    requires Fires(w, coeff) ==> Settable(m, Drive(w, coeff).ring)
  {
    if Fires(w, coeff) then SetMotor(m, Drive(w, coeff).ring) else m
  }

  /** One channel of the sweep: LED i alone on, read all sensors, LED i off again. */
  method SampleChannel(emu: Emulator, leds: array<int>, sensors: array<int>, i: nat)
    requires emu.Valid() && i < SENSORS
    requires leds.Length == SENSORS && sensors.Length == SENSORS && leds != sensors
    requires leds !in emu.Repr() && sensors !in emu.Repr()
    requires leds[..] == Dark
    modifies emu`log, emu.robotLeds, leds, sensors
    ensures emu.Valid() && leds[..] == Dark && emu.robotLeds[..] == Dark
    ensures sensors[..] == Readings(emu.robotSensors[..], LedMask(i))
    ensures emu.log == old(emu.log) + SweepStep(emu.robotSensors[..], i)
  {
    leds[i] := 1;
    assert leds[..] == LedMask(i);
    var _ := emu.SetLeds(leds[..]);

    var _ := emu.GetSensors(sensors);

    leds[i] := 0;
    assert leds[..] == Dark;
    var _ := emu.SetLeds(leds[..]);
  }

  /** The sensor sweep of `robot_frame`: each channel in turn, keeping reading i of channel i. */
  method Sweep(emu: Emulator) returns (total: array<int>)
    requires emu.Valid()
    modifies emu`log, emu.robotLeds
    ensures emu.Valid() && fresh(total)
    ensures total[..] == emu.robotSensors[..]
    ensures emu.robotLeds[..] == Dark
    ensures emu.log == old(emu.log) + SweepLog(emu.robotSensors[..], SENSORS)
  {
    ghost var raw := emu.robotSensors[..];
    var leds := new int[SENSORS](_ => 0);
    var sensors := new int[SENSORS](_ => 0);
    total := new int[SENSORS](_ => 0);
    assert leds[..] == Dark;
    for i := 0 to SENSORS
      invariant emu.Valid() && emu.robotSensors[..] == raw
      invariant leds[..] == Dark
      invariant i > 0 ==> emu.robotLeds[..] == Dark
      invariant forall k :: 0 <= k < i ==> total[k] == raw[k]
      invariant emu.log == old(emu.log) + SweepLog(raw, i)
    {
      SampleChannel(emu, leds, sensors, i);
      total[i] := sensors[i];
    }
    assert total[..] == raw;
  }

  /** The coefficient rule of `robot_frame` on the swept readings: each side starts
      at 10 and adds 10, 5 or 3 for the first of its sensors found on, outermost first. */
  method Coefficients(total: array<int>) returns (coeffL: int, coeffR: int)
    requires total.Length == SENSORS
    ensures coeffL == CoeffL(total[..]) && coeffR == CoeffR(total[..])
  {
    coeffL := 10;
    coeffR := 10;

    if total[0] != 0 {
      coeffR := coeffR + 10;
    } else if total[1] != 0 {
      coeffR := coeffR + 5;
    } else if total[2] != 0 {
      coeffR := coeffR + 3;
    }

    if total[6] != 0 {
      coeffL := coeffL + 10;
    } else if total[5] != 0 {
      coeffL := coeffL + 5;
    } else if total[4] != 0 {
      coeffL := coeffL + 3;
    }
  }

  // ---------------------------------------------------------------------------
  // The controller object

  /** The controller's global state, with the emulator in place of the callbacks. */
  class Robot {
    var countR: int
    var countL: int
    const motorL: array<int>
    const motorR: array<int>
    const emu: Emulator
    ghost var phaseL: nat   // the slot of the left ring that is on
    ghost var phaseR: nat   // the slot of the right ring that is on

    ghost function Repr(): set<object> {
      {this, motorL, motorR} + emu.Repr()
    }

    ghost predicate Valid()
      reads this, motorL, motorR, emu, emu.robotSensors
    {
      && emu.Valid()
      && motorL.Length == MAGNETS && motorR.Length == MAGNETS && motorL != motorR
      && motorL !in emu.Repr() && motorR !in emu.Repr()
      && OneHot(motorL[..], phaseL) && OneHot(motorR[..], phaseR)
    }

    function WheelL(): Wheel
      reads this`countL, motorL
      requires motorL.Length == MAGNETS
    {
      Wheel(countL, motorL[..])
    }

    function WheelR(): Wheel
      reads this`countR, motorR
      requires motorR.Length == MAGNETS
    {
      Wheel(countR, motorR[..])
    }

    /** A left advance under coefficient `coeff` would not divide by a zero clock. */
    ghost predicate LeftTimed(coeff: int)
      reads this, motorL, motorR, emu, emu.robotSensors, emu.lMotor, emu.lPrev
      requires Valid()
    {
      countL - coeff > 0 || Settable(emu.LeftMotor(), Advanced(motorL[..]))
    }

    ghost predicate RightTimed(coeff: int)
      reads this, motorL, motorR, emu, emu.robotSensors, emu.rMotor, emu.rPrev
      requires Valid()
    {
      countR - coeff > 0 || Settable(emu.RightMotor(), Advanced(motorR[..]))
    }

    /** `robot_connect`: both counters full, both rings on magnet 0. */
    constructor Connect(e: Emulator)
      requires e.Valid()
      ensures Valid() && emu == e && fresh(motorL) && fresh(motorR)
      ensures WheelL() == Wheel(MOTOR_DEFAULT_COUNT, InitialRing)
      ensures WheelR() == Wheel(MOTOR_DEFAULT_COUNT, InitialRing)
    {
      countR := MOTOR_DEFAULT_COUNT;
      countL := MOTOR_DEFAULT_COUNT;
      emu := e;
      motorL := new int[MAGNETS](i => if i == 0 then 1 else 0);
      motorR := new int[MAGNETS](i => if i == 0 then 1 else 0);
      phaseL, phaseR := 0, 0;
      new;
      assert motorL[..] == InitialRing && motorR[..] == InitialRing;
    }

    /** `set_speed`: drive each wheel by its own coefficient, reporting each advance. */
    method SetSpeed(coeffL: int, coeffR: int)
      requires Valid() && LeftTimed(coeffL) && RightTimed(coeffR)
      modifies this, motorL, motorR, emu`log
      modifies emu`lSpeed, emu`lClock, emu.lMotor, emu`rSpeed, emu`rClock, emu.rMotor
      ensures Valid()
      ensures WheelL() == Drive(old(WheelL()), coeffL)
      ensures WheelR() == Drive(old(WheelR()), coeffR)
      ensures emu.LeftMotor() == Reported(old(emu.LeftMotor()), old(WheelL()), coeffL)
      ensures emu.RightMotor() == Reported(old(emu.RightMotor()), old(WheelR()), coeffR)
      ensures emu.log == old(emu.log) + SpeedLog(old(WheelL()), coeffL, old(WheelR()), coeffR)
    {
      ghost var wL, wR := WheelL(), WheelR();
      ghost var mL, mR := emu.LeftMotor(), emu.RightMotor();
      ghost var log0 := emu.log;
      ghost var left := if Fires(wL, coeffL) then [LeftMotorSet(Drive(wL, coeffL).ring)] else [];
      ghost var right := if Fires(wR, coeffR) then [RightMotorSet(Drive(wR, coeffR).ring)] else [];
      countL := countL - coeffL;
      countR := countR - coeffR;
      ReleaseLeft(wL, coeffL);
      assert emu.log == log0 + left;
      ReleaseRight(wR, coeffR);
      assert emu.log == log0 + (left + right);
      assert emu.LeftMotor() == Reported(mL, wL, coeffL);
    }

    /** The left block of `set_speed`, once the counter has been decremented from
        `before.count` by `coeff`: on a spent counter, reset it, advance the ring and
        report the new pattern. */
    method ReleaseLeft(ghost before: Wheel, ghost coeff: int)
      requires Valid() && WheelL() == Wheel(before.count - coeff, before.ring)
      requires Fires(before, coeff) ==> Settable(emu.LeftMotor(), Drive(before, coeff).ring)
      modifies this`countL, this`phaseL, motorL, emu`log, emu`lSpeed, emu`lClock, emu.lMotor
      ensures Valid()
      ensures WheelL() == Drive(before, coeff)
      ensures phaseL == if Fires(before, coeff) then (old(phaseL) + 1) % MAGNETS else old(phaseL)
      ensures emu.LeftMotor() == Reported(old(emu.LeftMotor()), before, coeff)
      ensures emu.log == old(emu.log) + if Fires(before, coeff) then [LeftMotorSet(Drive(before, coeff).ring)] else []
      ensures WheelR() == old(WheelR()) && emu.RightMotor() == old(emu.RightMotor())
    {
      if countL <= 0 {
        countL := MOTOR_DEFAULT_COUNT;
        AdvanceRotates(motorL[..], phaseL);
        AdvanceRing(motorL);
        phaseL := (phaseL + 1) % MAGNETS;
        var _ := emu.SetLMotor(motorL[..]);
      }
    }

    /** The right block of `set_speed`, the same for the right wheel. */
    method ReleaseRight(ghost before: Wheel, ghost coeff: int)
      requires Valid() && WheelR() == Wheel(before.count - coeff, before.ring)
      requires Fires(before, coeff) ==> Settable(emu.RightMotor(), Drive(before, coeff).ring)
      modifies this`countR, this`phaseR, motorR, emu`log, emu`rSpeed, emu`rClock, emu.rMotor
      ensures Valid()
      ensures WheelR() == Drive(before, coeff)
      ensures phaseR == if Fires(before, coeff) then (old(phaseR) + 1) % MAGNETS else old(phaseR)
      ensures emu.RightMotor() == Reported(old(emu.RightMotor()), before, coeff)
      ensures emu.log == old(emu.log) + if Fires(before, coeff) then [RightMotorSet(Drive(before, coeff).ring)] else []
      ensures WheelL() == old(WheelL()) && emu.LeftMotor() == old(emu.LeftMotor())
    {
      if countR <= 0 {
        countR := MOTOR_DEFAULT_COUNT;
        AdvanceRotates(motorR[..], phaseR);
        AdvanceRing(motorR);
        phaseR := (phaseR + 1) % MAGNETS;
        var _ := emu.SetRMotor(motorR[..]);
      }
    }

    /** `robot_frame`: sweep the sensors, apply the coefficient rule, drive both wheels.
        `dt` is unused, as in the source. */
    method Frame(dt: real) returns (status: int)
      requires Valid() && LeftTimed(MAX_COEFF) && RightTimed(MAX_COEFF)
      modifies this, motorL, motorR, emu`log, emu.robotLeds
      modifies emu`lSpeed, emu`lClock, emu.lMotor, emu`rSpeed, emu`rClock, emu.rMotor
      ensures Valid() && status == 0
      ensures emu.robotSensors[..] == old(emu.robotSensors[..])
      ensures emu.robotLeds[..] == Dark
      ensures WheelL() == Drive(old(WheelL()), CoeffL(old(emu.robotSensors[..])))
      ensures WheelR() == Drive(old(WheelR()), CoeffR(old(emu.robotSensors[..])))
      ensures emu.LeftMotor() == Reported(old(emu.LeftMotor()), old(WheelL()), CoeffL(old(emu.robotSensors[..])))
      ensures emu.RightMotor() == Reported(old(emu.RightMotor()), old(WheelR()), CoeffR(old(emu.robotSensors[..])))
      ensures emu.log == old(emu.log) + SweepLog(old(emu.robotSensors[..]), SENSORS)
                       + SpeedLog(old(WheelL()), CoeffL(old(emu.robotSensors[..])),
                                  old(WheelR()), CoeffR(old(emu.robotSensors[..])))
    {
      var total := Sweep(emu);

      var coeffL, coeffR := Coefficients(total);
      SetSpeed(coeffL, coeffR);
      status := 0;
    }
  }
}
