/**
 From a requested motor speed to the velocity the controller is told
 (libs/MachineServiceComponent/src/MotorService.cpp and
 libs/HardwareAbstractionLayerImpl/Rpi/src/StepperMotor.cpp). Speeds are whole revolutions per minute;
 the controller counts microsteps per 10000 seconds.

 The maximum speed is taken to fit a signed 32-bit integer, as the casts of the source presuppose.
 */
module MotorServices {
  import opened Arithmetic
  import opened Options
  import Tic = TicControllers

  const MICRO_STEPS_PER_ROUND: int := 200 * 8
  const SECONDS_PER_MINUTE: int := 60
  const INT_MAX: int := 0x7FFF_FFFF

  // ---------------------------------------------------------------------------------------------
  // Units

  /** `rpmToMicrostepsPer10kSeconds`, in unbounded arithmetic. */
  function ToMicrosteps(rpm: int): int {
    TruncDiv(rpm * MICRO_STEPS_PER_ROUND * 10000, SECONDS_PER_MINUTE)
  }

  /** `microstepsPer10kSecondsToRpm`, in unbounded arithmetic. */
  function ToRpm(microsteps: int): int {
    TruncDiv(microsteps * SECONDS_PER_MINUTE, MICRO_STEPS_PER_ROUND * 10000)
  }

  predicate FitsInt(x: int) {
    -0x8000_0000 <= x <= INT_MAX
  }

  /** A value reduced to a signed 32-bit integer, as a cast does it and as an overflowing product is taken to. */
  function Wrap32(x: int): int {
    (x + 0x8000_0000) % 0x1_0000_0000 - 0x8000_0000
  }

  /** `rpmToMicrostepsPer10kSeconds` on 32-bit integers. */
  function ToMicrostepsInt(rpm: int): int {
    TruncDiv(Wrap32(Wrap32(Wrap32(rpm) * MICRO_STEPS_PER_ROUND) * 10000), SECONDS_PER_MINUTE)
  }

  lemma MicrostepsOf(rpm: nat)
    ensures ToMicrosteps(rpm)
         == 800_000 * (rpm / 3) + (if rpm % 3 == 0 then 0 else if rpm % 3 == 1 then 266_666 else 533_333)
  {
    var q, r := rpm / 3, rpm % 3;
    assert rpm == 3 * q + r;
    assert rpm * MICRO_STEPS_PER_ROUND * 10000 == 60 * (800_000 * q) + r * 16_000_000;
  }

  /** Converting a speed and back loses a revolution unless it is divisible by three. */
  lemma RoundTripIff(rpm: nat)
    ensures ToRpm(ToMicrosteps(rpm)) == if rpm % 3 == 0 then rpm else rpm - 1
  {
    MicrostepsOf(rpm);
    var q, r := rpm / 3, rpm % 3;
    var m := ToMicrosteps(rpm);
    assert m * SECONDS_PER_MINUTE
        == 16_000_000 * (3 * q) + (if r == 0 then 0 else if r == 1 then 15_999_960 else 31_999_980);
    if r == 2 {
      assert m * SECONDS_PER_MINUTE == 16_000_000 * (3 * q + 1) + 15_999_980;
    }
  }

  lemma ConversionIsMonotone(a: nat, b: nat)
    requires a <= b
    ensures 0 <= ToMicrosteps(a) <= ToMicrosteps(b)
  {
    MicrostepsOf(a);
    MicrostepsOf(b);
  }

  lemma Wrap32Small(x: int)
    requires FitsInt(x)
    ensures Wrap32(x) == x
  {
  }

  lemma ToMicrostepsIntIsSmall(rpm: int)
    ensures -35_791_394 <= ToMicrostepsInt(rpm) <= 35_791_394
  {
  }

  /** The 32-bit conversion is the conversion exactly up to 134 revolutions per minute. */
  lemma NoOverflowIff(rpm: nat)
    ensures ToMicrostepsInt(rpm) == ToMicrosteps(rpm) <==> rpm <= 134
    ensures FitsInt(rpm * MICRO_STEPS_PER_ROUND * 10000) <==> rpm <= 134
    ensures rpm <= 134 ==> FitsInt(ToMicrosteps(rpm) * SECONDS_PER_MINUTE)
  {
    MicrostepsOf(rpm);
    if rpm <= 134 {
      Wrap32Small(rpm);
      Wrap32Small(rpm * MICRO_STEPS_PER_ROUND);
      Wrap32Small(rpm * MICRO_STEPS_PER_ROUND * 10000);
    } else {
      ToMicrostepsIntIsSmall(rpm);
      ConversionIsMonotone(135, rpm);
      MicrostepsOf(135);
    }
  }

  // ---------------------------------------------------------------------------------------------
  // The stepper motor

  datatype Direction = Forward | Backward

  function Velocity(rpm: nat, direction: Direction): int {
    if direction == Forward then ToMicrosteps(rpm) else -ToMicrosteps(rpm)
  }

  /** The velocity `setSpeed` computes. */
  function CommandedVelocity(rpm: nat, direction: Direction): Tic.Int32 {
    ToMicrostepsIntIsSmall(rpm);
    var m := ToMicrostepsInt(rpm);
    (if m < 0 then -m else m) * (if direction == Forward then 1 else -1)
  }

  lemma CommandIsExact(rpm: nat, direction: Direction)
    requires rpm <= 134
    ensures CommandedVelocity(rpm, direction) == Velocity(rpm, direction)
  {
    NoOverflowIff(rpm);
    ConversionIsMonotone(0, rpm);
  }

  /** The speed `getSpeed` reports: the converted velocity as an unsigned 32-bit number. */
  function ReportedSpeed(velocity: int): int {
    ToRpm(velocity) % 0x1_0000_0000
  }

  /**
   The speed read back is the speed set exactly for a multiple of three up to 134 running forward, or
   for standstill: other such speeds come back one lower, a backward speed as a number near 2^32, and
   what overflows on the way as something else. Only the numbers near 2^32 themselves, which the
   arithmetic takes for small negative ones, come back unchanged when running backward.
   */
  lemma SpeedReadBackIff(rpm: nat, direction: Direction)
    requires rpm < 0x1_0000_0000 // an unsigned number
    ensures ReportedSpeed(CommandedVelocity(rpm, direction)) == rpm <==>
            || (rpm <= 134 && rpm % 3 == 0 && (direction == Forward || rpm == 0))
            || (direction == Backward && rpm >= 0x1_0000_0000 - 134 && (0x1_0000_0000 - rpm) % 3 == 0)
  {
    ToMicrostepsIntIsSmall(rpm);
    if rpm <= 134 {
      NoOverflowIff(rpm);
      ConversionIsMonotone(0, rpm);
      RoundTripIff(rpm);
      ReportedOf(ToMicrosteps(rpm), direction);
    } else {
      var m := ToMicrostepsInt(rpm);
      ReportedOf(if m < 0 then -m else m, direction);
      if rpm >= 0x1_0000_0000 - 134 {
        var s: nat := 0x1_0000_0000 - rpm;
        NegativeSpeed(s);
        ConversionIsMonotone(0, s);
        RoundTripIff(s);
      }
    }
  }

  /** The report of a forward velocity m and of the same velocity backward. */
  lemma ReportedOf(m: int, direction: Direction)
    requires 0 <= m <= 35_791_394
    ensures 0 <= ToRpm(m) <= 134
    ensures ReportedSpeed(if direction == Forward then m else -m) ==
            if direction == Forward || ToRpm(m) == 0 then ToRpm(m) else 0x1_0000_0000 - ToRpm(m)
  {
    assert ToRpm(-m) == -ToRpm(m);
    CastOfSmall(ToRpm(m));
  }

  lemma NegativeSpeed(s: int)
    requires 1 <= s <= 134
    ensures ToMicrostepsInt(0x1_0000_0000 - s) == -ToMicrosteps(s)
  {
    assert Wrap32(0x1_0000_0000 - s) == -s;
    Wrap32Small(-s * MICRO_STEPS_PER_ROUND);
    Wrap32Small(-s * MICRO_STEPS_PER_ROUND * 10000);
  }

  lemma CastOfSmall(r: int)
    requires 0 <= r <= 0x7FFF_FFFF
    ensures r % 0x1_0000_0000 == r
    ensures -r % 0x1_0000_0000 == if r == 0 then 0 else 0x1_0000_0000 - r
  {
  }

  class StepperMotor {
    const maxSpeed: nat
    var speed: nat
    var direction: Direction
    /** The last velocity command the controller took. */
    var lastCommand: Option<seq<Tic.Byte>>

    constructor (maxSpeed: nat, direction: Direction)
      ensures this.maxSpeed == maxSpeed && this.direction == direction && speed == 0 && lastCommand == None
    {
      this.maxSpeed, this.direction := maxSpeed, direction;
      speed, lastCommand := 0, None;
    }

    /** `setSpeed`; `written`: the controller took the command. */
    method SetSpeed(newSpeed: nat, written: bool) returns (ok: bool)
      modifies this`speed, this`lastCommand
      ensures ok <==> newSpeed <= maxSpeed && written
      ensures newSpeed > maxSpeed ==> speed == old(speed) && lastCommand == old(lastCommand)
      ensures newSpeed <= maxSpeed ==> speed == newSpeed
      ensures !ok ==> lastCommand == old(lastCommand)
      ensures ok ==> WasTold(CommandedVelocity(newSpeed, direction))
    {
      if newSpeed > maxSpeed {
        return false;
      }
      speed := newSpeed;
      ToMicrostepsIntIsSmall(newSpeed);
      var microsteps := ToMicrostepsInt(newSpeed);
      var speedMicrosteps := if microsteps < 0 then -microsteps else microsteps;
      var velocity := speedMicrosteps * (if direction == Forward then 1 else -1);
      var command := Tic.TargetVelocityCommand(velocity);
      if !written {
        return false;
      }
      lastCommand := Some(command);
      return true;
    }

    /** The last command the controller took decodes to this velocity. */
    ghost predicate WasTold(velocity: int)
      reads this
    {
      && lastCommand.Some? && |lastCommand.value| == 5
      && lastCommand.value[0] == Tic.SET_TARGET_VELOCITY_COMMAND
      && Tic.DecodeSigned(lastCommand.value[1..]) == velocity
    }
  }

  // ---------------------------------------------------------------------------------------------
  // Speed and offset

  datatype Motor = Motor(speed: int, offset: int) {
    function Effective(): int {
      speed + offset
    }
  }

  function WithSpeed(m: Motor, speed: nat, max: nat): Motor {
    m.(speed := if speed > max then max else speed)
  }

  function WithOffset(m: Motor, delta: int, max: nat): Motor {
    m.(offset := Clamp(m.speed + m.offset + delta, 0, max) - m.speed)
  }

  datatype Op = SetSpeed(speed: nat) | AddOffset(delta: int) | Reset

  function Apply(m: Motor, op: Op, max: nat): Motor {
    match op
    case SetSpeed(s) => WithSpeed(m, s, max)
    case AddOffset(d) => WithOffset(m, d, max)
    case Reset => Motor(0, 0)
  }

  function RunMotor(m: Motor, ops: seq<Op>, max: nat): Motor
    decreases |ops|
  {
    if ops == [] then m else Apply(RunMotor(m, ops[..|ops| - 1], max), ops[|ops| - 1], max)
  }

  predicate InRange(m: Motor, max: nat) {
    0 <= m.Effective() <= max
  }

  /** The speed, cut at the maximum, stays within the range when the offset in force is added. */
  predicate OffsetAllows(m: Motor, speed: nat, max: nat) {
    0 <= (if speed < max then speed else max) + m.offset <= max
  }

  /** Setting the speed keeps the effective speed within its range exactly when the offset then in force allows it. */
  lemma SetSpeedKeepsRangeIff(m: Motor, speed: nat, max: nat)
    ensures InRange(WithSpeed(m, speed, max), max) <==> OffsetAllows(m, speed, max)
  {
  }

  /** It need not: after an offset request within its range, a speed request can leave it on either side. */
  lemma SetSpeedCanLeaveRange(max: nat)
    requires max > 0
    ensures WithSpeed(WithOffset(Motor(0, 0), max, max), 1, max).Effective() == max + 1
    ensures WithSpeed(WithOffset(Motor(max, 0), -1, max), 0, max).Effective() == -1
  {
    assert WithOffset(Motor(0, 0), max, max) == Motor(0, max);
    assert WithOffset(Motor(max, 0), -1, max) == Motor(max, -1);
  }

  /** The speed stays within [0, max] and the offset within [-max, max]. */
  ghost predicate Bounded(m: Motor, max: nat) {
    0 <= m.speed <= max && 0 <= max + m.offset <= 2 * max
  }

  /** Every offset request and reset ends in the range; a speed request does iff the offset allows it. */
  predicate KeepsRange(m: Motor, op: Op, max: nat) {
    op.SetSpeed? ==> OffsetAllows(m, op.speed, max)
  }

  /** What one request sets: a speed at most the maximum, an effective speed moved as far as the range allows, or zero. */
  lemma RequestSets(m: Motor, op: Op, max: nat)
    ensures op.SetSpeed? ==>
              Apply(m, op, max) == Motor(if op.speed <= max then op.speed else max, m.offset)
    ensures op.AddOffset? ==>
              var moved := m.speed + m.offset + op.delta;
              && Apply(m, op, max).speed == m.speed
              && (0 <= moved <= max ==> Apply(m, op, max).Effective() == moved)
              && (moved < 0 ==> Apply(m, op, max).Effective() == 0)
              && (moved > max ==> Apply(m, op, max).Effective() == max)
    ensures op.Reset? ==> Apply(m, op, max) == Motor(0, 0)
  {
  }

  lemma RequestOutcome(m: Motor, op: Op, max: nat)
    requires Bounded(m, max)
    ensures Bounded(Apply(m, op, max), max)
    ensures InRange(Apply(m, op, max), max) <==> KeepsRange(m, op, max)
  {
    match op
    case SetSpeed(s) => SetSpeedKeepsRangeIff(m, s, max);
    case AddOffset(d) =>
      assert Apply(m, op, max).Effective() == Clamp(m.speed + m.offset + d, 0, max);
    case Reset =>
  }

  /**
   In every run the motor stays bounded, and the effective speed is within its range unless the last
   request was for a speed that the offset then in force does not allow.
   */
  lemma {:induction false} EveryRunIsBounded(ops: seq<Op>, max: nat)
    ensures Bounded(RunMotor(Motor(0, 0), ops, max), max)
    ensures ops != [] ==>
              (InRange(RunMotor(Motor(0, 0), ops, max), max) <==>
               KeepsRange(RunMotor(Motor(0, 0), ops[..|ops| - 1], max), ops[|ops| - 1], max))
    decreases |ops|
  {
    if ops != [] {
      EveryRunIsBounded(ops[..|ops| - 1], max);
      RequestOutcome(RunMotor(Motor(0, 0), ops[..|ops| - 1], max), ops[|ops| - 1], max);
    }
  }

  /** The saturating sum of offset requests. */
  function SaturatingSum(start: int, deltas: seq<int>, max: nat): int
    decreases |deltas|
  {
    if deltas == [] then start
    else Clamp(SaturatingSum(start, deltas[..|deltas| - 1], max) + deltas[|deltas| - 1], 0, max)
  }

  function Offsets(deltas: seq<int>): (ops: seq<Op>)
    ensures |ops| == |deltas|
  {
    seq(|deltas|, i requires 0 <= i < |deltas| => AddOffset(deltas[i]))
  }

  /** Any run of offset requests moves the effective speed by their saturating sum, and leaves the speed alone. */
  lemma {:induction false} OffsetRequestsSaturate(m: Motor, deltas: seq<int>, max: nat)
    ensures RunMotor(m, Offsets(deltas), max).Effective() == SaturatingSum(m.Effective(), deltas, max)
    ensures RunMotor(m, Offsets(deltas), max).speed == m.speed
    decreases |deltas|
  {
    if deltas != [] {
      var before := deltas[..|deltas| - 1];
      assert Offsets(deltas)[..|deltas| - 1] == Offsets(before);
      OffsetRequestsSaturate(m, before, max);
    }
  }

  /** Casting an effective speed to unsigned neither brings a bad one into range nor changes a good one. */
  lemma CastKeepsRange(effective: int, max: nat)
    requires max <= INT_MAX && 0 <= max + effective <= 3 * max
    ensures effective % 0x1_0000_0000 <= max <==> 0 <= effective <= max
    ensures 0 <= effective <= max ==> effective % 0x1_0000_0000 == effective
  {
  }

  function Sum(deltas: seq<int>): int
    decreases |deltas|
  {
    if deltas == [] then 0 else Sum(deltas[..|deltas| - 1]) + deltas[|deltas| - 1]
  }

  predicate PlainSoFar(start: int, deltas: seq<int>, max: nat, k: nat)
    requires k <= |deltas|
  {
    SaturatingSum(start, deltas[..k], max) == start + Sum(deltas[..k])
  }

  predicate InRangeSoFar(start: int, deltas: seq<int>, max: nat, k: nat)
    requires k <= |deltas|
  {
    0 <= start + Sum(deltas[..k]) <= max
  }

  lemma PlainStep(start: int, deltas: seq<int>, max: nat, k: nat)
    requires k < |deltas| && PlainSoFar(start, deltas, max, k)
    ensures PlainSoFar(start, deltas, max, k + 1) <==> InRangeSoFar(start, deltas, max, k + 1)
  {
    assert deltas[..k + 1][..k] == deltas[..k];
  }

  /** The saturating sum is the plain sum all the way exactly when no partial sum leaves the range. */
  lemma {:induction false} NothingCutOffIff(start: int, deltas: seq<int>, max: nat, n: nat)
    requires n <= |deltas|
    ensures (forall k :: 0 <= k <= n ==> PlainSoFar(start, deltas, max, k)) <==>
            (forall k :: 0 < k <= n ==> InRangeSoFar(start, deltas, max, k))
    decreases n
  {
    if n == 0 {
      assert deltas[..0] == [];
    } else {
      NothingCutOffIff(start, deltas, max, n - 1);
      if PlainSoFar(start, deltas, max, n - 1) { PlainStep(start, deltas, max, n - 1); }
    }
  }

  // ---------------------------------------------------------------------------------------------
  // The service

  class MotorService {
    const stepperMotor: StepperMotor
    const maxMotorSpeed: nat
    var motorSpeed: nat
    var motorOffsetSpeed: int

    ghost function State(): Motor
      reads this
    {
      Motor(motorSpeed, motorOffsetSpeed)
    }

    ghost predicate Valid()
      reads this, stepperMotor
    {
      && maxMotorSpeed == stepperMotor.maxSpeed <= INT_MAX
      && Bounded(State(), maxMotorSpeed)
    }

    constructor (stepperMotor: StepperMotor)
      requires stepperMotor.maxSpeed <= INT_MAX
      ensures Valid() && this.stepperMotor == stepperMotor && State() == Motor(0, 0)
    {
      this.stepperMotor, maxMotorSpeed := stepperMotor, stepperMotor.maxSpeed;
      motorSpeed, motorOffsetSpeed := 0, 0;
    }

    /** `setMotorSpeed(unsigned)`. */
    method SetMotorSpeed(speed: nat, written: bool) returns (ok: bool)
      requires Valid()
      modifies this`motorSpeed, stepperMotor`speed, stepperMotor`lastCommand
      ensures Valid() && State() == WithSpeed(old(State()), speed, maxMotorSpeed)
      ensures motorSpeed == (if speed <= maxMotorSpeed then speed else maxMotorSpeed)
      ensures ok <==> InRange(State(), maxMotorSpeed) && written
      ensures ok ==> Obeyed()
    {
      motorSpeed := speed;
      if motorSpeed > maxMotorSpeed {
        motorSpeed := maxMotorSpeed;
      }
      ok := ApplyMotorSpeed(written);
    }

    /**
     The controller was last told the effective speed; up to a maximum of 134 this is the exact
     velocity, and not above that of the maximum.
     */
    ghost predicate Obeyed()
      reads this, stepperMotor
    {
      && InRange(State(), maxMotorSpeed)
      && stepperMotor.speed == State().Effective()
      && stepperMotor.WasTold(CommandedVelocity(State().Effective(), stepperMotor.direction))
      && (maxMotorSpeed <= 134 ==>
           && stepperMotor.WasTold(Velocity(State().Effective(), stepperMotor.direction))
           && 0 <= ToMicrosteps(State().Effective()) <= ToMicrosteps(maxMotorSpeed))
    }

    /**
     `setMotorSpeed()`. A negative effective speed is cast to a huge unsigned one. (In builds with
     assertions an effective speed above the maximum stops the program instead.)
     */
    method ApplyMotorSpeed(written: bool) returns (ok: bool)
      requires Valid()
      modifies stepperMotor`speed, stepperMotor`lastCommand
      ensures Valid()
      ensures ok <==> InRange(State(), maxMotorSpeed) && written
      ensures ok ==> Obeyed()
      ensures !InRange(State(), maxMotorSpeed) ==>
                && stepperMotor.speed == old(stepperMotor.speed)
                && stepperMotor.lastCommand == old(stepperMotor.lastCommand)
      ensures InRange(State(), maxMotorSpeed) ==> stepperMotor.speed == motorSpeed + motorOffsetSpeed
      ensures !ok ==> stepperMotor.lastCommand == old(stepperMotor.lastCommand)
    {
      var effective := motorSpeed + motorOffsetSpeed;
      var asUnsigned := effective % 0x1_0000_0000;
      CastKeepsRange(effective, maxMotorSpeed);
      ok := stepperMotor.SetSpeed(asUnsigned, written);
      if ok && maxMotorSpeed <= 134 {
        CommandIsExact(asUnsigned, stepperMotor.direction);
        ConversionIsMonotone(asUnsigned, maxMotorSpeed);
      }
    }

    /** `addMotorOffsetSpeed`: the setting it computes is never rejected for its size. */
    method AddMotorOffsetSpeed(delta: int, written: bool) returns (ok: bool)
      requires Valid()
      modifies this`motorOffsetSpeed, stepperMotor`speed, stepperMotor`lastCommand
      ensures Valid() && State() == WithOffset(old(State()), delta, maxMotorSpeed)
      ensures motorSpeed == old(motorSpeed)
      ensures var requested := old(motorSpeed + motorOffsetSpeed) + delta;
              motorSpeed + motorOffsetSpeed ==
              if requested < 0 then 0 else if requested > maxMotorSpeed then maxMotorSpeed else requested
      ensures ok <==> written
      ensures ok ==> Obeyed()
    {
      var resultingSpeed := Clamp(motorSpeed + motorOffsetSpeed + delta, 0, maxMotorSpeed);
      motorOffsetSpeed := resultingSpeed - motorSpeed;
      ok := ApplyMotorSpeed(written);
    }

    /** `resetMotor`; `motorReset`: the stepper motor could be reset. */
    method ResetMotor(motorReset: bool) returns (ok: bool)
      requires Valid()
      modifies this`motorSpeed, this`motorOffsetSpeed
      ensures Valid() && ok == motorReset
      ensures State() == if motorReset then Motor(0, 0) else old(State())
    {
      if !motorReset {
        return false;
      }
      motorOffsetSpeed := 0;
      motorSpeed := 0;
      return true;
    }
  }
}
