/** The open-loop navigation manoeuvre `run_motors` (auv/auv.py, lines
    104-135) and the motor commands the loop issues. The motor driver itself
    is not part of this model: a command is recorded, and `Apply` states what
    the driver is taken to do with it. */
module Motors {

  /** One speed per motor channel, in the driver's order: forward, turn,
      front, back (the channel names of `test_motor`). */
  datatype Speeds = Speeds(forward: int, turn: int, front: int, back: int)

  const STOPPED := Speeds(0, 0, 0, 0)

  /** `zero_out_motors()` or `update_motor_speeds([a, b, c, d])`. */
  datatype Command = ZeroOut | Update(speeds: Speeds)

  const TURN_SPEED := 90
  const FORWARD_SPEED := 90

  /** The speeds the motors run at after a command. */
  function Apply(current: Speeds, c: Command): Speeds
  {
    match c
    case ZeroOut => STOPPED
    case Update(s) => s
  }

  /** The speeds after a sequence of commands, applied in order. */
  function ApplyAll(current: Speeds, cs: seq<Command>): Speeds
    decreases |cs|
  {
    if cs == [] then current else ApplyAll(Apply(current, cs[0]), cs[1..])
  }

  /** A sequence of commands that ends by zeroing the motors leaves them
      stopped, whatever they were doing before. */
  lemma {:induction false} EndsStopped(current: Speeds, cs: seq<Command>)
    requires |cs| > 0 && cs[|cs| - 1] == ZeroOut
    ensures ApplyAll(current, cs) == STOPPED
    decreases |cs|
  {
    if |cs| > 1 {
      EndsStopped(Apply(current, cs[0]), cs[1..]);
    }
  }

  /** At most one channel runs at a time. */
  predicate SingleChannel(s: Speeds)
  {
    var running := (if s.forward != 0 then 1 else 0) + (if s.turn != 0 then 1 else 0)
                 + (if s.front != 0 then 1 else 0) + (if s.back != 0 then 1 else 0);
    running <= 1
  }

  /** The turn channel's speed: full right for y > 0, full left for y < 0,
      none for y == 0. */
  function TurnSpeed(y: int): (t: int)
    ensures t > 0 <==> y > 0
    ensures t < 0 <==> y < 0
    ensures t == TURN_SPEED || t == -TURN_SPEED || t == 0
  {
    if y > 0 then TURN_SPEED else if y < 0 then -TURN_SPEED else 0
  }

  /** The manoeuvre for a navigation command: stop, turn toward the sign of y,
      stop, drive forward only when x is non-zero, stop. Only the signs of x
      and y matter; the magnitudes are not used. */
  function RunMotors(x: int, y: int): (cs: seq<Command>)
    ensures |cs| == (if x != 0 then 5 else 4)
    ensures cs[0] == ZeroOut && cs[|cs| - 1] == ZeroOut
    ensures cs[1] == Update(Speeds(0, TurnSpeed(y), 0, 0))
    ensures forall i :: 0 <= i < |cs| && cs[i].Update? ==>
              SingleChannel(cs[i].speeds) && i + 1 < |cs| && cs[i + 1] == ZeroOut
    ensures (exists i :: 0 <= i < |cs| && cs[i] == Update(Speeds(FORWARD_SPEED, 0, 0, 0)))
            <==> x != 0
  {
    var turn := [ZeroOut, Update(Speeds(0, TurnSpeed(y), 0, 0)), ZeroOut];
    var forward := if x != 0 then [Update(Speeds(FORWARD_SPEED, 0, 0, 0))] else [];
    var cs := turn + forward + [ZeroOut];
    assert x != 0 ==> cs[3] == Update(Speeds(FORWARD_SPEED, 0, 0, 0));
    cs
  }

  /** Two commands with the same signs give the same manoeuvre. */
  lemma RunMotorsDependsOnSigns(x1: int, y1: int, x2: int, y2: int)
    requires (x1 == 0) == (x2 == 0)
    requires (y1 > 0) == (y2 > 0) && (y1 < 0) == (y2 < 0)
    ensures RunMotors(x1, y1) == RunMotors(x2, y2)
  {
  }

  /** After the manoeuvre the motors are stopped. */
  lemma RunMotorsStops(current: Speeds, x: int, y: int)
    ensures ApplyAll(current, RunMotors(x, y)) == STOPPED
  {
    EndsStopped(current, RunMotors(x, y));
  }
}
