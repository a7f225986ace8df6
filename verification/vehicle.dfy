/** The state the control loop of auv/auv.py keeps between iterations, and the
    side effects it has on the hardware, recorded in order. */
module Vehicle {
  import opened Motors

  datatype Option<T> = None | Some(value: T)

  /** The one mission the vehicle can run: mission 0, echo-location
      (`Mission1`). Its own step and abort logic is not part of this model. */
  datatype Mission = EchoLocation

  /** `self.radio`: no device (`None`), a device that is not open, or an open
      device. */
  datatype Radio = NoRadio | Closed | Open

  /** `connected_to_bs`, `time_since_last_ping` (the clock reading of the last
      ping), `current_mission`, `timer`, the radio handle, and whether a
      pressure sensor was found at start-up. */
  datatype State = State(
    connected: bool,
    lastPing: int,
    mission: Option<Mission>,
    timer: int,
    radio: Radio,
    pressureSensor: bool)

  /** The state right after the constructor: not connected, no ping seen
      (clock reading 0), no mission. */
  function Initial(radio: Radio, pressureSensor: bool): (s: State)
    ensures !s.connected && s.mission.None? && s.timer == 0
  {
    State(false, 0, None, 0, radio, pressureSensor)
  }

  /** What one iteration does to the outside world, in program order. */
  datatype Effect =
    | Motor(command: Command)         // motor driver call
    | Write(value: int, width: nat)   // radio.write(value, width bytes)
    | Flush                           // radio.flush()
    | Close                           // radio.close()
    | ConnectionVerified              // "Connection to BS verified."
    | ConnectionLost                  // "Lost connection to BS."
    | MissionLoop                     // current_mission.loop()
    | MissionAbort                    // aborted_mission.abort_loop()

  /** The state after an operation and the effects it had. */
  datatype Step = Step(state: State, effects: seq<Effect>)

  /** The motor commands of a manoeuvre as effects, in order. */
  function MotorEffects(cs: seq<Command>): (es: seq<Effect>)
    ensures |es| == |cs|
    ensures forall i :: 0 <= i < |cs| ==> es[i] == Motor(cs[i])
  {
    if cs == [] then [] else [Motor(cs[0])] + MotorEffects(cs[1..])
  }

  /** How many times an effect occurs. */
  function Count(es: seq<Effect>, e: Effect): (n: nat)
    ensures n <= |es|
    decreases |es|
  {
    if es == [] then 0
    else Count(es[..|es| - 1], e) + (if es[|es| - 1] == e then 1 else 0)
  }

  lemma {:induction false} CountAbsent(es: seq<Effect>, e: Effect)
    requires e !in es
    ensures Count(es, e) == 0
    decreases |es|
  {
    if es != [] {
      CountAbsent(es[..|es| - 1], e);
    }
  }

  lemma CountOne(x: Effect, e: Effect)
    ensures Count([x], e) == (if x == e then 1 else 0)
  {
    assert [x][..0] == [];
  }

  lemma {:induction false} CountAppend(a: seq<Effect>, b: seq<Effect>, e: Effect)
    ensures Count(a + b, e) == Count(a, e) + Count(b, e)
    decreases |b|
  {
    if b != [] {
      assert (a + b)[..|a + b| - 1] == a + b[..|b| - 1];
      CountAppend(a, b[..|b| - 1], e);
    } else {
      assert a + b == a;
    }
  }
}
