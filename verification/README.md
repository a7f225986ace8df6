# AUV control loop: a Dafny model

This project models the control loop of the Nautilus autonomous underwater
vehicle (`auv/auv.py`) and the 3-byte wire header scheme in
`auv/constants.py`. It then proves properties of the model.

Each iteration of `main_loop` becomes a pure step function,
`MainLoop.Tick`. It takes the vehicle's state and the iteration's inputs and
returns the new state and the ordered list of side effects. The inputs are
the clock reading, whether re-opening the radio succeeds, the depth reading,
and the results of the successive `radio.read(3)` calls. The side effects are
motor commands, radio writes, flush and close, the connection log lines, and
the mission's `loop` and `abort_loop` calls. The iteration does these steps
in order:

1. The connection-timeout check (`Connection.CheckTimeout`).
2. If the radio is missing or closed, an attempt to reopen it
   (`MainLoop.Reconnect`).
3. Otherwise:
   - the heartbeat and depth telemetry writes (`MainLoop.TelemetryWrites`,
     `Telemetry.DepthFrame`);
   - the read-drain loop (`Receiver.DrainLoop` and its functional twin
     `Receiver.Drain`), which classifies each frame (`Frame.Decode`) and
     dispatches it: pings go to `Connection.OnPing`, navigation commands to
     `Motors.RunMotors`, mission commands to `Supervisor.Start`;
   - the exception path, which closes and drops the radio
     (`MainLoop.AfterDrain`).
4. The mission tick with its iteration budget (`Supervisor.MissionTick`,
   `Supervisor.Abort`).

`MainLoop.Run` chains iterations.

Python's `<<`, `>>` and `|` on unbounded integers are modelled on `nat` in
module `Bits`. The 3-byte frames the vehicle reads are `seq<bv8>`, read
big-endian into a `bv24`.

There are two header schemes, and both are modelled as values of
`Protocol.Scheme`:
- `auv.py` uses 5-bit headers, plus `WATER_DEPTH_DATA = 0`, shifted by 11.
  Its depth frame is 2 bytes wide and its heartbeat is `0xFF`.
- `constants.py` uses 3-bit headers shifted by 21 into 3-byte frames, with
  heartbeat `0xFFFFFF`.

The loop constants of each variant are a `Protocol.Config`:
- the connection timeout: 3 s for `auv.py`, 6 s for `constants.py`;
- the mission budget `MAX_TIME / delay / 7`, kept as an exact fraction.

Behaviour of the code worth noting:
- `start_mission(0)` replaces a running mission instead of refusing it.
- Any id other than 0 is ignored.
- Motor commands go straight to the driver; there is no queue.
- Decoding a frame never fails: a frame that is neither a ping nor a
  navigation command is a mission command.
- The navigation mask `0x01F600` leaves out bit 11. As a result, the decoded
  x field loses bit 2.
- In a navigation command, `run_motors` turns by the sign of y, to the right
  for y > 0 and to the left for y < 0. It drives forward when x is non-zero.
  Nothing ever moves the vehicle backward. The model names the two fields
  x and y, as the code does. `Frame.NavigateRoundTrip` states this as a
  property of the code.

## Model

| member | source | states |
|---|---|---|
| Bits.Or | auv/auv.py:223 | `a \| b` on non-negative integers is at least each operand and at most their sum |
| Bits.OrDisjoint | auv/auv.py:222-223 | when one operand has no bits below k and the other fits in k bits, `\|` is addition, so the packed fields do not interfere |
| Bits.ShlShr | auv/constants.py:17-20 | shifting a header left and back gives the header again, and leaves only zero bits below the shift |
| Protocol.Encode | auv/constants.py:17-20 | a `*_ENCODE` value has all bits below the shift clear, and its bits above the shift are the header |
| Protocol.EncodedHeadersSeparate | auv/constants.py:11-20 | in a well-formed scheme, distinct kinds have distinct encoded prefixes, none equals the ping, and each fits the frame |
| Protocol.AuvHeadersDistinct | auv/auv.py:27-35 | no two `auv.py` header constants are equal, WATER_DEPTH_DATA included |
| Protocol.WireHeadersDistinct | auv/constants.py:11-15 | no two `constants.py` header constants are equal |
| Protocol.AuvHeadersFit | auv/auv.py:27-37 | every `auv.py` header shifted by 11 fits 16 bits |
| Protocol.WireEncodings | auv/constants.py:17-20 | DEPTH_ENCODE, HEADING_ENCODE, MISC_ENCODE and POSITION_ENCODE are 0x600000, 0x200000, 0x400000 and 0 |
| Protocol.WireEncodedFit | auv/constants.py:4-20 | each encoded `constants.py` header fits 24 bits and differs from the ping's top 3 bits |
| Protocol.AuvSchemeWellFormed | auv/auv.py:22-37 | the `auv.py` headers are distinct, DEPTH_ENCODE is 0xB800, and every header shifted by 11 fits 16 bits |
| Protocol.WireSchemeWellFormed | auv/constants.py:4-20 | the `constants.py` headers are distinct, the four `*_ENCODE` values are 0, 0x200000, 0x400000 and 0x600000, and none has the ping's header bits 7 |
| Protocol.WireTempDoesNotFit | auv/constants.py:14-20 | the 5-bit TEMP_DATA shifted by 21 would overflow a 3-byte frame, which is why there is no TEMP_ENCODE |
| Protocol.ConfigsValid | auv/auv.py:22-40 | both variants satisfy what the loop needs: a well-formed scheme with an encoded depth header and room for the depth fields |
| Protocol.FirstOver | auv/auv.py:322-323 | the first integer count that is strictly above a real budget |
| Protocol.FirstOverOne | auv/auv.py:39-40 | for a budget of at least 0, the first count over it is at least 1, and is 1 exactly when the budget is below 1 |
| Protocol.FirstOverBudgets | auv/auv.py:39-40 | `timer > MAX_ITERATION_COUNT` first holds at 1715 for `auv.py` (12000/7), and would at 86 for `constants.py` (600/7) |
| Telemetry.DepthOf | auv/auv.py:214-217 | the depth is never negative, and it is zero exactly when the pressure is at most 1013.25 mbar |
| Telemetry.DepthMonotone | auv/auv.py:214-217 | a higher pressure never reads as a shallower depth |
| Telemetry.DepthFrame | auv/auv.py:218-223 | the depth frame is at least each of its three fields and at most their sum; DepthFrameSum and DepthFrameLayout give its exact layout |
| Telemetry.DepthFrameSum | auv/auv.py:218-223 | the depth frame equals header, whole metres and digit placed side by side, as an arithmetic sum |
| Telemetry.DepthFrameLayout | auv/auv.py:218-231 | from the depth frame, the header, the whole metres and the digit can each be read back, and the frame fits the variant's width |
| Telemetry.DepthFrameFits | auv/auv.py:223-231 | in a well-formed scheme, any value below the shift added to the depth header still fits the frame |
| Telemetry.AuvDepthFrame | auv/auv.py:218-231 | for `auv.py`, the 2-byte depth write is 0xB800 + 16·metres + digit, its top 5 bits are 0b10111, and both fields can be read back for fewer than 128 m |
| Frame.Value | auv/auv.py:242 | `int.from_bytes(line, "big")` of a 3-byte line: the first byte is the top 8 bits, the last byte the low 8 bits |
| Frame.Bytes | auv/auv.py:242 | the big-endian bytes of a 24-bit value read back as that value |
| Frame.BytesOfValue | auv/auv.py:242 | reading 3 bytes as a value and writing it back gives the same bytes |
| Frame.XField | auv/auv.py:266 | the x field is in 0..251 and never has bit 2 set |
| Frame.YField | auv/auv.py:267-271 | the signed y field is in -255..255; it is negative only with the sign bit set, and zero exactly when the low byte is zero |
| Frame.Decode | auv/auv.py:242-281 | a frame is a ping iff it is 0xFFFFFF; otherwise it is a navigation command iff bit 17 is set, and a mission command otherwise. It states the field ranges, and that the mission id is the low two bits |
| Frame.PingHasNavigationBit | auv/auv.py:242-265 | 0xFFFFFF also has the navigation bit, so the ping test has to come first |
| Frame.EncodeNavigate | auv/auv.py:262-271 | a navigation frame is never the ping, and it always has the navigation bit set |
| Frame.DecodeNavigation | auv/auv.py:242-271 | any non-ping value with bit 17 set decodes to its x and y fields |
| Frame.XOfNavigate | auv/auv.py:266 | the x field of a navigation frame is its x byte with bit 2 cleared |
| Frame.YOfNavigate | auv/auv.py:267-271 | the y field of a navigation frame is its magnitude, negated exactly when the sign bit is set |
| Frame.NavigateRoundTrip | auv/auv.py:265-271 | decoding a navigation frame gives the signed y field exactly, and gives x with bit 2 cleared |
| Frame.NavigateRoundTripExactly | auv/auv.py:266 | a navigation command survives encoding and decoding exactly when bit 2 of x is clear |
| Frame.EncodeStartMission | auv/auv.py:265-281 | a mission-command frame has the navigation bit clear |
| Frame.StartMissionRoundTrip | auv/auv.py:276-281 | a mission-command frame for id 0..3 decodes to that id |
| Motors.EndsStopped | auv/auv.py:106-135 | a command sequence that ends by zeroing leaves the motors stopped, whatever they did before |
| Motors.TurnSpeed | auv/auv.py:108-116 | the turn speed is +90, -90 or 0, and has the sign of y |
| Motors.RunMotors | auv/auv.py:104-135 | the manoeuvre starts and ends with a zeroing, turns toward the sign of y, drives forward iff x is non-zero, runs one channel at a time, and zeroes after each run |
| Motors.RunMotorsDependsOnSigns | auv/auv.py:112-130 | only the signs of x and y matter, not their magnitudes |
| Motors.RunMotorsStops | auv/auv.py:135 | after the manoeuvre the motors are stopped |
| Vehicle.Initial | auv/auv.py:50-59 | after construction the vehicle is not connected, has no mission, and its timer is 0 |
| Connection.CheckTimeout | auv/auv.py:143-157 | `connected` stays set iff it was set and the last ping is within the timeout. A loss has exactly the effects of `LossEffects`. Nothing happens otherwise, and nothing else changes |
| Connection.LossEffects | auv/auv.py:146-157 | handling a loss logs it once, sets the motor speeds to [0, 0, 0, 0] once and issues no other motor command, and flushes exactly when a radio device exists; the log line comes first, then the stop |
| Connection.OnPing | auv/auv.py:242-250 | a ping connects and records its time; only the first ping after a loss logs and sets the test speeds [1, 2, 3, 4] |
| Connection.PingThenTimeout | auv/auv.py:144-157 | after a ping, the vehicle stays connected up to and including exactly `timeout` seconds later, and not after |
| Connection.CheckTimeouts | auv/auv.py:144-157 | repeated timeout checks change nothing but `connected`, never set it, and have no effects other than the loss handling |
| Connection.ZeroedOncePerLoss | auv/auv.py:144-157 | without pings, however many checks see the timeout, the loss is logged once, the motors are set to speed 0 once and never commanded otherwise, and the radio is flushed once if a device exists; all of this happens iff the vehicle was connected and some check is late, and never otherwise |
| Supervisor.Start | auv/auv.py:329-344 | mission 0 installs echo-location with a fresh timer, replacing any running mission; other ids change nothing |
| Supervisor.Abort | auv/auv.py:351-355 | the mission becomes None and the abort hook runs once |
| Supervisor.MissionTick | auv/auv.py:317-325 | a present mission is stepped and counted; it is aborted iff the new count exceeds the budget; without a mission nothing happens |
| Supervisor.RunsUntilBudget | auv/auv.py:317-325 | a running mission keeps running until its timer reaches the first count over the budget, then is gone, and the timer stops there |
| Supervisor.OverBudget | auv/auv.py:322-323 | with k the first count over the budget, a count up to k is over the budget exactly when it equals k |
| Supervisor.MissionTicks | auv/auv.py:317-325 | repeated mission ticks change only the mission and its timer, advance the timer by at most one per tick, never install a different mission, and only step or abort the mission |
| Supervisor.MissionTickAgree | auv/auv.py:317-325 | the mission tick depends only on the mission and its timer |
| Supervisor.AbortedExactlyOnce | auv/auv.py:317-325 | over any number of mission ticks, a running mission is aborted exactly once, at the tick that reaches the first count over the budget |
| Supervisor.SteppedUntilBudget | auv/auv.py:317-325 | the mission is stepped once per iteration up to and including that iteration, and never after |
| Supervisor.IdleTicks | auv/auv.py:317 | with no mission, the mission tick does nothing |
| Supervisor.StartThenRunOut | auv/auv.py:317-335 | after `start_mission(0)`, the mission is stepped on each of the first FirstOver(budget) iterations and aborted exactly once, at the last of them |
| Supervisor.AuvMissionBudget | auv/auv.py:39-40 | with the `auv.py` constants, a started mission is aborted exactly at iteration 1715 |
| Receiver.Handle | auv/auv.py:242-281 | a ping goes to the liveness logic, a navigation command runs the manoeuvre with the decoded (x, y), and a mission command starts that mission; only pings touch the connection state |
| Receiver.Dispatch | auv/auv.py:240-305 | handling frames keeps the radio and the pressure sensor as they were |
| Receiver.FullPrefix | auv/auv.py:236-240 | the drain consumes exactly the reads up to the first one that does not return 3 bytes |
| Receiver.Drain | auv/auv.py:235-308 | draining never writes, closes, reports a loss, or steps the mission |
| Receiver.DrainRaises | auv/auv.py:236-315 | the drain ends in the exception handler exactly when some read raises after nothing but full frames |
| Receiver.DrainLoop | auv/auv.py:235-308 | the loop computes the drain; a read raises iff some read raises after only full frames; otherwise the radio is flushed last |
| Receiver.HandleOffRadio | auv/auv.py:242-281 | handling one frame never touches the radio, never reports a loss, and never steps the mission |
| Receiver.DispatchOffRadio | auv/auv.py:240-305 | handling frames never touches the radio, never reports a loss, and never steps the mission |
| Receiver.DispatchWithoutPings | auv/auv.py:252-281 | frames other than pings leave `connected` and the ping time as they were |
| Receiver.DispatchKeepsMission | auv/auv.py:252-274 | frames other than mission commands leave the mission and its timer as they were |
| MainLoop.DepthWrite | auv/auv.py:218-231 | the depth write is as wide as the variant's frame (2 bytes for `auv.py`); when the fields fit, its value carries the depth header in its top bits and gives back the whole metres and the digit |
| MainLoop.TelemetryWrites | auv/auv.py:169-231 | exactly one heartbeat is written first; the depth frame is written once after it iff the vehicle is connected and has a pressure sensor, and nothing else is written |
| MainLoop.Reconnect | auv/auv.py:159-325 | a successful `Radio(RADIO_PATH)` leaves the radio open and a failed one leaves it as it was; then the mission tick runs: a present mission is stepped once and counted, and aborted once iff the new count exceeds the budget; nothing but the radio, the mission and the timer changes, and there are no radio effects |
| MainLoop.Tick | auv/auv.py:141-327 | one iteration keeps the pressure sensor, and with the radio not open it reopens it exactly when `Radio(RADIO_PATH)` succeeds; TickLoss, TickWrites, TickHeartbeat, TickDepth, TickRaised, TickWithoutPing and TickAsMissionTick state the rest |
| MainLoop.ReconnectThenHeartbeat | auv/auv.py:159-169 | an iteration without an open radio sends no heartbeat, and the next iteration sends one exactly when the reopen succeeded |
| MainLoop.Exchange | auv/auv.py:166-315 | the open-radio branch never reports a lost connection |
| MainLoop.AfterDrain | auv/auv.py:308-325 | after a raise, the radio is closed and dropped and the mission tick is skipped; otherwise the mission tick runs |
| MainLoop.DrainedFrames | auv/auv.py:235-310 | the drain's state is that of handling the full frames before the first short read; it raised iff that read raised |
| MainLoop.ExchangeWrites | auv/auv.py:166-315 | in the open-radio branch, the writes are exactly the telemetry writes |
| MainLoop.TickWrites | auv/auv.py:141-327 | the writes of an iteration are exactly the telemetry writes (one heartbeat, then at most one depth frame), made iff the radio was open |
| MainLoop.TickHeartbeat | auv/auv.py:159-169 | the heartbeat goes out on exactly the iterations that find the radio open |
| MainLoop.TickDepth | auv/auv.py:144-231 | the depth frame goes out iff the radio is open, a pressure sensor exists, and the vehicle is still connected after this iteration's timeout check |
| MainLoop.TickLoss | auv/auv.py:144-157 | an iteration reports a loss exactly when it was connected and the last ping is past the timeout, and such an iteration begins with the loss handling: log, motors to speed 0, flush if a device exists |
| MainLoop.ExchangeWithoutPing | auv/auv.py:166-315 | without a ping among the frames, the open-radio branch leaves `connected` and the ping time as they were |
| MainLoop.TickWithoutPing | auv/auv.py:144-281 | without a ping among the frames, only the timeout check changes the connection, and the ping time stays |
| MainLoop.Run | auv/auv.py:141-327 | consecutive iterations keep the pressure sensor found at start-up; the Run lemmas below state the rest |
| MainLoop.RunWithoutPings | auv/auv.py:141-327 | over any run of iterations without pings, the ping time stays, and the vehicle ends connected iff it started connected and no iteration was past the timeout |
| MainLoop.LossCount | auv/auv.py:141-327 | without pings, a run reports a loss exactly when it starts connected and ends disconnected |
| MainLoop.LossHandledOnce | auv/auv.py:141-327 | over any run of iterations without pings, the loss is reported at most once, and exactly once iff the vehicle was connected and some iteration is past the timeout |
| MainLoop.ExchangeAsMissionTick | auv/auv.py:166-325 | with no read raising and no mission command, the open-radio branch leaves the mission and timer as the mission tick alone would, and steps and aborts it as often |
| MainLoop.TickAsMissionTick | auv/auv.py:141-325 | in such a quiet iteration the whole iteration does the same, whatever the radio, the pings and the timeout do |
| MainLoop.RunIdle | auv/auv.py:141-327 | without a mission, quiet iterations keep the mission absent and the timer as it was |
| MainLoop.RunMissionState | auv/auv.py:141-327 | over quiet iterations, a running mission keeps running until its timer reaches the first count over the budget and is then gone; the timer stops there |
| MainLoop.RunAbortCount | auv/auv.py:141-355 | over quiet iterations, the mission is aborted exactly when the run starts with a mission and ends without one |
| MainLoop.RunLoopCount | auv/auv.py:141-327 | over quiet iterations, the mission is stepped once for every count its timer advances |
| MainLoop.RunAbortsAtBudget | auv/auv.py:141-327 | a running mission with any timer below FirstOver(budget) is stepped on each quiet iteration until its timer reaches that count, and is aborted exactly once, on the iteration that reaches it |
| MainLoop.ExchangeStarts | auv/auv.py:166-325 | the open-radio branch that reads only the `start_mission(0)` frame installs the mission and steps it once in the same iteration, so its timer is 1 |
| MainLoop.StartingTick | auv/auv.py:141-335 | the iteration that reads only the `start_mission(0)` frame ends with the mission's timer at 1 after one step; the mission is aborted in that iteration exactly when 1 exceeds the budget |
| MainLoop.CheckTimeoutNoMission | auv/auv.py:144-157 | the timeout check neither steps nor aborts the mission |
| MainLoop.RunAfterStart | auv/auv.py:141-327 | after the starting iteration, quiet iterations step the mission min(n, FirstOver(budget) - 1) times and abort it once iff the count is reached |
| MainLoop.StartedRunAbortsAtBudget | auv/auv.py:141-335 | in a run whose first iteration reads the `start_mission(0)` frame and whose others are quiet, counting the starting iteration, the mission is stepped on each of the first FirstOver(budget) iterations (1715 for `auv.py`). It is aborted exactly once, on the last of them |
| MainLoop.ExchangeRaised | auv/auv.py:236-315 | in the open-radio branch, the radio is dropped iff a read raises; then the earlier frames' handling is kept, the close comes last, and nothing is flushed and the mission is not stepped |
| MainLoop.TickRaised | auv/auv.py:141-315 | a raising read closes and drops the radio after handling the earlier frames, ends the iteration with the close, flushes nothing after the timeout check, and skips the mission tick; otherwise the radio stays open |
| MainLoop.TickOneFrame | auv/auv.py:141-327 | with an open radio, no timeout, no mission and no pressure sensor, one frame gives: heartbeat, the frame's handling, flush |
| MainLoop.FirstPingConnects | auv/auv.py:242-250 | the first ping on a fresh vehicle connects it and sets the test speeds |
| MainLoop.NavigateWhileConnected | auv/auv.py:264-274 | the frame with x = 10 and y = -30 runs exactly the manoeuvre for it (turn left, then drive forward) between heartbeat and flush, and changes no state |
| MainLoop.PingRefreshes | auv/auv.py:242-247 | a ping while connected only refreshes the ping time |

## Left out

- MainLoop.DepthWrite: writes `frameBits / 8` bytes, which is 2 for `auv.py`
  as at line 231. Running `MainLoop.Tick` with the `constants.py` variant is
  a hypothetical combination that no source file contains. It writes a
  3-byte depth frame and keeps the 1-byte `0xFF` heartbeat of line 169.
  `auv_send_ping.py` instead writes `0xFFFFFF` as 3 bytes, and it is not part
  of this model.
- `WATER_DEPTH_DATA = pressure * 10.2` (line 229): a local variable that is
  assigned and never sent. It is not the header constant of line 35.

- Hardware drivers: radio, IMU, pressure sensor and motor controller. Their
  calls are recorded as effects, and their readings are inputs.
- The IMU heading and temperature readings (lines 183-207). They are read
  but never sent.
- The float path from pressure to the depth fields (`math.modf`, `round`,
  `int`). `MainLoop.DepthReading` takes the whole metres and the digit as
  given. The digit can be 10 when the fraction rounds up; the layout lemmas
  assume digit < 16 and whole metres below the header.
- Floating-point clocks. Clock readings are integers, and each read carries
  the clock reading at which it is handled.
- `time.sleep`: the loop delay, and the 5-second waits inside `run_motors`.
- Exceptions from every call but `radio.read(3)`. Only a raising read is
  modelled. In the source, any of the following calls inside the `try` of
  lines 166-309 that raises also reaches the handler of lines 310-315. The
  handler closes and drops the radio and skips the mission tick. The model
  treats each of these calls as succeeding:
  - the heartbeat write (line 169) and the depth write (line 231);
  - the pressure sensor's `read()` (line 211) and `pressure()` (lines 214
    and 224);
  - the ping's test speeds through `x` (line 250);
  - the motor commands of `run_motors` (line 274);
  - the flush after the drain (line 308), which `Receiver.Drain` always
    emits.

  The flush in the timeout check (line 155) is outside every `try`, and the
  model also treats it as succeeding.
- The exception raised when `Mission1(...)` fails to construct. `Mission1`
  itself is not part of this model: its `loop` and `abort_loop` are recorded
  as effects.
- `test_motor`, `d_data` and the `x` helper beyond its use for the ping test
  speeds. The commented-out `eval` dispatch, and the `auv_send_ping.py`,
  `global_vars.py` and hydrophone modules, are not part of this model.
- The constructor's device probing and the `methods` list. `Vehicle.Initial`
  takes the radio and the pressure sensor as parameters.
